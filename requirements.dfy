/** Binding external names to installed versions and emitting the requirements file:
    the mapping `generate_requirements` builds and the lines `write_requirements`
    writes, in `sorted` order. */
module Requirements {
  import opened Wrappers
  import opened Text
  import opened Collections

  /** `if version:` on what `get_installed_version` returned: a non-empty string. */
  predicate Installed(version: Option<string>) {
    version.Some? && version.value != ""
  }

  /** The mapping `generate_requirements` returns for the external names `deps`. */
  function Bind(deps: set<string>, lookup: string -> Option<string>): (requirements: map<string, string>)
    ensures requirements.Keys <= deps
  {
    map p | p in deps && Installed(lookup(p)) :: lookup(p).value
  }

  /** The keys are exactly the names with a truthy version, each mapped to it; the
      others are dropped. */
  lemma BindKeepsInstalled(deps: set<string>, lookup: string -> Option<string>)
    ensures forall p :: p in Bind(deps, lookup) <==> p in deps && Installed(lookup(p))
    ensures forall p :: p in Bind(deps, lookup) ==> Bind(deps, lookup)[p] == lookup(p).value != ""
  {
  }

  predicate Ascending(xs: seq<string>) {
    forall i, j :: 0 <= i < j < |xs| ==> LessEq(xs[i], xs[j])
  }

  predicate StrictlyAscending(xs: seq<string>) {
    forall i, j :: 0 <= i < j < |xs| ==> Less(xs[i], xs[j])
  }

  lemma LessEqTransitive(a: string, b: string, c: string)
    requires LessEq(a, b) && LessEq(b, c)
    ensures LessEq(a, c)
  {
    if Less(a, b) && Less(b, c) {
      LessTransitive(a, b, c);
    }
  }

  /** A name below the head of an ascending sequence is below all of it. */
  lemma BelowHead(x: string, xs: seq<string>)
    requires Ascending(xs) && xs != [] && LessEq(x, xs[0])
    ensures forall k :: 0 <= k < |xs| ==> LessEq(x, xs[k])
  {
    forall k | 0 < k < |xs| ensures LessEq(x, xs[k]) {
      LessEqTransitive(x, xs[0], xs[k]);
    }
  }

  /** A name below every element of an ascending sequence can lead it. */
  lemma PrependAscending(y: string, ys: seq<string>)
    requires Ascending(ys) && forall k :: 0 <= k < |ys| ==> LessEq(y, ys[k])
    ensures Ascending([y] + ys)
  {
    forall i, j | 0 <= i < j < |[y] + ys| ensures LessEq(([y] + ys)[i], ([y] + ys)[j]) {
      assert ([y] + ys)[j] == ys[j - 1];
    }
  }

  /** The head of an ascending sequence stays below everything once a name above it
      joins the tail. */
  lemma HeadBelowAll(h: string, tail: seq<string>, x: string, rest: seq<string>)
    requires Ascending([h] + tail) && !LessEq(x, h)
    requires multiset(rest) == multiset(tail) + multiset{x}
    ensures forall k :: 0 <= k < |rest| ==> LessEq(h, rest[k])
  {
    LessTotal(x, h);
    forall k | 0 <= k < |rest| ensures LessEq(h, rest[k]) {
      assert rest[k] in multiset(rest);
      if rest[k] != x {
        assert rest[k] in multiset(tail);
        var m :| 0 <= m < |tail| && tail[m] == rest[k];
        assert ([h] + tail)[m + 1] == rest[k] && ([h] + tail)[0] == h;
        assert LessEq(([h] + tail)[0], ([h] + tail)[m + 1]);
      }
    }
  }

  /** Inserting into an ascending sequence keeps it ascending and adds exactly `x`. */
  function Insert(x: string, xs: seq<string>): (r: seq<string>)
    requires Ascending(xs)
    ensures Ascending(r) && multiset(r) == multiset(xs) + multiset{x}
  {
    if xs == [] then [x]
    else if LessEq(x, xs[0]) then
      BelowHead(x, xs);
      PrependAscending(x, xs);
      [x] + xs
    else
      assert xs == [xs[0]] + xs[1..];
      var rest := Insert(x, xs[1..]);
      HeadBelowAll(xs[0], xs[1..], x, rest);
      PrependAscending(xs[0], rest);
      [xs[0]] + rest
  }

  /** The model of `sorted` on a list of names: an ascending permutation. */
  function Sort(xs: seq<string>): (r: seq<string>)
    ensures Ascending(r) && multiset(r) == multiset(xs)
  {
    if xs == [] then []
    else
      assert xs == [xs[0]] + xs[1..];
      Insert(xs[0], Sort(xs[1..]))
  }

  /** Two ascending sequences with the same elements start with the same name. */
  lemma AscendingHeads(a: seq<string>, b: seq<string>)
    requires Ascending(a) && Ascending(b) && multiset(a) == multiset(b) && a != []
    ensures b != [] && a[0] == b[0]
  {
    assert a[0] in multiset(b);
    assert b[0] in multiset(a);
    var i :| 0 <= i < |b| && b[i] == a[0];
    var j :| 0 <= j < |a| && a[j] == b[0];
    if i > 0 {
      assert LessEq(b[0], b[i]);
    }
    if j > 0 {
      assert LessEq(a[0], a[j]);
    }
    LessAsymmetric(a[0], b[0]);
  }

  /** Dropping the head of an ascending sequence keeps it ascending and removes one
      occurrence of the head from its elements. */
  lemma AscendingTail(a: seq<string>)
    requires Ascending(a) && a != []
    ensures Ascending(a[1..]) && multiset(a[1..]) == multiset(a) - multiset{a[0]}
  {
    assert a == [a[0]] + a[1..];
  }

  /** Two ascending sequences with the same elements are equal: there is only one
      sorted order of a collection. */
  lemma {:induction false} AscendingUnique(a: seq<string>, b: seq<string>)
    requires Ascending(a) && Ascending(b) && multiset(a) == multiset(b)
    ensures a == b
    decreases |a|
  {
    if a != [] {
      AscendingHeads(a, b);
      AscendingTail(a);
      AscendingTail(b);
      AscendingUnique(a[1..], b[1..]);
      assert a == [a[0]] + a[1..] && b == [b[0]] + b[1..];
    } else if b != [] {
      AscendingHeads(b, a);
    }
  }

  /** `sorted` does not depend on the order it is given its names in. */
  lemma SortOrderIndependent(xs: seq<string>, ys: seq<string>)
    requires multiset(xs) == multiset(ys)
    ensures Sort(xs) == Sort(ys)
  {
    AscendingUnique(Sort(xs), Sort(ys));
  }

  /** An ascending sequence whose elements form a set is strictly ascending and lists the set. */
  lemma AscendingListing(ys: seq<string>, s: set<string>)
    requires Ascending(ys) && multiset(ys) == multiset(s)
    ensures StrictlyAscending(ys) && Lists(ys, s)
  {
    forall i, j | 0 <= i < j < |ys| ensures ys[i] != ys[j] {
      var v := ys[i];
      assert ys == ys[..j] + ys[j..];
      assert v in ys[..j];
      assert multiset(ys)[v] == multiset(ys[..j])[v] + multiset(ys[j..])[v];
      assert multiset(s)[v] <= 1;
    }
    forall x | x in ys ensures x in s {
      assert x in multiset(ys);
    }
    forall x | x in s ensures x in ys {
      assert x in multiset(s);
    }
  }

  lemma {:induction false} ListingExists(s: set<string>)
    ensures exists xs :: Lists(xs, s)
    decreases s
  {
    if s == {} {
      assert Lists([], s);
    } else {
      var x :| x in s;
      ListingExists(s - {x});
      var xs :| Lists(xs, s - {x});
      assert Lists(xs + [x], s);
    }
  }

  /** The names of a mapping in `sorted` order: each key once, strictly ascending. */
  ghost function SortedKeys(keys: set<string>): (names: seq<string>)
    ensures StrictlyAscending(names) && Lists(names, keys)
  {
    ListingExists(keys);
    var xs :| Lists(xs, keys);
    ListingMultiset(xs, keys);
    AscendingListing(Sort(xs), keys);
    Sort(xs)
  }

  /** Sorting any listing of the keys gives `SortedKeys`: the output does not depend
      on the iteration order of the set or dictionary. */
  lemma SortListingIsSortedKeys(xs: seq<string>, keys: set<string>)
    requires Lists(xs, keys)
    ensures Sort(xs) == SortedKeys(keys)
  {
    var names := SortedKeys(keys);
    ListingMultiset(xs, keys);
    ListingMultiset(names, keys);
    AscendingUnique(Sort(xs), names);
  }

  /** One line of requirements.txt. */
  function FormatLine(name: string, version: string): string {
    if version != "" then name + "==" + version else name
  }

  /** The lines written for `names`, in that order. */
  function Lines(requirements: map<string, string>, names: seq<string>): (lines: seq<string>)
    requires forall i :: 0 <= i < |names| ==> names[i] in requirements
    ensures |lines| == |names|
    ensures forall i :: 0 <= i < |names| ==> lines[i] == FormatLine(names[i], requirements[names[i]])
  {
    if names == [] then []
    else
      var last := names[|names| - 1];
      Lines(requirements, names[..|names| - 1]) + [FormatLine(last, requirements[last])]
  }

  /** The content of requirements.txt for a mapping: one line per key, in ascending order. */
  ghost function Emit(requirements: map<string, string>): seq<string> {
    Lines(requirements, SortedKeys(requirements.Keys))
  }

  /** For a mapping `generate_requirements` built, every line is `name==version` for the
      i-th name in ascending order, and each name has one line: the bare-name branch
      is never taken. */
  lemma EmitPinned(deps: set<string>, lookup: string -> Option<string>)
    ensures var requirements := Bind(deps, lookup);
      var names := SortedKeys(requirements.Keys);
      var lines := Emit(requirements);
      && |lines| == |names|
      && StrictlyAscending(names)
      && (forall p :: p in names <==> p in deps && Installed(lookup(p)))
      && forall i :: 0 <= i < |lines| ==> lines[i] == names[i] + "==" + lookup(names[i]).value
  {
  }
}
