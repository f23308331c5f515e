/** Listing a finite set in some order, the model of `list(s)` / iterating a `set` or `dict`. */
module Collections {

  /** No element occurs twice in `xs`. */
  predicate NoDup<T(==)>(xs: seq<T>) {
    forall i, j :: 0 <= i < j < |xs| ==> xs[i] != xs[j]
  }

  /** `xs` lists every element of `s` exactly once. */
  predicate Lists<T(==)>(xs: seq<T>, s: set<T>) {
    NoDup(xs) && (forall x :: x in xs ==> x in s) && (forall x :: x in s ==> x in xs)
  }

  /** Lists `s` in an order the caller cannot predict, as Python's set iteration. */
  method Enumerate<T(==)>(s: set<T>) returns (xs: seq<T>)
    ensures Lists(xs, s)
  {
    xs := [];
    var rest := s;
    while rest != {}
      invariant NoDup(xs)
      invariant forall x :: x in xs ==> x in s && x !in rest
      invariant forall x :: x in s ==> x in xs || x in rest
      invariant rest <= s
      decreases rest
    {
      var x :| x in rest;
      xs := xs + [x];
      rest := rest - {x};
    }
  }

  /** Dropping the first element of a listing lists the rest of the set. */
  lemma ListsTail<T>(xs: seq<T>, s: set<T>)
    requires Lists(xs, s) && xs != []
    ensures Lists(xs[1..], s - {xs[0]})
  {
    var tail := xs[1..];
    forall y | y in s - {xs[0]} ensures y in tail {
      var k :| 0 <= k < |xs| && xs[k] == y;
      assert tail[k - 1] == y;
    }
    forall y | y in tail ensures y in s - {xs[0]} {
      var k :| 0 <= k < |tail| && tail[k] == y;
      assert xs[k + 1] == y;
    }
  }

  /** A listing of a set holds each element once: its multiset is the set's. */
  lemma {:induction false} ListingMultiset<T>(xs: seq<T>, s: set<T>)
    requires Lists(xs, s)
    ensures multiset(xs) == multiset(s)
    decreases |xs|
  {
    if xs == [] {
      assert s == {};
    } else {
      var x := xs[0];
      ListsTail(xs, s);
      ListingMultiset(xs[1..], s - {x});
      assert xs == [x] + xs[1..];
      assert s == (s - {x}) + {x};
    }
  }

  /** The set of the elements of a sequence. */
  function Elements<T>(xs: seq<T>): set<T> {
    set x | x in xs
  }

  /** A concatenation splits back into its two halves. */
  lemma AppendHalves<T>(a: seq<T>, b: seq<T>)
    ensures |a| <= |a + b| && (a + b)[..|a|] == a && (a + b)[|a|..] == b
  {
  }

  /** Concatenation regrouped. */
  lemma AppendAssoc<T>(a: seq<T>, b: seq<T>, c: seq<T>)
    ensures a + (b + c) == (a + b) + c
  {
  }

  /** The elements of a non-empty sequence are those of all but its last, and the last. */
  lemma ElementsSnoc<T>(xs: seq<T>)
    requires xs != []
    ensures Elements(xs) == Elements(xs[..|xs| - 1]) + {xs[|xs| - 1]}
  {
    assert xs == xs[..|xs| - 1] + [xs[|xs| - 1]];
  }

  /** Adding a new element to a set adds it to the set's difference with `start` and,
      when it is in `within`, to the part of that difference within `within`. */
  lemma AddFresh<T>(s: set<T>, start: set<T>, within: set<T>, x: T)
    requires x !in start
    ensures (s + {x}) - start == (s - start) + {x}
    ensures x in within ==> ((s + {x}) - start) * within == ((s - start) * within) + {x}
    ensures x !in within ==> ((s + {x}) - start) * within == (s - start) * within
  {
  }
}
