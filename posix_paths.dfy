/** POSIX `pathlib` paths as the analyzer uses them: parsing a string into parts,
    `str`, `.name`, `.parent`, `.suffix` and `.with_suffix`. Joining a path with
    further parts (`joinpath`, `/`) is concatenation of part sequences. */
module PosixPaths {
  import opened Text

  /** A path as pathlib holds it: its parts; an absolute path starts with the part "/". */
  type Path = seq<string>

  const Root: string := "/"

  /** A path pathlib can produce: no empty or "." parts, and a '/' only in a leading root part. */
  predicate Normal(p: Path) {
    forall i :: 0 <= i < |p| ==> p[i] != "" && p[i] != "." && ('/' in p[i] ==> i == 0 && p[i] == Root)
  }

  /** The '/'-separated pieces pathlib keeps: empty and "." pieces are dropped. */
  function Parts(pieces: seq<string>): (parts: seq<string>)
    ensures forall x :: x in parts <==> x in pieces && x != "" && x != "."
  {
    if pieces == [] then []
    else (if pieces[0] == "" || pieces[0] == "." then [] else [pieces[0]]) + Parts(pieces[1..])
  }

  /** Parsing keeps the pieces of two runs in order: the parts of a concatenation
      are the parts of the first run followed by those of the second. */
  lemma {:induction false} PartsAppend(a: seq<string>, b: seq<string>)
    ensures Parts(a + b) == Parts(a) + Parts(b)
    decreases |a|
  {
    if a != [] {
      assert (a + b)[1..] == a[1..] + b;
      PartsAppend(a[1..], b);
    } else {
      assert a + b == b;
    }
  }

  /** Pieces that are all kept come through unchanged. */
  lemma {:induction false} PartsKeepsNormalPieces(pieces: seq<string>)
    requires forall i :: 0 <= i < |pieces| ==> pieces[i] != "" && pieces[i] != "."
    ensures Parts(pieces) == pieces
    decreases |pieces|
  {
    if pieces != [] {
      PartsKeepsNormalPieces(pieces[1..]);
      assert pieces == [pieces[0]] + pieces[1..];
    }
  }

  /** `Path(s)` on a POSIX system. */
  function PathOf(s: string): (p: Path)
    ensures Normal(p)
  {
    var parts := Parts(Split(s, '/'));
    assert forall i :: 0 <= i < |parts| ==> parts[i] in parts;
    if |s| > 0 && s[0] == '/' then [Root] + parts else parts
  }

  /** `str(p)`. */
  function Str(p: Path): (s: string)
    ensures Normal(p) ==> s != ""
    ensures Normal(p) ==> (s[0] == '/' <==> p != [] && p[0] == Root)
  {
    if p == [] then "."
    else if p[0] == Root then ['/'] + (if |p| == 1 then "" else Join(p[1..], '/'))
    else Join(p, '/')
  }

  /** Parts that need no root: none is empty or "." or holds a '/'. */
  predicate PlainParts(p: Path) {
    forall i :: 0 <= i < |p| ==> p[i] != "" && p[i] != "." && '/' !in p[i]
  }

  /** The parts of a relative normal path survive `str` and parsing: joining them with
      '/' and splitting again gives them back, and none is dropped. */
  lemma RelativeParts(p: Path)
    requires p != [] && PlainParts(p)
    ensures Parts(Split(Join(p, '/'), '/')) == p
  {
    SplitJoin(p, '/');
    PartsKeepsNormalPieces(p);
  }

  /** `Path(str(p)) == p` for a relative path with at least one part. */
  lemma PathOfStrRelative(p: Path)
    requires Normal(p) && p != [] && p[0] != Root
    ensures PathOf(Str(p)) == p
  {
    assert '/' !in p[0];
    RelativeParts(p);
    assert Str(p)[0] == p[0][0];
  }

  /** Below the root of a normal path, every part is plain. */
  lemma NormalTail(p: Path)
    requires Normal(p) && p != []
    ensures PlainParts(p[1..])
  {
    forall i | 0 <= i < |p| - 1 ensures p[1..][i] != "" && p[1..][i] != "." && '/' !in p[1..][i] {
      assert p[1..][i] == p[i + 1];
    }
  }

  /** A leading '/' adds an empty first piece, which parsing drops. */
  lemma LeadingSeparator(t: string)
    ensures Parts(Split(['/'] + t, '/')) == Parts(Split(t, '/'))
  {
    SplitLeadingPiece("", '/', t);
    assert "" + ['/'] + t == ['/'] + t;
    var pieces := Split(['/'] + t, '/');
    assert pieces[1..] == Split(t, '/');
  }

  /** `Path(str(p)) == p` for an absolute path below the root, given by its plain parts. */
  lemma AbsoluteRoundTrip(rest: Path)
    requires rest != [] && PlainParts(rest)
    ensures PathOf(Str([Root] + rest)) == [Root] + rest
  {
    var p := [Root] + rest;
    var joined := Join(rest, '/');
    assert p[0] == Root && p[1..] == rest && |p| != 1;
    assert Str(p) == ['/'] + joined;
    RelativeParts(rest);
    LeadingSeparator(joined);
  }

  /** `Path(str(p)) == p` for an absolute path below the root. */
  lemma PathOfStrAbsolute(p: Path)
    requires Normal(p) && |p| >= 2 && p[0] == Root
    ensures PathOf(Str(p)) == p
  {
    NormalTail(p);
    assert p == [Root] + p[1..];
    AbsoluteRoundTrip(p[1..]);
  }

  /** Parsing the string of a path gives the same path: `Path(str(p)) == p`. */
  lemma PathOfStr(p: Path)
    requires Normal(p)
    ensures PathOf(Str(p)) == p
  {
    if p == [] {
      SplitWithoutSeparator(".", '/');
    } else if p == [Root] {
      SplitLeadingPiece("", '/', "");
      assert Str(p) == "" + ['/'] + "";
      assert Split("", '/') == [""];
      assert Parts(["", ""]) == [];
    } else if p[0] == Root {
      PathOfStrAbsolute(p);
    } else {
      PathOfStrRelative(p);
    }
  }

  /** `p.name`: the last part, or "" for the current directory and the root. */
  function Name(p: Path): (name: string)
    ensures Normal(p) ==> (name == "" <==> p == [] || p == [Root])
    ensures Normal(p) ==> name != "." && '/' !in name
    ensures p != [] && p != [Root] ==> name == p[|p| - 1]
  {
    if p == [] || p == [Root] then "" else p[|p| - 1]
  }

  /** `p.parent`: the current directory and the root are their own parents. */
  function Parent(p: Path): (q: Path)
    ensures Normal(p) ==> Normal(q)
    ensures p != [] && p != [Root] ==> q + [p[|p| - 1]] == p
    ensures p == [] || p == [Root] ==> q == p
  {
    if p == [] || p == [Root] then p else p[..|p| - 1]
  }

  /** `PurePath.suffix` of a name: from its last dot, unless that dot leads or ends the name. */
  function Suffix(name: string): (suffix: string)
    ensures |suffix| <= |name| && suffix == name[|name| - |suffix|..]
    ensures suffix != "" ==> suffix[0] == '.' && |suffix| >= 2 && |suffix| < |name| && '.' !in suffix[1..]
    ensures '.' !in name ==> suffix == ""
    ensures suffix != "" <==>
      name != "" && name[|name| - 1] != '.' && exists i :: 1 <= i < |name| && name[i] == '.'
  {
    LastDotInside(name);
    var i := LastIndexOf(name, '.');
    if 0 < i < |name| - 1 then name[i..] else ""
  }

  /** The last dot of a name lies strictly inside it exactly when the name does not end
      in a dot and has a dot after its first character. */
  lemma LastDotInside(name: string)
    ensures var i := LastIndexOf(name, '.');
      0 < i < |name| - 1 <==>
      name != "" && name[|name| - 1] != '.' && exists j :: 1 <= j < |name| && name[j] == '.'
  {
    var i := LastIndexOf(name, '.');
    if j :| 1 <= j < |name| && name[j] == '.' {
      assert i >= j;
    }
    if 0 < i < |name| - 1 {
      assert name[|name| - 1] != '.';
    }
  }

  /** The name without its suffix (`PurePath.stem`). */
  function Stem(name: string): (stem: string)
    ensures stem + Suffix(name) == name
    ensures name != "" ==> stem != ""
  {
    name[..|name| - |Suffix(name)|]
  }

  /** `p.with_suffix(suffix)`: replaces the suffix of the last part; pathlib raises
      `ValueError` on a path with an empty name, hence the precondition. */
  function WithSuffix(p: Path, suffix: string): (q: Path)
    requires Name(p) != ""
    ensures |q| == |p| && q[..|p| - 1] == p[..|p| - 1]
    ensures q[|p| - 1] == Stem(Name(p)) + suffix
  {
    p[..|p| - 1] + [Stem(Name(p)) + suffix]
  }

  /** A dot-free name has no suffix, so `with_suffix` appends. */
  lemma WithSuffixAppends(p: Path, suffix: string)
    requires Name(p) != "" && '.' !in Name(p)
    ensures WithSuffix(p, suffix) == p[..|p| - 1] + [Name(p) + suffix]
  {
    assert Name(p)[..|Name(p)|] == Name(p);
  }
}
