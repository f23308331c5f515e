/** Module resolution of `ImportAnalyzer`: the ordered search roots, the file search of
    `_find_module_file`, and the three-way classification of `_process_import`. */
module Resolver {
  import opened Wrappers
  import opened Text
  import opened PosixPaths

  const InitFile: string := "__init__.py"
  const PySuffix: string := ".py"

  /** The parts of a dotted import name as `ast` produces them: identifiers, so
      no part is empty or holds a dot or a slash. */
  predicate ValidParts(parts: seq<string>) {
    |parts| > 0 && forall i :: 0 <= i < |parts| ==> parts[i] != "" && '.' !in parts[i] && '/' !in parts[i]
  }

  /** A dotted module name whose `split('.')` gives identifier parts. */
  predicate ModuleName(name: string) {
    ValidParts(Split(name, '.'))
  }

  /** A list of dotted module names. */
  predicate ModuleNames(names: seq<string>) {
    forall i :: 0 <= i < |names| ==> ModuleName(names[i])
  }

  /** `os.getenv(key, default)`. */
  function GetEnv(env: map<string, string>, key: string, default: string): string {
    if key in env then env[key] else default
  }

  /** The roots an environment variable contributes:
      `list(filter(None, os.getenv(key, '').split(os.pathsep)))`, each made a `Path`. */
  function EnvPaths(env: map<string, string>, key: string): (roots: seq<Path>)
    ensures |roots| <= |Split(GetEnv(env, key, ""), ':')|
    ensures |roots| == |NonEmpty(Split(GetEnv(env, key, ""), ':'))|
    ensures forall i :: 0 <= i < |roots| ==> roots[i] == PathOf(NonEmpty(Split(GetEnv(env, key, ""), ':'))[i])
  {
    var entries := NonEmpty(Split(GetEnv(env, key, ""), ':'));
    seq(|entries|, i requires 0 <= i < |entries| => PathOf(entries[i]))
  }

  /** The search order of `_find_module_file`: the local paths, then `PYTHONPATH`,
      then `PATH`. */
  function SearchPaths(localPaths: seq<Path>, env: map<string, string>): (roots: seq<Path>)
    ensures |roots| == |localPaths| + |EnvPaths(env, "PYTHONPATH")| + |EnvPaths(env, "PATH")|
    ensures roots[..|localPaths|] == localPaths
  {
    localPaths + EnvPaths(env, "PYTHONPATH") + EnvPaths(env, "PATH")
  }

  /** Each root an environment variable gives is a non-empty entry of its value, and
      every non-empty entry gives one; an unset variable gives none. */
  lemma EnvPathsEntries(env: map<string, string>, key: string)
    ensures forall r :: r in EnvPaths(env, key) ==>
      exists e :: e in Split(GetEnv(env, key, ""), ':') && e != "" && r == PathOf(e)
    ensures forall e :: e in Split(GetEnv(env, key, ""), ':') && e != "" ==> PathOf(e) in EnvPaths(env, key)
    ensures key !in env ==> EnvPaths(env, key) == []
  {
    var entries := NonEmpty(Split(GetEnv(env, key, ""), ':'));
    forall r | r in EnvPaths(env, key)
      ensures exists e :: e in Split(GetEnv(env, key, ""), ':') && e != "" && r == PathOf(e)
    {
      var i :| 0 <= i < |entries| && EnvPaths(env, key)[i] == r;
      assert entries[i] in entries;
    }
    forall e | e in Split(GetEnv(env, key, ""), ':') && e != ""
      ensures PathOf(e) in EnvPaths(env, key)
    {
      var i :| 0 <= i < |entries| && entries[i] == e;
      assert EnvPaths(env, key)[i] == PathOf(e);
    }
    if key !in env {
      assert Split("", ':') == [""];
    }
  }

  /** The order of the search roots: every local path comes before every
      `PYTHONPATH` root, which comes before every `PATH` root. */
  lemma SearchPathsOrder(localPaths: seq<Path>, env: map<string, string>)
    ensures var roots := SearchPaths(localPaths, env);
      var n, m := |localPaths|, |EnvPaths(env, "PYTHONPATH")|;
      && |roots| == n + m + |EnvPaths(env, "PATH")|
      && (forall i :: 0 <= i < n ==> roots[i] == localPaths[i])
      && (forall i :: 0 <= i < m ==> roots[n + i] == EnvPaths(env, "PYTHONPATH")[i])
      && (forall i :: 0 <= i < |EnvPaths(env, "PATH")| ==> roots[n + m + i] == EnvPaths(env, "PATH")[i])
  {
  }

  /** A resolved local module: `(file_path, is_package)`. */
  datatype ModuleRef = ModuleRef(file: Path, isPackage: bool)

  /** The last part of `root / p1 / ... / pn` is `pn`. */
  lemma JoinedName(root: Path, parts: seq<string>)
    requires ValidParts(parts)
    ensures Name(root + parts) == parts[|parts| - 1] != ""
  {
    var full := root + parts;
    assert full[|full| - 1] == parts[|parts| - 1];
    assert parts[|parts| - 1] != Root by {
      assert '/' !in parts[|parts| - 1];
      assert Root[0] == '/';
    }
  }

  /** `module_file = root/p1/.../pn.py`: the full dotted path with ".py" on its last part. */
  function ModuleFileOf(root: Path, parts: seq<string>): Path
    requires ValidParts(parts)
  {
    root + parts[..|parts| - 1] + [parts[|parts| - 1] + PySuffix]
  }

  /** That is `root.joinpath(*parts).with_suffix('.py')`: the last part has no dot,
      so `with_suffix` appends. */
  lemma ModuleFileIsWithSuffix(root: Path, parts: seq<string>)
    requires ValidParts(parts)
    ensures Name(root + parts) != ""
    ensures ModuleFileOf(root, parts) == WithSuffix(root + parts, PySuffix)
  {
    JoinedName(root, parts);
    WithSuffixAppends(root + parts, PySuffix);
    assert (root + parts)[..|root + parts| - 1] == root + parts[..|parts| - 1];
  }

  /** `init_file = root/p1/.../pn/__init__.py`. */
  function InitFileOf(root: Path, parts: seq<string>): Path {
    root + parts + [InitFile]
  }

  /** The two probes under one root (analyzer.py lines 63-72): the module file first, then the package. */
  function DirectProbe(fs: set<Path>, root: Path, parts: seq<string>): (r: Option<ModuleRef>)
    requires ValidParts(parts)
    ensures r.Some? ==> r.value.file in fs
  {
    if ModuleFileOf(root, parts) in fs then Some(ModuleRef(ModuleFileOf(root, parts), false))
    else if InitFileOf(root, parts) in fs then Some(ModuleRef(InitFileOf(root, parts), true))
    else None
  }

  /** The prefix loop (lines 75-86) from prefix length `i + 1` on: below the first prefix that
      holds an `__init__.py`, the remaining parts are probed as module file and package. */
  function PrefixProbe(fs: set<Path>, root: Path, parts: seq<string>, i: nat): (r: Option<ModuleRef>)
    requires ValidParts(parts)
    ensures r.Some? ==> r.value.file in fs
    decreases |parts| - i
  {
    if i >= |parts| then None
    else
      var partial := root + parts[..i + 1];
      if partial + [InitFile] in fs && i + 1 < |parts| then
        var submodule := partial + parts[i + 1..];
        JoinedName(partial, parts[i + 1..]);
        if WithSuffix(submodule, PySuffix) in fs then Some(ModuleRef(WithSuffix(submodule, PySuffix), false))
        else if submodule + [InitFile] in fs then Some(ModuleRef(submodule + [InitFile], true))
        else PrefixProbe(fs, root, parts, i + 1)
      else PrefixProbe(fs, root, parts, i + 1)
  }

  /** Everything `_find_module_file` tries under one root, in its order. */
  function ProbeRoot(fs: set<Path>, root: Path, parts: seq<string>): (r: Option<ModuleRef>)
    requires ValidParts(parts)
    ensures r.Some? ==> r.value.file in fs
  {
    match DirectProbe(fs, root, parts)
    case Some(found) => Some(found)
    case None => PrefixProbe(fs, root, parts, 0)
  }

  /** `_find_module_file`: the first root, in search order, under which a probe succeeds. */
  function FindModuleFile(fs: set<Path>, roots: seq<Path>, parts: seq<string>): (r: Option<ModuleRef>)
    requires ValidParts(parts)
    ensures r.Some? ==> r.value.file in fs
    ensures roots == [] ==> r.None?
  {
    if roots == [] then None
    else
      match ProbeRoot(fs, roots[0], parts)
      case Some(found) => Some(found)
      case None => FindModuleFile(fs, roots[1..], parts)
  }

  /** The prefix loop probes the same two files as the direct probes, since
      `partial.joinpath(*remaining)` is `root.joinpath(*parts)`: it never succeeds
      where they failed. */
  lemma {:induction false} PrefixProbeRedundant(fs: set<Path>, root: Path, parts: seq<string>, i: nat)
    requires ValidParts(parts)
    requires DirectProbe(fs, root, parts) == None
    ensures PrefixProbe(fs, root, parts, i) == None
    decreases |parts| - i
  {
    if i < |parts| {
      var partial := root + parts[..i + 1];
      if i + 1 < |parts| {
        var submodule := partial + parts[i + 1..];
        assert parts[..i + 1] + parts[i + 1..] == parts;
        assert submodule == root + parts;
        ModuleFileIsWithSuffix(root, parts);
      }
      PrefixProbeRedundant(fs, root, parts, i + 1);
    }
  }

  /** So the search under one root is exactly the two direct probes. */
  lemma ProbeRootIsDirect(fs: set<Path>, root: Path, parts: seq<string>)
    requires ValidParts(parts)
    ensures ProbeRoot(fs, root, parts) == DirectProbe(fs, root, parts)
  {
    if DirectProbe(fs, root, parts) == None {
      PrefixProbeRedundant(fs, root, parts, 0);
    }
  }

  /** Under one root, a hit is a file that exists; the module file is preferred
      over the package; `is_package` holds exactly for the `__init__.py` of the full path. */
  lemma DirectProbeFinds(fs: set<Path>, root: Path, parts: seq<string>)
    requires ValidParts(parts)
    ensures DirectProbe(fs, root, parts).Some? <==> ModuleFileOf(root, parts) in fs || InitFileOf(root, parts) in fs
    ensures ModuleFileOf(root, parts) in fs ==> DirectProbe(fs, root, parts) == Some(ModuleRef(ModuleFileOf(root, parts), false))
    ensures match DirectProbe(fs, root, parts)
      case Some(m) =>
        && m.file in fs
        && (m.isPackage <==> m.file == InitFileOf(root, parts))
        && (!m.isPackage ==> m.file == ModuleFileOf(root, parts))
      case None => true
  {
    assert |ModuleFileOf(root, parts)| != |InitFileOf(root, parts)|;
  }

  /** No root before index `k` yields a direct hit. */
  predicate MissesBefore(fs: set<Path>, roots: seq<Path>, parts: seq<string>, k: nat)
    requires ValidParts(parts) && k <= |roots|
  {
    forall j :: 0 <= j < k ==> DirectProbe(fs, roots[j], parts) == None
  }

  /** The index of the first root that yields a direct hit, or `|roots|` when none does. */
  function FirstHitIndex(fs: set<Path>, roots: seq<Path>, parts: seq<string>): (k: nat)
    requires ValidParts(parts)
    ensures k <= |roots| && MissesBefore(fs, roots, parts, k)
    ensures k < |roots| ==> DirectProbe(fs, roots[k], parts) != None
  {
    if roots == [] then 0
    else if DirectProbe(fs, roots[0], parts) != None then 0
    else
      var k := FirstHitIndex(fs, roots[1..], parts);
      assert MissesBefore(fs, roots, parts, 1 + k) by {
        forall j | 0 <= j < 1 + k ensures DirectProbe(fs, roots[j], parts) == None {
          if j > 0 {
            assert roots[j] == roots[1..][j - 1];
          }
        }
      }
      assert 1 + k < |roots| ==> roots[1 + k] == roots[1..][k];
      1 + k
  }

  /** The first root in search order that yields a hit decides the result, and
      the prefix loop changes nothing: the search equals the two direct probes
      tried root by root. No hit under any root gives `None`. */
  lemma {:induction false} FirstRootWins(fs: set<Path>, roots: seq<Path>, parts: seq<string>)
    requires ValidParts(parts)
    ensures var k := FirstHitIndex(fs, roots, parts);
      FindModuleFile(fs, roots, parts) == if k < |roots| then DirectProbe(fs, roots[k], parts) else None
    decreases |roots|
  {
    if roots != [] {
      ProbeRootIsDirect(fs, roots[0], parts);
      FirstRootWins(fs, roots[1..], parts);
    }
  }

  /** Where `_process_import` sends a dotted import name. */
  datatype ImportKind = Stdlib | Local(found: ModuleRef) | External(topLevel: string)

  /** What one `ImportAnalyzer` resolves against: the standard-library snapshot,
      the filesystem, and its search roots in order. */
  datatype Context = Context(stdlib: set<string>, fs: set<Path>, roots: seq<Path>)

  /** The decision of `_process_import` (lines 95-109). */
  function Classify(ctx: Context, name: string): (kind: ImportKind)
    requires ModuleName(name)
    ensures kind.Local? ==> kind.found.file in ctx.fs
    ensures kind.External? ==> kind.topLevel == TopLevel(name)
  {
    var parts := Split(name, '.');
    var topLevel := parts[0];
    if topLevel in ctx.stdlib then Stdlib
    else
      match FindModuleFile(ctx.fs, ctx.roots, parts)
      case Some(found) => Local(found)
      case None => External(topLevel)
  }

  /** A name that resolves locally resolves to a file that exists. */
  lemma LocalFileExists(ctx: Context, name: string)
    requires ModuleName(name)
    ensures Classify(ctx, name).Local? ==> Classify(ctx, name).found.file in ctx.fs
  {
    ClassifyCases(ctx, name);
  }

  /** A name is standard-library exactly when its top-level segment is in the snapshot;
      it is external exactly when, besides, no root holds its module file or package,
      and then only its top-level segment is named; a local name resolves to an existing
      file found by the first root, in search order, that holds one. */
  lemma ClassifyCases(ctx: Context, name: string)
    requires ModuleName(name)
    ensures Classify(ctx, name).Stdlib? <==> TopLevel(name) in ctx.stdlib
    ensures var parts := Split(name, '.');
      Classify(ctx, name).External? <==>
        TopLevel(name) !in ctx.stdlib && MissesBefore(ctx.fs, ctx.roots, parts, |ctx.roots|)
    ensures Classify(ctx, name).External? ==> Classify(ctx, name).topLevel == TopLevel(name)
    ensures var parts := Split(name, '.');
      var k := FirstHitIndex(ctx.fs, ctx.roots, parts);
      Classify(ctx, name).Local? ==>
        k < |ctx.roots| && Some(Classify(ctx, name).found) == DirectProbe(ctx.fs, ctx.roots[k], parts)
    ensures Classify(ctx, name).Local? ==> Classify(ctx, name).found.file in ctx.fs
  {
    var parts := Split(name, '.');
    FirstRootWins(ctx.fs, ctx.roots, parts);
    var k := FirstHitIndex(ctx.fs, ctx.roots, parts);
    if k < |ctx.roots| {
      DirectProbeFinds(ctx.fs, ctx.roots[k], parts);
    }
  }
}
