/** `ImportAnalyzer`: the AST visitor that classifies every import of one file and
    records its findings in three sets it updates in place. */
module Imports {
  import opened Wrappers
  import opened Text
  import opened PosixPaths
  import opened Resolver
  import opened Collections

  /** The import statements `ast` reports for a file, in visiting order. */
  datatype ImportNode =
    | Import(names: seq<string>)           // `import a.b, c`
    | ImportFrom(modulePath: Option<string>)   // `from a.b import x`; `from . import x` has no module

  /** The dotted names one statement hands to `_process_import`: every name of an
      `import`, the module of a `from` import when it is truthy, nothing otherwise. */
  function NodeNames(node: ImportNode): (names: seq<string>)
    ensures node.Import? ==> names == node.names
    ensures node.ImportFrom? ==> |names| <= 1
    ensures node.ImportFrom? ==>
      (names != [] <==> node.modulePath.Some? && node.modulePath.value != "")
    ensures node.ImportFrom? && names != [] ==> names[0] == node.modulePath.value
  {
    match node
    case Import(names) => names
    case ImportFrom(modulePath) => if modulePath.Some? && modulePath.value != "" then [modulePath.value] else []
  }

  /** The dotted names a whole file hands to `_process_import`, in order. */
  function NamesOf(nodes: seq<ImportNode>): seq<string> {
    if nodes == [] then [] else NamesOf(nodes[..|nodes| - 1]) + NodeNames(nodes[|nodes| - 1])
  }

  lemma {:induction false} NamesOfAppend(a: seq<ImportNode>, b: seq<ImportNode>)
    ensures NamesOf(a + b) == NamesOf(a) + NamesOf(b)
    decreases |b|
  {
    if b == [] {
      assert a + b == a;
    } else {
      var init, last := b[..|b| - 1], b[|b| - 1];
      assert (a + b)[..|a + b| - 1] == a + init && (a + b)[|a + b| - 1] == last;
      NamesOfAppend(a, init);
      AppendAssoc(NamesOf(a), NamesOf(init), NodeNames(last));
    }
  }

  /** Every name the parser reports is a dotted identifier path. */
  predicate WellFormed(nodes: seq<ImportNode>) {
    forall n :: n in NamesOf(nodes) ==> ModuleName(n)
  }

  /** The three sets an `ImportAnalyzer` fills. */
  datatype Findings = Findings(
    projectImports: set<string>,
    externalImports: set<string>,
    filesToProcess: set<(string, Path)>)
  {
    function Merge(other: Findings): Findings {
      Findings(projectImports + other.projectImports,
               externalImports + other.externalImports,
               filesToProcess + other.filesToProcess)
    }
  }

  lemma MergeAssociative(a: Findings, b: Findings, c: Findings)
    ensures a.Merge(b).Merge(c) == a.Merge(b.Merge(c))
  {
  }

  const NoFindings: Findings := Findings({}, {}, {})

  /** What `_process_import(name)` adds: nothing for a standard-library name,
      `name` and `(name, file)` for a local one, the top-level segment for an external one. */
  function FindingsOf(ctx: Context, name: string): (f: Findings)
    requires ModuleName(name)
    ensures f == NoFindings <==> Classify(ctx, name).Stdlib?
    ensures f.projectImports == {} || f.projectImports == {name}
    ensures forall p :: p in f.filesToProcess ==> p.0 == name && p.1 in ctx.fs
    ensures forall x :: x in f.externalImports ==> x == TopLevel(name)
  {
    match Classify(ctx, name)
    case Stdlib => NoFindings
    case Local(found) => Findings({name}, {}, {(name, found.file)})
    case External(topLevel) => Findings({}, {topLevel}, {})
  }

  /** With nothing on disk under any root, a dotted name that is not standard-library
      (`external_pkg.sub.thing`, say) records its first segment alone as external
      (`external_pkg`) and queues nothing. */
  lemma NothingOnDiskIsExternal(stdlib: set<string>, roots: seq<Path>, parts: seq<string>)
    requires ValidParts(parts) && parts[0] !in stdlib
    ensures ModuleName(Join(parts, '.'))
    ensures FindingsOf(Context(stdlib, {}, roots), Join(parts, '.')) == Findings({}, {parts[0]}, {})
  {
    SplitJoin(parts, '.');
    ClassifyCases(Context(stdlib, {}, roots), Join(parts, '.'));
  }

  /** What processing `names` in order adds. */
  function Discover(ctx: Context, names: seq<string>): Findings
    requires ModuleNames(names)
  {
    if names == [] then NoFindings
    else Discover(ctx, names[..|names| - 1]).Merge(FindingsOf(ctx, names[|names| - 1]))
  }

  lemma {:induction false} DiscoverAppend(ctx: Context, a: seq<string>, b: seq<string>)
    requires ModuleNames(a) && ModuleNames(b)
    ensures ModuleNames(a + b)
    ensures Discover(ctx, a + b) == Discover(ctx, a).Merge(Discover(ctx, b))
    decreases |b|
  {
    if b == [] {
      assert a + b == a;
    } else {
      var init := b[..|b| - 1];
      assert (a + b)[..|a + b| - 1] == a + init;
      DiscoverAppend(ctx, a, init);
      MergeAssociative(Discover(ctx, a), Discover(ctx, init), FindingsOf(ctx, b[|b| - 1]));
    }
  }

  /** Processing one more name of a list adds the findings of that name. */
  lemma DiscoverSnoc(ctx: Context, names: seq<string>, i: nat)
    requires ModuleNames(names) && i < |names|
    ensures ModuleNames(names[..i]) && ModuleNames(names[..i + 1]) && ModuleName(names[i])
    ensures Discover(ctx, names[..i + 1]) == Discover(ctx, names[..i]).Merge(FindingsOf(ctx, names[i]))
  {
    assert names[..i + 1][..i] == names[..i];
  }

  /** The findings of a list of names, element by element: the external names are
      exactly the top-level segments of the names that classify as external; the
      project imports exactly the names that resolve locally; the queued pairs exactly
      each local name with its resolved file, which exists. */
  lemma {:induction false} DiscoverSpec(ctx: Context, names: seq<string>)
    requires ModuleNames(names)
    ensures forall x :: x in Discover(ctx, names).externalImports <==>
      exists n :: n in names && Classify(ctx, n) == External(x)
    ensures forall n :: n in Discover(ctx, names).projectImports <==>
      n in names && Classify(ctx, n).Local?
    ensures forall p :: p in Discover(ctx, names).filesToProcess <==>
      p.0 in names && Classify(ctx, p.0).Local? && Classify(ctx, p.0).found.file == p.1
    ensures forall p :: p in Discover(ctx, names).filesToProcess ==> p.1 in ctx.fs
    decreases |names|
  {
    if names != [] {
      var init, last := names[..|names| - 1], names[|names| - 1];
      assert names == init + [last];
      DiscoverSpec(ctx, init);
      LocalFileExists(ctx, last);
      forall x ensures x in Discover(ctx, names).externalImports <==>
        exists n :: n in names && Classify(ctx, n) == External(x)
      {
        if x in Discover(ctx, init).externalImports {
          var n :| n in init && Classify(ctx, n) == External(x);
          assert n in names;
        }
        if exists n :: n in names && Classify(ctx, n) == External(x) {
          var n :| n in names && Classify(ctx, n) == External(x);
          if n != last {
            assert n in init;
          }
        }
      }
    }
  }

  /** Visiting statement `i` after the first `i` adds the findings of its names. */
  lemma DiscoverStatement(ctx: Context, nodes: seq<ImportNode>, i: nat)
    requires WellFormed(nodes) && i < |nodes|
    ensures WellFormed(nodes[..i]) && WellFormed(nodes[..i + 1])
    ensures ModuleNames(NodeNames(nodes[i]))
    ensures Discover(ctx, NamesOf(nodes[..i + 1])) ==
      Discover(ctx, NamesOf(nodes[..i])).Merge(Discover(ctx, NodeNames(nodes[i])))
  {
    var before, names := NamesOf(nodes[..i]), NodeNames(nodes[i]);
    NamesOfAppend(nodes[..i + 1], nodes[i + 1..]);
    assert nodes[..i + 1] + nodes[i + 1..] == nodes;
    assert nodes[..i + 1][..i] == nodes[..i];
    assert NamesOf(nodes[..i + 1]) == before + names;
    assert forall k :: 0 <= k < |names| ==> names[k] in NamesOf(nodes);
    assert forall k :: 0 <= k < |before| ==> before[k] in NamesOf(nodes);
    DiscoverAppend(ctx, before, names);
  }

  /** A visitor over one file's syntax tree, as `ImportAnalyzer(local_paths)` builds it:
      the findings start empty; the standard-library snapshot, the environment and
      the filesystem are fixed for its whole life. */
  class ImportAnalyzer {
    var projectImports: set<string>
    var externalImports: set<string>
    var filesToProcess: set<(string, Path)>
    const stdlibModules: set<string>
    const localPaths: seq<Path>
    const env: map<string, string>
    const fs: set<Path>

    constructor (localPaths: seq<Path>, stdlibModules: set<string>, env: map<string, string>, fs: set<Path>)
      ensures this.localPaths == localPaths && this.stdlibModules == stdlibModules
      ensures this.env == env && this.fs == fs
      ensures Current() == NoFindings
    {
      this.projectImports := {};
      this.externalImports := {};
      this.filesToProcess := {};
      this.stdlibModules := stdlibModules;
      this.localPaths := localPaths;
      this.env := env;
      this.fs := fs;
    }

    /** What this visitor resolves against; the roots are those of `_find_module_file`. */
    function Resolution(): Context {
      Context(stdlibModules, fs, SearchPaths(localPaths, env))
    }

    /** The visitor's three sets. */
    function Current(): Findings
      reads this
    {
      Findings(projectImports, externalImports, filesToProcess)
    }

    /** `_process_import`: a standard-library name changes nothing; a name that resolves
        adds itself to the project imports and `(name, file)` to the queue; any other
        name adds only its top-level segment to the external imports. */
    method ProcessImport(importName: string)
      requires ModuleName(importName)
      modifies this
      ensures Current() == old(Current()).Merge(FindingsOf(Resolution(), importName))
    {
      var parts := Split(importName, '.');
      var topLevel := parts[0];
      if topLevel in stdlibModules {
        return;
      }
      var found := FindModuleFile(fs, SearchPaths(localPaths, env), parts);
      if found.Some? {
        projectImports := projectImports + {importName};
        filesToProcess := filesToProcess + {(importName, found.value.file)};
      } else {
        externalImports := externalImports + {topLevel};
      }
    }

    /** `visit_Import`: each name of `import a, b` in turn. */
    method VisitImport(names: seq<string>)
      requires ModuleNames(names)
      modifies this
      ensures Current() == old(Current()).Merge(Discover(Resolution(), names))
    {
      ghost var start, ctx := Current(), Resolution();
      for i := 0 to |names|
        invariant ModuleNames(names[..i])
        invariant Current() == start.Merge(Discover(ctx, names[..i]))
      {
        DiscoverSnoc(ctx, names, i);
        ProcessImport(names[i]);
        MergeAssociative(start, Discover(ctx, names[..i]), FindingsOf(ctx, names[i]));
      }
      assert names[..|names|] == names;
    }

    /** `visit_ImportFrom`: the module of `from X import y`, skipped when it is `None` or empty. */
    method VisitImportFrom(modulePath: Option<string>)
      requires modulePath.Some? && modulePath.value != "" ==> ModuleName(modulePath.value)
      modifies this
      ensures Current() == old(Current()).Merge(Discover(Resolution(), NodeNames(ImportFrom(modulePath))))
    {
      if modulePath.Some? && modulePath.value != "" {
        ProcessImport(modulePath.value);
        assert [modulePath.value][..0] == [];
      }
    }

    /** `visit(tree)`: every import statement of the file, in visiting order. */
    method Visit(nodes: seq<ImportNode>)
      requires WellFormed(nodes)
      modifies this
      ensures Current() == old(Current()).Merge(Discover(Resolution(), NamesOf(nodes)))
    {
      ghost var start, ctx := Current(), Resolution();
      for i := 0 to |nodes|
        invariant WellFormed(nodes[..i])
        invariant Current() == start.Merge(Discover(ctx, NamesOf(nodes[..i])))
      {
        DiscoverStatement(ctx, nodes, i);
        ghost var before := Current();
        match nodes[i] {
          case Import(importNames) =>
            VisitImport(importNames);
          case ImportFrom(modulePath) =>
            VisitImportFrom(modulePath);
        }
        ghost var added := Discover(ctx, NodeNames(nodes[i]));
        assert Current() == before.Merge(added);
        MergeAssociative(start, Discover(ctx, NamesOf(nodes[..i])), added);
      }
      assert nodes[..|nodes|] == nodes;
    }
  }
}
