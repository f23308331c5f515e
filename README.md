# mono-deps-analyzer in Dafny

A model of the analysis engine of mono-deps-analyzer, the tool that walks a Python
project from its entry points, follows every import that resolves to a local file,
collects the top-level names of the imports that do not, and writes them with their
installed versions to a `requirements.txt`. The engine is `src/monodeps/analyzer.py`;
`src/monodpes/analyzer.py` is a byte-identical copy, so the one model serves both and
the table below cites either.

Modules, following the source:

- `Imports` — the `ImportAnalyzer` visitor, a class whose three sets
  (`projectImports`, `externalImports`, `filesToProcess`) its methods update in place;
  the import statements a file yields, and `Discover`, the findings of a run of names.
- `Resolver` — `_find_module_file` as a pure search over the roots (the two direct
  probes, then the package-prefix loop), the search roots built from the local paths,
  `PYTHONPATH` and `PATH`, and the three-way classification of `_process_import`.
- `Traversal` — the `DependencyAnalyzer` class: its constructor, `analyze_file`, the
  work-set loop of `analyze_project` (proved against reachability from the entry
  points), `generate_requirements` and `write_requirements`.
- `Requirements` — binding names to versions, Python's `sorted` on names, and the
  text lines of the requirements file.
- `PosixPaths`, `Text`, `Collections`, `Wrappers` — `pathlib` paths on POSIX as
  sequences of parts, `str.split`/`replace`/`rfind` and the `str` order, a listing of a
  set in some order, and `Option`.

The outside world is passed in: the filesystem is the set of paths that `exists()`
reports, the environment is a map, reading and parsing a file is a function returning
the file's import statements or `None` when reading or parsing raises, and the
installed-version registry is a function returning a version or `None`.

## Model

| member | source | states |
|---|---|---|
| Text.Split | src/monodeps/analyzer.py:95 | `str.split(sep)` yields at least one piece and no piece holds the separator |
| Text.JoinSplit | src/monodeps/analyzer.py:95 | joining the pieces of a split with the separator gives the string back |
| Text.SplitJoin | src/monodeps/analyzer.py:95 | splitting a join of separator-free pieces gives the pieces back |
| Text.TopLevel | src/monodeps/analyzer.py:95-96 | `parts[0]` is the longest dot-free prefix of the import name |
| Text.NonEmpty | src/monodeps/analyzer.py:56-57 | `filter(None, …)` keeps exactly the non-empty pieces, never more than it was given |
| Text.NonEmptyAppend | src/monodeps/analyzer.py:56-57 | filtering keeps order and repeats: the non-empty pieces of two runs are those of the first run followed by those of the second |
| Text.Replace | src/monodeps/analyzer.py:153 | `replace(os.sep, '.')` keeps the length and changes exactly the positions holding the separator |
| Text.LastIndexOf | src/monodeps/analyzer.py:65 | the `rfind('.')` behind `with_suffix`: the last index of the character, -1 exactly when it is absent |
| Text.LessIrreflexive | src/monodeps/analyzer.py:193 | no string sorts before itself |
| Text.LessTransitive | src/monodeps/analyzer.py:193 | the `str` order that `sorted` uses is transitive |
| Text.LessTotal | src/monodeps/analyzer.py:193 | any two different strings are ordered one way round |
| Text.LessAsymmetric | src/monodeps/analyzer.py:193 | no two strings sort before each other |
| PosixPaths.Parts | src/monodeps/analyzer.py:61 | `Path(s)` keeps exactly the pieces that are neither empty nor "." |
| PosixPaths.PartsAppend | src/monodeps/analyzer.py:61 | parsing keeps order and repeats: the parts of two runs of pieces are those of the first run followed by those of the second |
| PosixPaths.PartsKeepsNormalPieces | src/monodeps/analyzer.py:61 | pieces that are all kept come through unchanged and in order |
| PosixPaths.PathOf | src/monodeps/analyzer.py:115 | `Path(s)` is a normal path: no empty or "." part, "/" only as the leading root |
| PosixPaths.PathOfStr | src/monodeps/analyzer.py:123 | `Path(str(p)) == p` for every normal path, so storing `str(entry_point.parent)` loses nothing |
| PosixPaths.Str | src/monodeps/analyzer.py:123 | `str(p)` of a normal path is never empty and starts with '/' exactly when the path is absolute (`PathOfStr` shows it parses back to the same path) |
| PosixPaths.Name | src/monodeps/analyzer.py:152 | `.name` is the last part of any path other than the current directory and the root; for a normal path it is empty exactly for the current directory and the root, and is never "." and never holds a '/' |
| PosixPaths.Parent | src/monodeps/analyzer.py:123 | `.parent` drops the last part, except that the current directory and the root are their own parents; the parent of a normal path is normal |
| PosixPaths.Suffix | src/monodeps/analyzer.py:65 | `.suffix` is a tail of the name that starts with its last dot, is shorter than the name, and is empty for a dot-free name; it is non-empty exactly when the name does not end in a dot and has a dot after its first character |
| PosixPaths.Stem | src/monodeps/analyzer.py:153 | stem followed by suffix is the name, and a non-empty name has a non-empty stem |
| PosixPaths.WithSuffix | src/monodeps/analyzer.py:65 | `with_suffix` keeps every part but the last, which becomes its stem plus the new suffix |
| PosixPaths.WithSuffixAppends | src/monodeps/analyzer.py:81 | for a dot-free last part, `with_suffix('.py')` appends ".py" to it |
| Resolver.EnvPaths | src/monodeps/analyzer.py:56-57 | an environment variable gives one root per non-empty `os.pathsep` piece of its value, in order with repeats, each made a `Path`; never more roots than pieces |
| Resolver.EnvPathsEntries | src/monodeps/analyzer.py:56-57 | its roots are exactly the paths of the non-empty pieces of the variable's value; an unset variable gives none |
| Resolver.SearchPaths | src/monodeps/analyzer.py:54-58 | the search roots number the local paths plus the roots of `PYTHONPATH` and of `PATH`, and start with the local paths (`SearchPathsOrder` places the rest index by index) |
| Resolver.DirectProbe | src/monodeps/analyzer.py:62-72 | a direct probe under one root only returns a file that exists (`DirectProbeFinds` states which file and when) |
| Resolver.PrefixProbe | src/monodeps/analyzer.py:74-86 | the prefix loop only returns a file that exists (`PrefixProbeRedundant` shows it finds nothing the direct probes missed) |
| Resolver.ProbeRoot | src/monodeps/analyzer.py:60-86 | everything tried under one root only returns a file that exists (`ProbeRootIsDirect` reduces it to the direct probes) |
| Resolver.FindModuleFile | src/monodeps/analyzer.py:49-88 | `_find_module_file` only returns a file that exists, and `None` when there is no root to search (`FirstRootWins` gives the winning root) |
| Resolver.SearchPathsOrder | src/monodpes/analyzer.py:54-58 | the search roots are the local paths, then the `PYTHONPATH` roots, then the `PATH` roots, each group in its own order |
| Resolver.JoinedName | src/monodeps/analyzer.py:64 | the last part of `root.joinpath(*parts)` is the last import part, which is not empty |
| Resolver.ModuleFileIsWithSuffix | src/monodeps/analyzer.py:64-65 | the module file probed is `root/p1/…/pn.py`: `with_suffix('.py')` of the full module path |
| Resolver.PrefixProbeRedundant | src/monodeps/analyzer.py:74-86 | when both direct probes fail, the prefix loop fails too: it probes the same two files |
| Resolver.ProbeRootIsDirect | src/monodeps/analyzer.py:60-86 | everything tried under one root amounts to the two direct probes |
| Resolver.DirectProbeFinds | src/monodeps/analyzer.py:63-72 | under a root there is a hit exactly when the module file or the package `__init__.py` exists; the module file wins; a hit exists, and `is_package` holds exactly for the `__init__.py` of the full path |
| Resolver.FirstHitIndex | src/monodeps/analyzer.py:60-72 | the index of the first root with a hit: every root before it misses, and it hits when it is a root |
| Resolver.FirstRootWins | src/monodeps/analyzer.py:60-88 | `_find_module_file` returns the direct probe of the first root with a hit, or `None` when no root has one |
| Resolver.Classify | src/monodeps/analyzer.py:90-109 | a local name resolves to an existing file and an external name is named by its top-level segment (`ClassifyCases` gives each case as an if-and-only-if) |
| Resolver.ClassifyCases | src/monodeps/analyzer.py:95-109 | a name is standard-library exactly when its top level is in the snapshot; external exactly when it is not and no root holds it, and then only the top level is named; otherwise it resolves to an existing file from the first root with a hit |
| Imports.NamesOfAppend | src/monodeps/analyzer.py:39-47 | the names of two runs of statements are the names of the first followed by those of the second |
| Imports.NothingOnDiskIsExternal | src/monodeps/analyzer.py:95-109 | with nothing on disk, a non-standard-library name such as `external_pkg.sub.thing` adds only `external_pkg` to the external imports and queues nothing |
| Imports.NodeNames | src/monodeps/analyzer.py:39-47 | `import a, b` hands on all its names; `from X import y` hands on at most one, `X` itself, exactly when `X` is truthy |
| Imports.FindingsOf | src/monodeps/analyzer.py:90-109 | one name finds nothing exactly when it is standard-library; otherwise it adds at most itself as a project import, queues only itself with an existing file, and names only its top-level segment as external |
| Imports.DiscoverAppend | src/monodeps/analyzer.py:41-42 | processing two runs of names in turn finds what each finds, merged |
| Imports.DiscoverSpec | src/monodeps/analyzer.py:90-109 | after processing names, the external imports are exactly the top levels of the names classified external, the project imports exactly the names resolved locally, and the queue exactly each local name with its file, which exists |
| Imports.DiscoverStatement | src/monodeps/analyzer.py:39-47 | visiting one more statement adds the findings of its names |
| Imports.ImportAnalyzer.constructor | src/monodeps/analyzer.py:14-19 | a new visitor starts with three empty sets and keeps its local paths |
| Imports.ImportAnalyzer.ProcessImport | src/monodeps/analyzer.py:90-109 | `_process_import` adds to the visitor's sets exactly the findings its classification gives: nothing, or the name and `(name, file)`, or the top-level segment |
| Imports.ImportAnalyzer.VisitImport | src/monodeps/analyzer.py:39-42 | `import a, b` processes each name in turn |
| Imports.ImportAnalyzer.VisitImportFrom | src/monodeps/analyzer.py:44-47 | `from X import y` processes `X`; a missing or empty module is skipped |
| Imports.ImportAnalyzer.Visit | src/monodeps/analyzer.py:136 | visiting a file's tree adds the findings of all its import names, in order |
| Requirements.Bind | src/monodeps/analyzer.py:178-186 | the requirements only name collected dependencies (`BindKeepsInstalled` states which ones and their versions) |
| Requirements.BindKeepsInstalled | src/monodeps/analyzer.py:178-186 | the bound names are exactly the dependencies whose lookup gives a non-empty version, each mapped to that version |
| Requirements.LessEqTransitive | src/monodeps/analyzer.py:193 | `<=` on names is transitive |
| Requirements.Insert | src/monodeps/analyzer.py:193 | inserting into an ascending list keeps it ascending and adds exactly the one name |
| Requirements.Sort | src/monodeps/analyzer.py:193 | `sorted` gives an ascending permutation of its input |
| Requirements.AscendingUnique | src/monodeps/analyzer.py:193 | two ascending lists with the same elements are equal |
| Requirements.SortOrderIndependent | src/monodeps/analyzer.py:193 | sorting any two orderings of the same names gives the same list |
| Requirements.AscendingListing | src/monodeps/analyzer.py:193 | an ascending listing of a set of keys is strictly ascending and lists each key once |
| Requirements.ListingExists | src/monodeps/analyzer.py:193 | every finite set of keys can be listed |
| Requirements.SortedKeys | src/monodeps/analyzer.py:193 | the keys in strictly ascending order, each once |
| Requirements.SortListingIsSortedKeys | src/monodeps/analyzer.py:193 | sorting the keys as a dict happens to list them gives the strictly ascending keys, whatever that listing order |
| Requirements.Lines | src/monodeps/analyzer.py:193-197 | one line per name, the i-th `name==version`, or the bare name when the version is empty |
| Requirements.EmitPinned | src/monodeps/analyzer.py:173-197 | for what `generate_requirements` returns, there is one line per installed dependency, in strictly ascending order, each `name==version`: the bare-name branch is never taken |
| Traversal.Successors | src/monodeps/analyzer.py:138 | every file a file queues exists |
| Traversal.Reach | src/monodeps/analyzer.py:156-164 | the files reachable in k steps hold the entry points and otherwise only existing files |
| Traversal.Reachable | src/monodeps/analyzer.py:156-164 | the reachable files are entry points or existing files |
| Traversal.ReachableClosed | src/monodeps/analyzer.py:150-164 | the entry points are reachable, and what a reachable existing file queues is reachable |
| Traversal.ReachWithin | src/monodeps/analyzer.py:156-164 | a set holding the entry points and closed under queueing holds every file reachable in k steps |
| Traversal.ReachableLeast | src/monodeps/analyzer.py:156-164 | the reachable files are the least such set: the fixpoint of the walk |
| Traversal.WalkSkip | src/monodeps/analyzer.py:157-159 | popping an already processed file keeps the walk's invariant |
| Traversal.WalkVisit | src/monodeps/analyzer.py:161-164 | marking a new file processed and queueing what it imports, when it exists, keeps the walk's invariant |
| Traversal.WalkStart | src/monodeps/analyzer.py:150-154 | with the entry points queued and nothing processed yet, the walk's state holds |
| Traversal.WalkDone | src/monodeps/analyzer.py:156-164 | with the queue empty, the files processed are reachable, hold the entry points and are closed under queueing, and from nothing processed they are exactly the reachable files |
| Traversal.WalkSkipStep | src/monodeps/analyzer.py:157-159 | skipping a processed file keeps the whole state: invariant, collected names and log |
| Traversal.WalkVisitStep | src/monodeps/analyzer.py:160-164 | visiting a new file keeps the whole state, and the file is within the finite universe of entry points and existing files |
| Traversal.LabelIsStem | src/monodeps/analyzer.py:152-153 | for a file name, `str(Path(name).with_suffix('')).replace(os.sep, '.')` is the name's stem, non-empty and without a separator |
| Traversal.StrOfName | src/monodeps/analyzer.py:152 | the path of a bare file name prints as that name |
| Traversal.EntryLabel | src/monodeps/analyzer.py:152-153 | an entry point's label is the stem of its file name |
| Traversal.EntryItemsFiles | src/monodeps/analyzer.py:150-154 | the files first queued are exactly the entry points |
| Traversal.EntryItemsLabels | src/monodeps/analyzer.py:150-154 | each entry point is queued under the stem of its file name |
| Traversal.DependencyAnalyzer.constructor | src/monodpes/analyzer.py:114-124 | the local paths are the parents of the entry points together with the additional paths; nothing is processed or collected yet |
| Traversal.DependencyAnalyzer.AnalyzeFile | src/monodeps/analyzer.py:126-142 | the file's external names join the project's, and the pairs it queues, all of existing files, are returned; a file that does not read or parse returns nothing and changes nothing |
| Traversal.EntryWork | src/monodeps/analyzer.py:150-154 | the initial work set holds each entry point once per file, under the stem of its name |
| Traversal.DependencyAnalyzer.AnalyzeProject | src/monodeps/analyzer.py:144-164 | the processed set only grows and ends holding every entry point, closed under queueing and within the reachable files, exactly the reachable files when it starts empty; the external names are those of the processed files that exist; each file goes to `analyze_file` at most once, exactly the existing newly processed ones |
| Traversal.DependencyAnalyzer.Drain | src/monodeps/analyzer.py:156-164 | the loop keeps the walk invariant and stops only when the work set is empty, having appended to the analysis log exactly the files it analyzed |
| Traversal.DependencyAnalyzer.ProcessItem | src/monodeps/analyzer.py:157-164 | one pop removes the item and keeps the walk invariant; a file processed already changes nothing else; a new file joins the processed set, and only when it exists is it analyzed once, its external names added and its queued pairs added to the work set; a missing file queues nothing and adds no names |
| Traversal.DependencyAnalyzer.GenerateRequirements | src/monodeps/analyzer.py:173-186 | the requirements map exactly the dependencies with a truthy installed version to that version |
| Traversal.DependencyAnalyzer.WriteRequirements | src/monodeps/analyzer.py:188-197 | the lines written are those of the bound requirements in strictly ascending name order, whatever order the names were found in |
| Traversal.SortedNames | src/monodeps/analyzer.py:193 | `sorted` over the requirement keys gives each key once, strictly ascending, independent of the dict's order |
| Traversal.FormatLines | src/monodeps/analyzer.py:193-197 | one line per name in the given order: `name==version`, or the bare name when the version is empty |
| Traversal.CollectLocalPaths | src/monodeps/analyzer.py:121-124 | the local paths are exactly the parents of the entry points together with the additional paths |
| Collections.Enumerate | src/monodeps/analyzer.py:135 | `list(self.local_paths)` lists each local path exactly once, in some order |

## Left out

- `parse_args`, `main` and the `cli.py` modules: argument parsing, printing and exit codes around the engine.
- `_get_stdlib_modules` (`sysconfig`, `rglob`, `sys.builtin_module_names`): the standard-library names are a parameter, the same set for every file of a run.
- Reading and parsing a file (`open`, `ast.parse`): a parameter that yields a file's import statements in visiting order, or `None` when reading or parsing raises. Only that failure is modelled in `analyze_file`; an exception raised while resolving (a failing `exists()`, say) is not.
- `Traversal.ParserWellFormed`: the parser is taken to give identifier-dotted names only, as `ast` does; `Imports.ImportAnalyzer.ProcessImport` requires such a name, and other strings are not modelled.
- The `level` of `from . import x` is ignored, as the source ignores it: only the module is looked at.
- `get_installed_version` (`importlib.metadata`): a parameter returning a version or `None`.
- `os.getenv`: the environment is a map; `os.pathsep` is ':' and `os.sep` is '/', as on POSIX.
- `Traversal.DependencyAnalyzer.WriteRequirements`: returns the lines instead of writing them, each followed by a newline, to the output file.
- Warnings and errors printed to stderr.
- The ignore-paths option, which is accepted and printed but changes nothing.
- `pathlib` beyond POSIX parsing: the special leading "//", symlinks and the working directory are not modelled; a path is its sequence of parts.
- `Traversal.DependencyAnalyzer.constructor`: the local paths are kept as `Path` values, not strings, so two spellings of one directory ("src" and "src/") are one root rather than two; the search finds the same file either way, since a repeated root repeats the same probes.
- The iteration order of `list(self.local_paths)` is some fixed order of the set, chosen once; the order in which `set.pop` takes work items is left open.
- `Traversal.DependencyAnalyzer.AnalyzeProject`: requires every entry point to have a non-empty file name; for "." or "/" the source raises `ValueError` from `with_suffix('')`, which is not modelled.
- The `is_package` flag is computed but used by no caller; it is modelled and its meaning proved, nothing more.
- The API that the repository's tests exercise (`mono_deps_analyzer`, `AnalysisResult`, `analyze_project(entry_points)` returning a result) does not exist in the analyzer and is not modelled.

Two places where the code does less than its own shape suggests:

- A dependency with no installed version is dropped from the requirements with a warning (src/monodeps/analyzer.py:181-185), yet `write_requirements` (lines 196-197) and the verbose report (line 250) both keep a branch for an entry with an empty or unknown version. That branch is dead: `Requirements.EmitPinned` shows every emitted line is pinned.
- The package-prefix loop of `_find_module_file` (lines 74-86) reads as a third way to resolve a name, but it probes the same two files as the direct probes, so it never finds one they missed (`Resolver.PrefixProbeRedundant`).
