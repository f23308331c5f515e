/** `DependencyAnalyzer`: the fixpoint walk over local files from the entry points,
    the per-file analysis with its failure isolation, and the requirements it emits. */
module Traversal {
  import opened Wrappers
  import opened Text
  import opened PosixPaths
  import opened Resolver
  import opened Imports
  import opened Collections
  import opened Requirements

  /** Reading and parsing one file (`open` + `ast.parse`): its import statements, or
      `None` when reading or parsing raises. */
  type Parser = Path -> Option<seq<ImportNode>>

  /** The parser reports dotted identifier paths only, as `ast` does. */
  ghost predicate ParserWellFormed(parse: Parser) {
    forall f :: parse(f).Some? ==> WellFormed(parse(f).value)
  }

  /** What one run resolves against, and how it reads files. */
  datatype Run = Run(ctx: Context, parse: Parser)

  /** What `analyze_file(f)` finds: the findings of a fresh `ImportAnalyzer` over the
      file's imports, or nothing at all when the file does not parse. */
  function FileFindings(run: Run, f: Path): Findings
    requires ParserWellFormed(run.parse)
  {
    match run.parse(f)
    case None => NoFindings
    case Some(nodes) =>
      assert forall i :: 0 <= i < |NamesOf(nodes)| ==> NamesOf(nodes)[i] in NamesOf(nodes);
      Discover(run.ctx, NamesOf(nodes))
  }

  /** The local files `f` queues; every one of them exists. */
  function Successors(run: Run, f: Path): (files: set<Path>)
    requires ParserWellFormed(run.parse)
    ensures files <= run.ctx.fs
  {
    match run.parse(f)
    case None => {}
    case Some(nodes) =>
      assert forall i :: 0 <= i < |NamesOf(nodes)| ==> NamesOf(nodes)[i] in NamesOf(nodes);
      DiscoverSpec(run.ctx, NamesOf(nodes));
      set p | p in FileFindings(run, f).filesToProcess :: p.1
  }

  /** The files the existing files of `files` queue. */
  ghost function Step(run: Run, files: set<Path>): (next: set<Path>)
    requires ParserWellFormed(run.parse)
    ensures next <= run.ctx.fs
  {
    set f, g | f in files && f in run.ctx.fs && g in Successors(run, f) :: g
  }

  /** A set closed under queueing holds every step taken from inside it. */
  lemma StepWithin(run: Run, before: set<Path>, files: set<Path>)
    requires ParserWellFormed(run.parse)
    requires before <= files && Closed(run, files, files)
    ensures Step(run, before) <= files
  {
    forall g | g in Step(run, before) ensures g in files {
      var f :| f in before && f in run.ctx.fs && g in Successors(run, f);
    }
  }

  /** The files reachable from `entries` in at most `k` steps of existing files queueing files. */
  ghost function Reach(run: Run, entries: set<Path>, k: nat): (files: set<Path>)
    requires ParserWellFormed(run.parse)
    ensures entries <= files <= entries + run.ctx.fs
  {
    if k == 0 then entries
    else
      var before := Reach(run, entries, k - 1);
      before + Step(run, before)
  }

  /** Every file reachable from the entry points through local imports. */
  ghost function Reachable(run: Run, entries: set<Path>): (files: set<Path>)
    requires ParserWellFormed(run.parse)
    ensures files <= entries + run.ctx.fs
  {
    set f | f in entries + run.ctx.fs && exists k: nat :: f in Reach(run, entries, k)
  }

  /** Every existing file of `from` queues only files in `within`. */
  ghost predicate Closed(run: Run, from: set<Path>, within: set<Path>)
    requires ParserWellFormed(run.parse)
  {
    forall f :: f in from && f in run.ctx.fs ==> Successors(run, f) <= within
  }

  /** The entry points are reachable, and what a reachable existing file queues is reachable. */
  lemma ReachableClosed(run: Run, entries: set<Path>)
    requires ParserWellFormed(run.parse)
    ensures entries <= Reachable(run, entries)
    ensures Closed(run, Reachable(run, entries), Reachable(run, entries))
  {
    forall e | e in entries ensures e in Reachable(run, entries) {
      assert e in Reach(run, entries, 0);
    }
    forall f | f in Reachable(run, entries) && f in run.ctx.fs
      ensures Successors(run, f) <= Reachable(run, entries)
    {
      var k: nat :| f in Reach(run, entries, k);
      forall g | g in Successors(run, f) ensures g in Reachable(run, entries) {
        assert g in Step(run, Reach(run, entries, k));
        assert g in Reach(run, entries, k + 1);
      }
    }
  }

  lemma {:induction false} ReachWithin(run: Run, entries: set<Path>, files: set<Path>, k: nat)
    requires ParserWellFormed(run.parse)
    requires entries <= files && Closed(run, files, files)
    ensures Reach(run, entries, k) <= files
  {
    if k > 0 {
      ReachWithin(run, entries, files, k - 1);
      StepWithin(run, Reach(run, entries, k - 1), files);
    }
  }

  /** The reachable files are the least set that holds the entry points and is closed
      under queueing: the fixpoint the traversal computes. */
  lemma ReachableLeast(run: Run, entries: set<Path>, files: set<Path>)
    requires ParserWellFormed(run.parse)
    requires entries <= files && Closed(run, files, files)
    ensures Reachable(run, entries) <= files
  {
    forall f | f in Reachable(run, entries) ensures f in files {
      var k: nat :| f in Reach(run, entries, k);
      ReachWithin(run, entries, files, k);
    }
  }

  /** The external names found in the existing files of `files` that parse. */
  function ExternalsOfFiles(run: Run, files: set<Path>): set<string>
    requires ParserWellFormed(run.parse)
  {
    set f, x | f in files && f in run.ctx.fs && x in FileFindings(run, f).externalImports :: x
  }

  lemma ExternalsOfFilesAdd(run: Run, files: set<Path>, f: Path)
    requires ParserWellFormed(run.parse)
    ensures f !in run.ctx.fs ==> ExternalsOfFiles(run, files + {f}) == ExternalsOfFiles(run, files)
    ensures f in run.ctx.fs ==>
      ExternalsOfFiles(run, files + {f}) == ExternalsOfFiles(run, files) + FileFindings(run, f).externalImports
  {
  }

  /** The files of a set of queued `(label, file)` pairs. */
  function QueuedFiles(work: set<(string, Path)>): set<Path> {
    set p | p in work :: p.1
  }

  lemma QueuedFilesUnion(a: set<(string, Path)>, b: set<(string, Path)>)
    ensures QueuedFiles(a + b) == QueuedFiles(a) + QueuedFiles(b)
  {
  }

  lemma QueuedFilesRemove(work: set<(string, Path)>, item: (string, Path))
    requires item in work
    ensures QueuedFiles(work) - {item.1} <= QueuedFiles(work - {item}) <= QueuedFiles(work)
    ensures item.1 in QueuedFiles(work)
  {
  }

  /** The state of the walk from `entries`, started with `start` already processed:
      everything processed or queued since is reachable, every entry point is
      processed or queued, and what a newly processed file queues is processed or queued. */
  ghost predicate WalkInv(run: Run, entries: set<Path>, start: set<Path>, processed: set<Path>, queued: set<Path>)
    requires ParserWellFormed(run.parse)
  {
    && start <= processed
    && queued <= Reachable(run, entries)
    && processed - start <= Reachable(run, entries)
    && entries <= processed + queued
    && Closed(run, processed - start, processed + queued)
  }

  /** Popping a file that is already processed keeps the walk's invariant. */
  lemma WalkSkip(run: Run, entries: set<Path>, start: set<Path>, processed: set<Path>,
                 queued: set<Path>, rest: set<Path>, f: Path)
    requires ParserWellFormed(run.parse)
    requires WalkInv(run, entries, start, processed, queued)
    requires f in processed && queued - {f} <= rest <= queued
    ensures WalkInv(run, entries, start, processed, rest)
  {
    assert processed + rest == processed + queued;
  }

  /** Popping a new file, marking it processed and queueing what it imports (when it
      exists) keeps the walk's invariant. */
  lemma WalkVisit(run: Run, entries: set<Path>, start: set<Path>, processed: set<Path>,
                  queued: set<Path>, rest: set<Path>, f: Path)
    requires ParserWellFormed(run.parse)
    requires WalkInv(run, entries, start, processed, queued)
    requires f in queued && f !in processed && queued - {f} <= rest <= queued
    ensures f !in run.ctx.fs ==> WalkInv(run, entries, start, processed + {f}, rest)
    ensures f in run.ctx.fs ==> WalkInv(run, entries, start, processed + {f}, rest + Successors(run, f))
  {
    ReachableClosed(run, entries);
    assert (processed + {f}) - start == (processed - start) + {f};
    if f in run.ctx.fs {
      assert processed + queued <= (processed + {f}) + (rest + Successors(run, f));
    } else {
      assert processed + queued <= (processed + {f}) + rest;
    }
  }

  /** The whole state of the walk: its invariant, the bound on what it processes, the
      external names of the files processed since `start` added to `base`, and the
      log of analyzed files, each existing processed file once. */
  ghost predicate Walk(run: Run, entries: set<Path>, start: set<Path>, processed: set<Path>,
                       queued: set<Path>, base: set<string>, externals: set<string>, log: seq<Path>)
    requires ParserWellFormed(run.parse)
  {
    && WalkInv(run, entries, start, processed, queued)
    && processed <= start + entries + run.ctx.fs
    && externals == base + ExternalsOfFiles(run, processed - start)
    && NoDup(log)
    && Elements(log) == (processed - start) * run.ctx.fs
  }

  /** The walk starts with the entry points queued and nothing new processed. */
  lemma WalkStart(run: Run, entries: set<Path>, start: set<Path>, queued: set<Path>, base: set<string>)
    requires ParserWellFormed(run.parse)
    requires queued == entries
    ensures Walk(run, entries, start, start, queued, base, base, [])
  {
    ReachableClosed(run, entries);
    assert start - start == {};
    assert Elements<Path>([]) == {};
  }

  /** When the queue is empty, the files processed since `start` are reachable and
      closed under queueing: from nothing processed, exactly the reachable files. */
  lemma WalkDone(run: Run, entries: set<Path>, start: set<Path>, processed: set<Path>,
                 work: set<(string, Path)>, base: set<string>, externals: set<string>, log: seq<Path>)
    requires ParserWellFormed(run.parse)
    requires work == {}
    requires Walk(run, entries, start, processed, QueuedFiles(work), base, externals, log)
    ensures start <= processed && entries <= processed
    ensures processed - start <= Reachable(run, entries)
    ensures Closed(run, processed - start, processed)
    ensures start == {} ==> processed == Reachable(run, entries)
    ensures externals == base + ExternalsOfFiles(run, processed - start)
    ensures NoDup(log) && Elements(log) == (processed - start) * run.ctx.fs
  {
    assert QueuedFiles(work) == {};
    assert processed + QueuedFiles(work) == processed;
    if start == {} {
      assert processed - start == processed;
      ReachableLeast(run, entries, processed);
    }
  }

  /** Skipping a processed file keeps the walk's state. */
  lemma WalkSkipStep(run: Run, entries: set<Path>, start: set<Path>, processed: set<Path>,
                     queued: set<Path>, rest: set<Path>, base: set<string>, externals: set<string>,
                     log: seq<Path>, f: Path)
    requires ParserWellFormed(run.parse)
    requires Walk(run, entries, start, processed, queued, base, externals, log)
    requires f in processed && queued - {f} <= rest <= queued
    ensures Walk(run, entries, start, processed, rest, base, externals, log)
  {
    WalkSkip(run, entries, start, processed, queued, rest, f);
  }

  /** Visiting a new file adds its external names when it exists. */
  lemma WalkVisitExternals(run: Run, start: set<Path>, processed: set<Path>, base: set<string>,
                           externals: set<string>, f: Path, externals': set<string>)
    requires ParserWellFormed(run.parse)
    requires externals == base + ExternalsOfFiles(run, processed - start)
    requires f !in processed && start <= processed
    requires f !in run.ctx.fs ==> externals' == externals
    requires f in run.ctx.fs ==> externals' == externals + FileFindings(run, f).externalImports
    ensures externals' == base + ExternalsOfFiles(run, (processed + {f}) - start)
  {
    AddFresh(processed, start, run.ctx.fs, f);
    ExternalsOfFilesAdd(run, processed - start, f);
  }

  /** Visiting a new file logs it exactly when it exists. */
  lemma WalkVisitLog(fs: set<Path>, start: set<Path>, processed: set<Path>, log: seq<Path>,
                     f: Path, log': seq<Path>)
    requires NoDup(log) && Elements(log) == (processed - start) * fs
    requires f !in processed && start <= processed
    requires f !in fs ==> log' == log
    requires f in fs ==> log' == log + [f]
    ensures NoDup(log') && Elements(log') == ((processed + {f}) - start) * fs
  {
    AddFresh(processed, start, fs, f);
    assert f !in Elements(log);
    if f in fs {
      ElementsSnoc(log');
      assert log'[..|log'| - 1] == log;
    }
  }

  /** Visiting a new file keeps the walk's state: it is marked processed and, when it
      exists, its imports are queued, its external names collected and it is logged. */
  lemma WalkVisitStep(run: Run, entries: set<Path>, start: set<Path>, processed: set<Path>,
                      queued: set<Path>, rest: set<Path>, base: set<string>, externals: set<string>,
                      log: seq<Path>, f: Path, queued': set<Path>, externals': set<string>, log': seq<Path>)
    requires ParserWellFormed(run.parse)
    requires Walk(run, entries, start, processed, queued, base, externals, log)
    requires f in queued && f !in processed && queued - {f} <= rest <= queued
    requires f !in run.ctx.fs ==> queued' == rest && externals' == externals && log' == log
    requires f in run.ctx.fs ==>
      && queued' == rest + Successors(run, f)
      && externals' == externals + FileFindings(run, f).externalImports
      && log' == log + [f]
    ensures f in start + entries + run.ctx.fs
    ensures Walk(run, entries, start, processed + {f}, queued', base, externals', log')
  {
    WalkVisit(run, entries, start, processed, queued, rest, f);
    WalkVisitExternals(run, start, processed, base, externals, f, externals');
    WalkVisitLog(run.ctx.fs, start, processed, log, f, log');
  }

  /** A file name without '/' labels as its stem: with the suffix removed there is
      no separator for the replacement to change. */
  lemma LabelIsStem(name: string)
    requires name != "" && '/' !in name
    ensures name != Root && Replace(Str(WithSuffix([name], "")), '/', '.') == Stem(name)
    ensures Stem(name) != "" && '/' !in Stem(name)
  {
    var stem := Stem(name);
    assert stem <= name;
    StrOfName(name);
    StrOfName(stem);
    assert stem + "" == stem;
    assert WithSuffix([name], "") == [stem];
  }

  /** A one-part relative path prints as its part. */
  lemma StrOfName(name: string)
    requires name != "" && '/' !in name
    ensures name != Root && Name([name]) == name && Str([name]) == name
  {
    assert Root[0] == '/';
  }

  /** The label an entry point is queued with: its path relative to its parent, that
      is its file name, without the suffix and with `os.sep` replaced by '.'. It is the
      stem of the file name. */
  function EntryLabel(entry: Path): (moduleName: string)
    requires EntryPath(entry)
    ensures moduleName == Stem(Name(entry)) && moduleName != "" && '/' !in moduleName
  {
    var name := Name(entry);
    assert '/' !in name by {
      assert name == entry[|entry| - 1];
    }
    LabelIsStem(name);
    var relative: Path := [name];
    Replace(Str(WithSuffix(relative, "")), '/', '.')
  }

  /** Entry points that name a file: `relative_to(parent)` leaves a non-empty name. */
  predicate EntryPaths(entries: seq<Path>) {
    forall i :: 0 <= i < |entries| ==> EntryPath(entries[i])
  }

  /** An entry point that names a file. */
  predicate EntryPath(entry: Path) {
    Normal(entry) && Name(entry) != ""
  }

  /** The `(label, file)` pair of every entry point. */
  function EntryItems(entries: seq<Path>): set<(string, Path)>
  {
    if entries == [] then {}
    else
      var last := entries[|entries| - 1];
      EntryItems(entries[..|entries| - 1]) + {(Stem(Name(last)), last)}
  }

  /** One more entry point adds its own pair. */
  lemma EntryItemsSnoc(entries: seq<Path>, i: nat, moduleName: string)
    requires i < |entries| && moduleName == Stem(Name(entries[i]))
    ensures EntryItems(entries[..i + 1]) == EntryItems(entries[..i]) + {(moduleName, entries[i])}
  {
    assert entries[..i + 1][..i] == entries[..i] && entries[..i + 1][i] == entries[i];
  }

  /** The files queued at the start are exactly the entry points. */
  lemma {:induction false} EntryItemsFiles(entries: seq<Path>)
    ensures QueuedFiles(EntryItems(entries)) == Elements(entries)
  {
    if entries != [] {
      var init, last := entries[..|entries| - 1], entries[|entries| - 1];
      EntryItemsFiles(init);
      QueuedFilesUnion(EntryItems(init), {(Stem(Name(last)), last)});
      assert QueuedFiles({(Stem(Name(last)), last)}) == {last};
      ElementsSnoc(entries);
    }
  }

  /** Each entry point is queued under the stem of its file name. */
  lemma {:induction false} EntryItemsLabels(entries: seq<Path>)
    ensures forall p :: p in EntryItems(entries) ==> p.1 in entries && p.0 == Stem(Name(p.1))
  {
    if entries != [] {
      var init, last := entries[..|entries| - 1], entries[|entries| - 1];
      EntryItemsLabels(init);
      assert entries == init + [last];
    }
  }

  /** The analyzer of a whole project. The standard-library snapshot, the environment,
      the filesystem and the parser are fixed for the run. */
  class DependencyAnalyzer {
    const entryPoints: seq<Path>
    const additionalPaths: seq<string>
    var processedFiles: set<Path>
    var externalDependencies: set<string>
    const localPaths: set<Path>
    /** `list(self.local_paths)`: the set in its (unspecified) iteration order. */
    const localOrder: seq<Path>
    const stdlibModules: set<string>
    const env: map<string, string>
    const fs: set<Path>
    const parse: Parser
    /** Every file handed to `analyze_file`, in order. */
    ghost var analyzed: seq<Path>

    ghost predicate Valid() {
      && ParserWellFormed(parse)
      && Lists(localOrder, localPaths)
      && (forall i :: 0 <= i < |entryPoints| ==> Normal(entryPoints[i]))
    }

    /** What every file of this run is resolved against. */
    function Setting(): Run {
      Run(Context(stdlibModules, fs, SearchPaths(localOrder, env)), parse)
    }

    ghost function EntrySet(): set<Path> {
      Elements(entryPoints)
    }

    /** `DependencyAnalyzer(entry_points, additional_paths)`: the local paths are the
        parent directory of every entry point together with every additional path. */
    constructor (entryPoints: seq<string>, additionalPaths: seq<string>, stdlibModules: set<string>,
                 env: map<string, string>, fs: set<Path>, parse: Parser)
      requires ParserWellFormed(parse)
      ensures Valid()
      ensures this.entryPoints == seq(|entryPoints|, i requires 0 <= i < |entryPoints| => PathOf(entryPoints[i]))
      ensures this.additionalPaths == additionalPaths
      ensures localPaths ==
        (set i | 0 <= i < |entryPoints| :: Parent(PathOf(entryPoints[i]))) +
        (set i | 0 <= i < |additionalPaths| :: PathOf(additionalPaths[i]))
      ensures this.stdlibModules == stdlibModules && this.env == env && this.fs == fs && this.parse == parse
      ensures processedFiles == {} && externalDependencies == {} && analyzed == []
    {
      var entries := seq(|entryPoints|, i requires 0 <= i < |entryPoints| => PathOf(entryPoints[i]));
      var locals := CollectLocalPaths(entries, additionalPaths);
      forall j | 0 <= j < |entries| ensures entries[j] == PathOf(entryPoints[j]) { }
      assert (set j | 0 <= j < |entries| :: Parent(entries[j])) ==
        (set j | 0 <= j < |entryPoints| :: Parent(PathOf(entryPoints[j])));
      var order := Enumerate(locals);
      this.entryPoints := entries;
      this.additionalPaths := additionalPaths;
      this.processedFiles := {};
      this.externalDependencies := {};
      this.localPaths := locals;
      this.localOrder := order;
      this.stdlibModules := stdlibModules;
      this.env := env;
      this.fs := fs;
      this.parse := parse;
      this.analyzed := [];
    }

    /** `analyze_file`: the external names of the file join the project's, and its
        queued `(import_path, file)` pairs are returned; a file that fails to read or
        parse returns nothing and changes nothing. */
    method AnalyzeFile(filePath: Path) returns (found: set<(string, Path)>)
      requires Valid()
      modifies this`externalDependencies, this`analyzed
      ensures analyzed == old(analyzed) + [filePath]
      ensures found == FileFindings(Setting(), filePath).filesToProcess
      ensures externalDependencies == old(externalDependencies) + FileFindings(Setting(), filePath).externalImports
      ensures parse(filePath).None? ==> found == {} && externalDependencies == old(externalDependencies)
      ensures QueuedFiles(found) == Successors(Setting(), filePath) <= fs
    {
      analyzed := analyzed + [filePath];
      ghost var run := Setting();
      assert Successors(run, filePath) <= fs;
      var tree := parse(filePath);
      if tree.None? {
        // the `except` branch: the error goes to stderr, nothing is found
        return {};
      }
      var analyzer := new ImportAnalyzer(localOrder, stdlibModules, env, fs);
      analyzer.Visit(tree.value);
      externalDependencies := externalDependencies + analyzer.externalImports;
      found := analyzer.filesToProcess;
    }

    /** `analyze_project`: drains the work set, analyzing every file at most once. */
    method AnalyzeProject()
      requires Valid()
      requires EntryPaths(entryPoints)
      modifies this`processedFiles, this`externalDependencies, this`analyzed
      ensures old(processedFiles) <= processedFiles
      ensures EntrySet() <= processedFiles
      ensures processedFiles - old(processedFiles) <= Reachable(Setting(), EntrySet())
      ensures Closed(Setting(), processedFiles - old(processedFiles), processedFiles)
      ensures old(processedFiles) == {} ==> processedFiles == Reachable(Setting(), EntrySet())
      ensures externalDependencies ==
        old(externalDependencies) + ExternalsOfFiles(Setting(), processedFiles - old(processedFiles))
      ensures |old(analyzed)| <= |analyzed| && analyzed[..|old(analyzed)|] == old(analyzed)
      ensures NoDup(analyzed[|old(analyzed)|..])
      ensures Elements(analyzed[|old(analyzed)|..]) == (processedFiles - old(processedFiles)) * fs
    {
      var filesToProcess := EntryWork(entryPoints);
      ghost var run, entries := Setting(), EntrySet();
      WalkStart(run, entries, processedFiles, QueuedFiles(filesToProcess), externalDependencies);
      ghost var log: seq<Path>;
      log := Drain(filesToProcess, entries, old(processedFiles), old(externalDependencies), old(analyzed));
      WalkDone(run, entries, old(processedFiles), processedFiles, {},
        old(externalDependencies), externalDependencies, log);
      AppendHalves(old(analyzed), log);
    }

    /** The loop of `analyze_project`: takes items from the work set until it is empty. */
    method Drain(work: set<(string, Path)>, ghost entries: set<Path>, ghost start: set<Path>,
                 ghost base: set<string>, ghost before: seq<Path>)
      returns (ghost log: seq<Path>)
      requires Valid()
      requires Walk(Setting(), entries, start, processedFiles, QueuedFiles(work), base, externalDependencies, [])
      requires analyzed == before
      modifies this`processedFiles, this`externalDependencies, this`analyzed
      ensures Walk(Setting(), entries, start, processedFiles, QueuedFiles({}), base, externalDependencies, log)
      ensures analyzed == before + log
    {
      var filesToProcess := work;
      log := [];
      ghost var universe := processedFiles + entries + fs;
      assert processedFiles <= start + entries + fs;
      while filesToProcess != {}
        invariant Walk(Setting(), entries, start, processedFiles, QueuedFiles(filesToProcess), base, externalDependencies, log)
        invariant analyzed == before + log
        invariant processedFiles <= universe
        decreases universe - processedFiles, filesToProcess
      {
        var item :| item in filesToProcess;
        filesToProcess, log := ProcessItem(item, filesToProcess, entries, start, base, before, log);
      }
    }

    /** One turn of the loop of `analyze_project`: pops `item`, skips its file when it
        is processed already, otherwise marks it processed and, when it exists, analyzes
        it and queues what it finds. */
    method ProcessItem(item: (string, Path), work: set<(string, Path)>, ghost entries: set<Path>,
                       ghost start: set<Path>, ghost base: set<string>, ghost before: seq<Path>,
                       ghost log: seq<Path>)
      returns (work': set<(string, Path)>, ghost log': seq<Path>)
      requires Valid() && item in work
      requires Walk(Setting(), entries, start, processedFiles, QueuedFiles(work), base, externalDependencies, log)
      requires analyzed == before + log
      modifies this`processedFiles, this`externalDependencies, this`analyzed
      ensures Walk(Setting(), entries, start, processedFiles, QueuedFiles(work'), base, externalDependencies, log')
      ensures analyzed == before + log'
      ensures old(processedFiles) <= processedFiles <= start + entries + fs
      ensures processedFiles == old(processedFiles) ==> work' < work
      ensures processedFiles != old(processedFiles) ==> old(processedFiles) < processedFiles
      ensures item.1 in old(processedFiles) ==>
        processedFiles == old(processedFiles) && work' == work - {item} &&
        externalDependencies == old(externalDependencies) && log' == log
      ensures item.1 !in old(processedFiles) ==> processedFiles == old(processedFiles) + {item.1}
      ensures item.1 !in old(processedFiles) && item.1 !in fs ==>
        work' == work - {item} && externalDependencies == old(externalDependencies) && log' == log
      ensures item.1 !in old(processedFiles) && item.1 in fs ==>
        work' == (work - {item}) + FileFindings(Setting(), item.1).filesToProcess &&
        externalDependencies == old(externalDependencies) + FileFindings(Setting(), item.1).externalImports &&
        log' == log + [item.1]
    {
      ghost var run := Setting();
      ghost var queued := QueuedFiles(work);
      QueuedFilesRemove(work, item);
      work' := work - {item};
      log' := log;
      ghost var rest := QueuedFiles(work');
      var currentFile := item.1;
      if currentFile in processedFiles {
        WalkSkipStep(run, entries, start, processedFiles, queued, rest, base, externalDependencies, log, currentFile);
        return;
      }
      ghost var processed, externals := processedFiles, externalDependencies;
      processedFiles := processedFiles + {currentFile};
      if currentFile in fs {
        var newFiles := AnalyzeFile(currentFile);
        QueuedFilesUnion(work', newFiles);
        work' := work' + newFiles;
        AppendAssoc(before, log, [currentFile]);
        log' := log + [currentFile];
      }
      WalkVisitStep(run, entries, start, processed, queued, rest, base, externals, log, currentFile,
        QueuedFiles(work'), externalDependencies, log');
    }

    /** `generate_requirements`: every external name whose installed version is truthy,
        mapped to that version; the others are dropped with a warning. */
    method GenerateRequirements(lookup: string -> Option<string>) returns (requirements: map<string, string>)
      ensures forall p :: p in requirements <==> p in externalDependencies && Installed(lookup(p))
      ensures forall p :: p in requirements ==> Installed(lookup(p)) && requirements[p] == lookup(p).value
      ensures requirements == Bind(externalDependencies, lookup)
    {
      requirements := map[];
      var rest := externalDependencies;
      while rest != {}
        invariant rest <= externalDependencies
        invariant forall p :: p in requirements <==> p in externalDependencies - rest && Installed(lookup(p))
        invariant forall p :: p in requirements ==> Installed(lookup(p)) && requirements[p] == lookup(p).value
        decreases rest
      {
        var package :| package in rest;
        rest := rest - {package};
        var version := lookup(package);
        if Installed(version) {
          requirements := requirements[package := version.value];
        }
        // otherwise: the "imported but not installed" warning on stderr
      }
    }

    /** `write_requirements`: the lines of the requirements file, one per bound name in
        ascending order, whatever order the names were found in. */
    method WriteRequirements(lookup: string -> Option<string>) returns (lines: seq<string>)
      ensures lines == Emit(Bind(externalDependencies, lookup))
    {
      var requirements := GenerateRequirements(lookup);
      var names := SortedNames(requirements.Keys);
      lines := FormatLines(requirements, names);
    }
  }

  /** The initial work set of `analyze_project`: every entry point, labelled with
      its file name without the suffix. */
  method EntryWork(entries: seq<Path>) returns (work: set<(string, Path)>)
    requires EntryPaths(entries)
    ensures work == EntryItems(entries)
    ensures QueuedFiles(work) == Elements(entries)
    ensures forall p :: p in work ==> p.1 in entries && p.0 == Stem(Name(p.1))
  {
    work := {};
    for i := 0 to |entries|
      invariant work == EntryItems(entries[..i])
    {
      var moduleName := EntryLabel(entries[i]);
      EntryItemsSnoc(entries, i, moduleName);
      work := work + {(moduleName, entries[i])};
    }
    assert entries[..|entries|] == entries;
    EntryItemsFiles(entries);
    EntryItemsLabels(entries);
  }

  /** The lines `write_requirements` writes for `names` in turn: `name==version`, or the
      bare name when the version is empty. */
  method FormatLines(requirements: map<string, string>, names: seq<string>) returns (lines: seq<string>)
    requires forall i :: 0 <= i < |names| ==> names[i] in requirements
    ensures lines == Lines(requirements, names)
  {
    lines := [];
    for i := 0 to |names|
      invariant |lines| == i
      invariant forall k :: 0 <= k < i ==> lines[k] == FormatLine(names[k], requirements[names[k]])
    {
      var package := names[i];
      var version := requirements[package];
      if version != "" {
        lines := lines + [package + "==" + version];
      } else {
        lines := lines + [package];
      }
    }
    LinesAgree(requirements, names, lines);
  }

  /** The local paths the constructor collects: the parent of every entry point, then
      every additional path, as one set. */
  method CollectLocalPaths(entries: seq<Path>, additionalPaths: seq<string>) returns (locals: set<Path>)
    ensures locals ==
      (set i | 0 <= i < |entries| :: Parent(entries[i])) +
      (set i | 0 <= i < |additionalPaths| :: PathOf(additionalPaths[i]))
  {
    locals := {};
    for i := 0 to |entries|
      invariant locals == set j | 0 <= j < i :: Parent(entries[j])
    {
      locals := locals + {Parent(entries[i])};
    }
    ghost var parents := locals;
    for i := 0 to |additionalPaths|
      invariant locals == parents + set j | 0 <= j < i :: PathOf(additionalPaths[j])
    {
      locals := locals + {PathOf(additionalPaths[i])};
    }
  }

  /** `sorted(requirements.items())`, by key: the keys listed in some order, then sorted. */
  method SortedNames(keys: set<string>) returns (names: seq<string>)
    ensures names == SortedKeys(keys)
    ensures StrictlyAscending(names) && Lists(names, keys)
  {
    var items := Enumerate(keys);
    names := Sort(items);
    SortListingIsSortedKeys(items, keys);
  }

  /** Lines that format `names` one by one are the lines of `names`. */
  lemma LinesAgree(requirements: map<string, string>, names: seq<string>, lines: seq<string>)
    requires forall i :: 0 <= i < |names| ==> names[i] in requirements
    requires |lines| == |names|
    requires forall k :: 0 <= k < |names| ==> lines[k] == FormatLine(names[k], requirements[names[k]])
    ensures lines == Lines(requirements, names)
  {
  }
}
