/** The run of organize_files_comprehensive (main.py:22-183): build the
    company table once, then walk the source roots and record what happens
    to the files found there.

    The body that classifies, moves and records a file (main.py:94-154) is
    indented at the level of `for source_root`, not inside
    `for file_path in source_path.iterdir()`; that inner loop only runs its
    filter and `continue`. As written, therefore, each existing source root
    yields one record, for the LAST entry it lists, whether or not that entry
    passes the filter; an empty root reuses the previous root's `file_path`,
    and raises UnboundLocalError (a subclass of NameError) if no root before
    it bound one. `RunAsWritten` and `Organize` model this; `RunIntended` and `OrganizeIntended` model the
    evidently intended loop, one record per file that passes the filter. */
module Run {
  import opened Outcomes
  import opened Text
  import opened Fs
  import opened AliasTable
  import opened Records

  /** One entry of `source_roots`: its path, `source_path.exists()`, and
      its listing. */
  datatype SourceRoot = SourceRoot(path: Path, present: bool, listing: seq<Entry>)

  /** The arguments of organize_files_comprehensive that the core uses; the
      target root is given with its listing. */
  datatype Config = Config(
    targetRoot: Path,
    targetListing: seq<Entry>,
    allowedExtensions: seq<string>,
    searchKeyword: string,
    move: MoveOracle)

  /** The UnboundLocalError (a subclass of NameError) raised at main.py:94
      when `file_path` was never bound. */
  datatype RunError = UnboundFilePath

  /** The run's variables between two source roots: the records so far and
      the current binding of `file_path`. */
  datatype RunState = RunState(records: seq<Record>, filePath: Option<SourceFile>)

  /** What the run leaves behind: the records and, when there are any, the
      summary counts of main.py:164-165. */
  datatype Report = Report(records: seq<Record>, summary: Option<Summary>)

  function ReportOf(records: seq<Record>): Report {
    Report(records, if records == [] then None else Some(Summarize(records)))
  }

  /** The company table and `sorted_keys` built for a run: every key tried
      is a non-empty key of the table. */
  function ContextOf(cfg: Config): (ctx: Context)
    ensures KeysInTable(ctx)
  {
    var companies := TableOf(cfg.targetListing);
    SortedKeysCorrect(companies);
    TableKeysFromListing(cfg.targetListing, Alias);
    Context(companies, SortedKeys(companies), cfg.targetRoot, cfg.searchKeyword, cfg.move)
  }

  /** The per-file step of a run: given the number of records made so far
      and a listed file, the record main.py:94-154 makes for it. The folds
      below are stated for any such step. */
  type Processor = (nat, SourceFile) -> Record

  /** The per-file step for a run's table and keyword. */
  function FileProcessor(ctx: Context): Processor
    requires KeysInTable(ctx)
  {
    (attempt: nat, file: SourceFile) => ProcessFile(ctx, attempt, file)
  }

  // ---------------------------------------------------------------------
  // The run as written
  // ---------------------------------------------------------------------

  /** One iteration of `for source_root` as written: a missing root is
      skipped; otherwise `file_path` ends bound to the last listed entry (or
      keeps its previous binding when the listing is empty), and that one
      file is processed and recorded. */
  function VisitRoot(process: Processor, st: RunState, root: SourceRoot): Result<RunState, RunError>
  {
    if !root.present then Ok(st)
    else
      var filePath :=
        if root.listing == [] then st.filePath
        else Some(SourceFile(root.path, root.listing[|root.listing| - 1]));
      match filePath
      case None => Err(UnboundFilePath)
      case Some(file) =>
        Ok(RunState(st.records + [process(|st.records|, file)], filePath))
  }

  /** The state after the source roots `roots`, in order. */
  function RunAsWritten(process: Processor, roots: seq<SourceRoot>): Result<RunState, RunError>
  {
    if roots == [] then Ok(RunState([], None))
    else
      match RunAsWritten(process, roots[..|roots| - 1])
      case Err(e) => Err(e)
      case Ok(st) => VisitRoot(process, st, roots[|roots| - 1])
  }

  /** The state after one more source root. */
  lemma RunAsWrittenStep(process: Processor, roots: seq<SourceRoot>, r: nat)
    requires r < |roots|
    ensures RunAsWritten(process, roots[..r + 1]) ==
              match RunAsWritten(process, roots[..r])
              case Err(e) => Err(e)
              case Ok(st) => VisitRoot(process, st, roots[r])
  {
    assert roots[..r + 1][..r] == roots[..r];
  }

  lemma {:induction false} ErrorPersists(process: Processor, roots: seq<SourceRoot>, n: nat)
    requires n <= |roots| && RunAsWritten(process, roots[..n]).Err?
    ensures RunAsWritten(process, roots).Err?
  {
    if n < |roots| {
      assert roots[..|roots| - 1][..n] == roots[..n];
      ErrorPersists(process, roots[..|roots| - 1], n);
    } else {
      assert roots[..n] == roots;
    }
  }

  /** organize_files_comprehensive as written, over snapshots of the
      target root and of the source roots. */
  method Organize(cfg: Config, roots: seq<SourceRoot>) returns (out: Result<Report, RunError>)
    ensures out.Err? <==> RunAsWritten(FileProcessor(ContextOf(cfg)), roots).Err?
    ensures out.Ok? ==> out.value == ReportOf(RunAsWritten(FileProcessor(ContextOf(cfg)), roots).value.records)
  {
    var allowedExtensions := AllowedSet(cfg.allowedExtensions);
    var companyMap := BuildCompanyMap(cfg.targetListing);
    var sortedKeys := SortedKeys(companyMap);
    var ctx := Context(companyMap, sortedKeys, cfg.targetRoot, cfg.searchKeyword, cfg.move);
    assert ctx == ContextOf(cfg);
    ghost var process := FileProcessor(ctx);
    var records: seq<Record> := [];
    var filePath: Option<SourceFile> := None;
    for r := 0 to |roots|
      invariant RunAsWritten(process, roots[..r]) == Ok(RunState(records, filePath))
    {
      var root := roots[r];
      RunAsWrittenStep(process, roots, r);
      if !root.present {
        continue;
      }
      var before := filePath;
      for j := 0 to |root.listing|
        invariant j == 0 ==> filePath == before
        invariant j > 0 ==> filePath == Some(SourceFile(root.path, root.listing[j - 1]))
      {
        filePath := Some(SourceFile(root.path, root.listing[j]));
        if root.listing[j].isDir || Lower(Suffix(root.listing[j].name)) !in allowedExtensions {
          continue;
        }
      }
      if filePath.None? {
        ErrorPersists(process, roots, r + 1);
        return Err(UnboundFilePath);
      }
      var record := RecordFile(ctx, |records|, filePath.value);
      assert record == process(|records|, filePath.value);
      records := records + [record];
    }
    assert roots[..|roots|] == roots;
    out := Ok(ReportOf(records));
  }

  /** The number of roots in `roots` that exist. */
  function ExistingCount(roots: seq<SourceRoot>): nat {
    if roots == [] then 0
    else ExistingCount(roots[..|roots| - 1]) + (if roots[|roots| - 1].present then 1 else 0)
  }

  /** As written, a completed run holds exactly one record per existing source
      root, however many files each lists. */
  lemma {:induction false} OneRecordPerRoot(process: Processor, roots: seq<SourceRoot>)
    requires RunAsWritten(process, roots).Ok?
    ensures |RunAsWritten(process, roots).value.records| == ExistingCount(roots)
  {
    if roots != [] {
      OneRecordPerRoot(process, roots[..|roots| - 1]);
    }
  }

  /** The first existing source root lists nothing. */
  predicate FirstExistingIsEmpty(roots: seq<SourceRoot>) {
    exists i :: 0 <= i < |roots| && roots[i].present && roots[i].listing == [] &&
      forall j :: 0 <= j < i ==> !roots[j].present
  }

  /** As written, the run raises UnboundLocalError exactly when the first
      existing source root is empty. */
  lemma {:induction false} NameErrorIff(process: Processor, roots: seq<SourceRoot>)
    ensures RunAsWritten(process, roots).Err? <==> FirstExistingIsEmpty(roots)
    ensures RunAsWritten(process, roots).Ok? ==>
              (RunAsWritten(process, roots).value.filePath.None? <==> forall j :: 0 <= j < |roots| ==> !roots[j].present)
  {
    if roots != [] {
      var init := roots[..|roots| - 1];
      var last := roots[|roots| - 1];
      NameErrorIff(process, init);
      assert forall j :: 0 <= j < |init| ==> init[j] == roots[j];
      if FirstExistingIsEmpty(init) {
        var i :| 0 <= i < |init| && init[i].present && init[i].listing == [] &&
          forall j :: 0 <= j < i ==> !init[j].present;
        assert roots[i] == init[i];
      } else if FirstExistingIsEmpty(roots) {
        var i :| 0 <= i < |roots| && roots[i].present && roots[i].listing == [] &&
          forall j :: 0 <= j < i ==> !roots[j].present;
      }
    }
  }

  /** As written, the record made for an existing root that lists anything is
      the record of the LAST entry it lists, whether or not that entry passes
      the extension filter. */
  lemma {:induction false} RecordIsLastEntry(process: Processor, roots: seq<SourceRoot>, i: nat)
    requires RunAsWritten(process, roots).Ok?
    requires i < |roots| && roots[i].present && roots[i].listing != []
    ensures ExistingCount(roots[..i]) < |RunAsWritten(process, roots).value.records|
    ensures var n := ExistingCount(roots[..i]);
            var listing := roots[i].listing;
            RunAsWritten(process, roots).value.records[n] ==
              process(n, SourceFile(roots[i].path, listing[|listing| - 1]))
  {
    var init := roots[..|roots| - 1];
    if i < |init| {
      assert init[..i] == roots[..i] && init[i] == roots[i];
      RecordIsLastEntry(process, init, i);
    } else {
      assert init == roots[..i];
      OneRecordPerRoot(process, init);
    }
  }

  /** As written, after the roots `roots`, `file_path` is bound to the last
      entry of the last existing root that lists anything. */
  lemma {:induction false} FilePathIsLastFile(process: Processor, roots: seq<SourceRoot>, p: nat)
    requires RunAsWritten(process, roots).Ok?
    requires p < |roots| && roots[p].present && roots[p].listing != []
    requires forall j :: p < j < |roots| ==> !roots[j].present || roots[j].listing == []
    ensures var listing := roots[p].listing;
            RunAsWritten(process, roots).value.filePath == Some(SourceFile(roots[p].path, listing[|listing| - 1]))
  {
    var init := roots[..|roots| - 1];
    if p < |init| {
      assert init[p] == roots[p];
      assert forall j :: p < j < |init| ==> init[j] == roots[j];
      FilePathIsLastFile(process, init, p);
    }
  }

  /** As written, an existing root that lists nothing reuses `file_path`
      from before it: its record is the record, made again, of the last entry
      of the last earlier existing root that listed anything. */
  lemma {:induction false} EmptyRootReusesLastFile(process: Processor, roots: seq<SourceRoot>, i: nat, p: nat)
    requires RunAsWritten(process, roots).Ok?
    requires i < |roots| && roots[i].present && roots[i].listing == []
    requires p < i && roots[p].present && roots[p].listing != []
    requires forall j :: p < j < i ==> !roots[j].present || roots[j].listing == []
    ensures ExistingCount(roots[..i]) < |RunAsWritten(process, roots).value.records|
    ensures var n := ExistingCount(roots[..i]);
            var listing := roots[p].listing;
            RunAsWritten(process, roots).value.records[n] ==
              process(n, SourceFile(roots[p].path, listing[|listing| - 1]))
  {
    var init := roots[..|roots| - 1];
    if i < |init| {
      assert init[..i] == roots[..i] && init[i] == roots[i] && init[p] == roots[p];
      assert forall j :: p < j < i ==> init[j] == roots[j];
      EmptyRootReusesLastFile(process, init, i, p);
    } else {
      assert init == roots[..i];
      OneRecordPerRoot(process, init);
      FilePathIsLastFile(process, init, p);
    }
  }

  // ---------------------------------------------------------------------
  // The run as evidently intended
  // ---------------------------------------------------------------------

  /** The records after handling `file`, when it passes the filter. */
  function FileStep(process: Processor, allowed: set<string>, records: seq<Record>, file: SourceFile): seq<Record>
  {
    if Qualifies(file.entry, allowed) then records + [process(|records|, file)]
    else records
  }

  /** The records after handling every entry of `listing`, listed in `dir`. */
  function ListingRecords(process: Processor, allowed: set<string>, dir: Path, records: seq<Record>,
                          listing: seq<Entry>): seq<Record>
  {
    if listing == [] then records
    else
      FileStep(process, allowed, ListingRecords(process, allowed, dir, records, listing[..|listing| - 1]),
               SourceFile(dir, listing[|listing| - 1]))
  }

  /** The records of the intended run over `roots`. */
  function RunIntended(process: Processor, allowed: set<string>, roots: seq<SourceRoot>): seq<Record>
  {
    if roots == [] then []
    else
      var records := RunIntended(process, allowed, roots[..|roots| - 1]);
      var root := roots[|roots| - 1];
      if root.present then ListingRecords(process, allowed, root.path, records, root.listing) else records
  }

  /** The records of the intended run after one more source root. */
  lemma RunIntendedStep(process: Processor, allowed: set<string>, roots: seq<SourceRoot>, r: nat)
    requires r < |roots|
    ensures RunIntended(process, allowed, roots[..r + 1]) ==
              if roots[r].present
              then ListingRecords(process, allowed, roots[r].path, RunIntended(process, allowed, roots[..r]),
                                  roots[r].listing)
              else RunIntended(process, allowed, roots[..r])
  {
    assert roots[..r + 1][..r] == roots[..r];
  }

  /** The records after one more entry of a listing. */
  lemma ListingRecordsStep(process: Processor, allowed: set<string>, dir: Path, records: seq<Record>,
                           listing: seq<Entry>, j: nat)
    requires j < |listing|
    ensures ListingRecords(process, allowed, dir, records, listing[..j + 1]) ==
              FileStep(process, allowed, ListingRecords(process, allowed, dir, records, listing[..j]),
                       SourceFile(dir, listing[j]))
  {
    assert listing[..j + 1][..j] == listing[..j];
  }

  /** organize_files_comprehensive with lines 94-154 inside the file loop. */
  method OrganizeIntended(cfg: Config, roots: seq<SourceRoot>) returns (out: Report)
    ensures out == ReportOf(RunIntended(FileProcessor(ContextOf(cfg)), AllowedSet(cfg.allowedExtensions), roots))
  {
    var allowedExtensions := AllowedSet(cfg.allowedExtensions);
    var companyMap := BuildCompanyMap(cfg.targetListing);
    var sortedKeys := SortedKeys(companyMap);
    var ctx := Context(companyMap, sortedKeys, cfg.targetRoot, cfg.searchKeyword, cfg.move);
    assert ctx == ContextOf(cfg);
    ghost var process := FileProcessor(ctx);
    var records: seq<Record> := [];
    for r := 0 to |roots|
      invariant records == RunIntended(process, allowedExtensions, roots[..r])
    {
      var root := roots[r];
      RunIntendedStep(process, allowedExtensions, roots, r);
      if !root.present {
        continue;
      }
      var before := records;
      for j := 0 to |root.listing|
        invariant records == ListingRecords(process, allowedExtensions, root.path, before, root.listing[..j])
      {
        var entry := root.listing[j];
        ListingRecordsStep(process, allowedExtensions, root.path, before, root.listing, j);
        if entry.isDir || Lower(Suffix(entry.name)) !in allowedExtensions {
          continue;
        }
        var record := RecordFile(ctx, |records|, SourceFile(root.path, entry));
        assert record == process(|records|, SourceFile(root.path, entry));
        records := records + [record];
      }
      assert root.listing[..|root.listing|] == root.listing;
    }
    assert roots[..|roots|] == roots;
    out := ReportOf(records);
  }

  /** The files of `listing` that pass the filter, in listing order. */
  function QualifyingIn(allowed: set<string>, dir: Path, listing: seq<Entry>): seq<SourceFile> {
    if listing == [] then []
    else
      QualifyingIn(allowed, dir, listing[..|listing| - 1]) +
      (if Qualifies(listing[|listing| - 1], allowed) then [SourceFile(dir, listing[|listing| - 1])] else [])
  }

  /** The files of every existing source root that pass the filter, in order. */
  function QualifyingFiles(allowed: set<string>, roots: seq<SourceRoot>): seq<SourceFile> {
    if roots == [] then []
    else
      var root := roots[|roots| - 1];
      QualifyingFiles(allowed, roots[..|roots| - 1]) +
      (if root.present then QualifyingIn(allowed, root.path, root.listing) else [])
  }

  /** `records` are the records of `files`, one each, in order. */
  ghost predicate RecordsFor(process: Processor, records: seq<Record>, files: seq<SourceFile>)
  {
    |records| == |files| && forall i :: 0 <= i < |files| ==> records[i] == process(i, files[i])
  }

  lemma {:induction false} ListingRecordsFor(process: Processor, allowed: set<string>, dir: Path,
                                             records: seq<Record>, files: seq<SourceFile>,
                                             listing: seq<Entry>)
    requires RecordsFor(process, records, files)
    ensures RecordsFor(process, ListingRecords(process, allowed, dir, records, listing),
                       files + QualifyingIn(allowed, dir, listing))
  {
    if listing == [] {
      assert files + [] == files;
    } else {
      var init := listing[..|listing| - 1];
      var file := SourceFile(dir, listing[|listing| - 1]);
      ListingRecordsFor(process, allowed, dir, records, files, init);
      var before := ListingRecords(process, allowed, dir, records, init);
      var beforeFiles := files + QualifyingIn(allowed, dir, init);
      if Qualifies(file.entry, allowed) {
        assert files + QualifyingIn(allowed, dir, listing) == beforeFiles + [file];
        RecordsForSnoc(process, before, beforeFiles, file);
      } else {
        assert files + QualifyingIn(allowed, dir, listing) == beforeFiles + [];
      }
    }
  }

  lemma RecordsForSnoc(process: Processor, records: seq<Record>, files: seq<SourceFile>, file: SourceFile)
    requires RecordsFor(process, records, files)
    ensures RecordsFor(process, records + [process(|records|, file)], files + [file])
  {
  }

  /** The intended run records every file that passes the filter, once, in
      order, and nothing else: record i is the record of the i-th such file. */
  lemma {:induction false} OneRecordPerFile(process: Processor, allowed: set<string>, roots: seq<SourceRoot>)
    ensures RecordsFor(process, RunIntended(process, allowed, roots), QualifyingFiles(allowed, roots))
  {
    if roots != [] {
      var init := roots[..|roots| - 1];
      var root := roots[|roots| - 1];
      OneRecordPerFile(process, allowed, init);
      if root.present {
        ListingRecordsFor(process, allowed, root.path, RunIntended(process, allowed, init),
                          QualifyingFiles(allowed, init), root.listing);
      } else {
        assert QualifyingFiles(allowed, roots) == QualifyingFiles(allowed, init) + [];
      }
    }
  }

  // ---------------------------------------------------------------------
  // The two runs side by side
  // ---------------------------------------------------------------------

  /** Every existing root lists exactly one entry, and it passes the filter. */
  predicate SingleFileRoots(allowed: set<string>, roots: seq<SourceRoot>) {
    forall i :: 0 <= i < |roots| && roots[i].present ==>
      |roots[i].listing| == 1 && Qualifies(roots[i].listing[0], allowed)
  }

  /** Where each existing root lists one file that passes the filter, the
      run as written and the intended run make the same records. */
  lemma {:induction false} AgreeOnSingleFileRoots(process: Processor, allowed: set<string>,
                                                  roots: seq<SourceRoot>)
    requires SingleFileRoots(allowed, roots)
    ensures RunAsWritten(process, roots).Ok?
    ensures RunAsWritten(process, roots).value.records == RunIntended(process, allowed, roots)
  {
    if roots != [] {
      var init := roots[..|roots| - 1];
      var root := roots[|roots| - 1];
      assert SingleFileRoots(allowed, init) by {
        forall i | 0 <= i < |init| && init[i].present
          ensures |init[i].listing| == 1 && Qualifies(init[i].listing[0], allowed)
        {
          assert init[i] == roots[i];
        }
      }
      AgreeOnSingleFileRoots(process, allowed, init);
      if root.present {
        var records := RunIntended(process, allowed, init);
        var file := SourceFile(root.path, root.listing[0]);
        assert root.listing[..|root.listing| - 1] == [];
        assert ListingRecords(process, allowed, root.path, records, root.listing) ==
               FileStep(process, allowed, records, file);
      }
    }
  }
}
