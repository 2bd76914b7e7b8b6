/** What happens to one file, and the audit record it leaves
    (main.py:94-154), with the extension filter (main.py:42, 91) and the
    summary counts (main.py:164-165). */
module Records {
  import opened Outcomes
  import opened Text
  import opened Fs
  import opened AliasTable
  import opened Classifier
  import opened Resolver

  /** `执行状态`, the record's status column. */
  datatype Status = Success | Failed | Skipped {
    function Label(): string {
      match this
      case Success => "成功"
      case Failed => "失败"
      case Skipped => "跳过"
    }
  }

  /** The fixed values of an unmatched file's record. */
  const NoKeyword: string := "无"
  const NoDestination: string := "N/A"
  const NoMatchRemark: string := "未匹配到对应的公司文件夹"
  const MovedRemark: string := "已移动至: "
  const MoveErrorRemark: string := "移动出错: "

  /** One row of the audit trail (the time column is not modelled). */
  datatype Record = Record(
    fileName: string,   // 文件名
    fileType: string,   // 文件类型
    keyword: string,    // 匹配关键词
    status: Status,     // 执行状态
    destPath: string,   // 目标路径
    remark: string)     // 备注

  /** How the body of the `try` at main.py:128-136 ended: it ran to its end,
      or something in it raised, with the exception's text. */
  datatype MoveOutcome = Moved | MoveError(message: string)

  /** The `try` body of main.py:131-136 as an oracle: given the ordinal of the
      file being handled in the run, the source path and the destination
      path, it says whether the body ran to its end. An exception from
      shutil.move, and equally one from the success `print` after a move
      that did happen, is an error. */
  type MoveOracle = (nat, Path, Path) -> MoveOutcome

  /** A listed file: the directory it was listed in, and its entry. */
  datatype SourceFile = SourceFile(dir: Path, entry: Entry)

  /** What the per-file code reads from the rest of the run. */
  datatype Context = Context(
    companies: CompanyMap,
    sortedKeys: seq<string>,
    targetRoot: Path,
    keyword: string,
    move: MoveOracle)

  /** `sorted_keys` only holds non-empty keys of `company_map`; being
      non-empty, a matched key is always truthy, so `if matched_key:`
      (main.py:106) and `matched_key if matched_key else "无"` (main.py:149)
      test only whether a key was found. */
  ghost predicate KeysInTable(ctx: Context) {
    forall k :: k in ctx.sortedKeys ==> k in ctx.companies.folders && k != ""
  }

  /** `allowed_extensions = {ext.lower() for ext in allowed_extensions}`. */
  function AllowedSet(exts: seq<string>): set<string> {
    set e | e in exts :: Lower(e)
  }

  /** A listed entry passes the filter of main.py:91: it is not a directory
      and its lowered suffix is one of the allowed extensions. */
  predicate Qualifies(e: Entry, allowed: set<string>) {
    !e.isDir && Lower(Suffix(e.name)) in allowed
  }

  /** The allowed extensions of a run that only handles PDF files. */
  const PdfOnly := AllowedSet([".pdf"])

  /** With only ".pdf" allowed, a file "<stem>.pdf" passes the filter, even
      when the stem holds dots of its own. */
  lemma PdfQualifies(stem: string)
    requires stem != []
    ensures Qualifies(Entry(stem + ".pdf", false, []), PdfOnly)
  {
    SuffixOfExtension(stem, "pdf");
    assert stem + "." + "pdf" == stem + ".pdf";
    assert Lower(".pdf") == ".pdf";
  }

  /** With only ".pdf" allowed, a file "<stem>.txt" is rejected. */
  lemma TxtRejected(stem: string)
    requires stem != []
    ensures !Qualifies(Entry(stem + ".txt", false, []), PdfOnly)
  {
    SuffixOfExtension(stem, "txt");
    assert stem + "." + "txt" == stem + ".txt";
    assert Lower(".txt") == ".txt";
    NotPdf(".txt");
  }

  /** A lowered extension whose second character is not 'p' is not allowed
      when only ".pdf" is. */
  lemma NotPdf(ext: string)
    requires |ext| >= 2 && ext[1] != 'p'
    ensures ext !in PdfOnly
  {
    forall e | e in [".pdf"] ensures Lower(e) != ext {
      assert Lower(e)[1] == 'p';
    }
  }

  /** The company folder for a matched key: `target_path / folder.name`. */
  function CompanyPath(ctx: Context, key: string): Path
    requires key in ctx.companies.folders
  {
    ctx.targetRoot + [ctx.companies.folders[key].name]
  }

  /** `final_dest_dir` for a matched key. */
  function FinalDestination(ctx: Context, key: string): Path
    requires key in ctx.companies.folders
  {
    Destination(CompanyPath(ctx, key), ctx.companies.folders[key], ctx.keyword)
  }

  /** The record built for `file` by main.py:94-154; `attempt` is the number
      of records already made in the run. */
  function ProcessFile(ctx: Context, attempt: nat, file: SourceFile): Record
    requires KeysInTable(ctx)
  {
    var fileName := file.entry.name;
    var fileType := Upper(Suffix(fileName));
    match Classify(ctx.sortedKeys, fileName)
    case None =>
      Record(fileName, fileType, NoKeyword, Skipped, NoDestination, NoMatchRemark)
    case Some(key) =>
      var company := ctx.companies.folders[key];
      var dest := FinalDestination(ctx, key);
      match ctx.move(attempt, file.dir + [fileName], dest + [fileName])
      case Moved =>
        Record(fileName, fileType, key, Success, PathString(dest), MovedRemark + company.name)
      case MoveError(message) =>
        Record(fileName, fileType, key, Failed, PathString(dest), MoveErrorRemark + message)
  }

  /** An unmatched file is recorded as skipped with the fixed values; a
      matched one carries the first matching key of `sorted_keys` and
      `str(final_dest_dir)`, whether or not the move succeeds, and is a
      success exactly when the `try` body (the move and the success print)
      runs to its end. */
  lemma ProcessFileSpec(ctx: Context, attempt: nat, file: SourceFile)
    requires KeysInTable(ctx)
    ensures var r := ProcessFile(ctx, attempt, file);
      && r.fileName == file.entry.name && r.fileType == Upper(Suffix(file.entry.name))
      && (r.status == Skipped <==>
            forall i :: 0 <= i < |ctx.sortedKeys| ==> !Contains(file.entry.name, ctx.sortedKeys[i]))
      && (r.status == Skipped ==>
            r.keyword == NoKeyword && r.destPath == NoDestination && r.remark == NoMatchRemark)
      && (r.status != Skipped ==>
            && (exists i :: FirstMatchAt(ctx.sortedKeys, file.entry.name, i) && ctx.sortedKeys[i] == r.keyword)
            && r.keyword in ctx.companies.folders
            && r.destPath == PathString(FinalDestination(ctx, r.keyword))
            && var outcome := ctx.move(attempt, file.dir + [file.entry.name],
                                       FinalDestination(ctx, r.keyword) + [file.entry.name]);
               && (r.status == Success <==> outcome == Moved)
               && (r.status == Success ==> r.remark == MovedRemark + ctx.companies.folders[r.keyword].name)
               && (r.status == Failed ==> r.remark == MoveErrorRemark + outcome.message))
  {
  }

  /** main.py:94-154 statement by statement: the record starts with the
      skipped values, the keys are tried in order until one occurs in the
      file name, and for a matched key the company folder's listing is
      searched for the first subfolder holding the keyword before the move
      is attempted. A key is never empty (`KeysInTable`), so `if matched_key`
      is the same test as "a key was found". */
  method RecordFile(ctx: Context, attempt: nat, file: SourceFile) returns (record: Record)
    requires KeysInTable(ctx)
    ensures record == ProcessFile(ctx, attempt, file)
  {
    var fileName := file.entry.name;
    var matchedKey: Option<string> := None;
    var status := Skipped;
    var destPathStr := NoDestination;
    var remark := NoMatchRemark;

    var i := 0;
    while i < |ctx.sortedKeys|
      invariant i <= |ctx.sortedKeys|
      invariant forall j :: 0 <= j < i ==> !Contains(fileName, ctx.sortedKeys[j])
    {
      if Contains(fileName, ctx.sortedKeys[i]) {
        matchedKey := Some(ctx.sortedKeys[i]);
        ClassifyFirstMatch(ctx.sortedKeys, fileName, i);
        break;
      }
      i := i + 1;
    }
    assert Classify(ctx.sortedKeys, fileName) == matchedKey;

    if matchedKey.Some? {
      var key := matchedKey.value;
      var company := ctx.companies.folders[key];
      var items := company.children;
      var matchingSubfolder: Option<Entry> := None;
      var k := 0;
      while k < |items|
        invariant k <= |items|
        invariant forall j :: 0 <= j < k ==> !(items[j].isDir && Contains(items[j].name, ctx.keyword))
      {
        if items[k].isDir && Contains(items[k].name, ctx.keyword) {
          matchingSubfolder := Some(items[k]);
          FindSubfolderFirst(items, ctx.keyword, k);
          break;
        }
        k := k + 1;
      }
      assert FindSubfolder(items, ctx.keyword) == matchingSubfolder;

      var finalDestDir := CompanyPath(ctx, key);
      if matchingSubfolder.Some? {
        finalDestDir := finalDestDir + [matchingSubfolder.value.name];
      }
      destPathStr := PathString(finalDestDir);
      match ctx.move(attempt, file.dir + [fileName], finalDestDir + [fileName])
      case Moved =>
        status := Success;
        remark := MovedRemark + company.name;
      case MoveError(message) =>
        status := Failed;
        remark := MoveErrorRemark + message;
    }

    record := Record(fileName, Upper(Suffix(fileName)),
                     if matchedKey.Some? then matchedKey.value else NoKeyword,
                     status, destPathStr, remark);
  }

  /** `len(df[df['执行状态']=='成功'])`. */
  function CountSuccess(records: seq<Record>): nat {
    if records == [] then 0
    else (if records[0].status.Label() == Success.Label() then 1 else 0) + CountSuccess(records[1..])
  }

  /** `len(df[df['执行状态']!='成功'])`. */
  function CountOthers(records: seq<Record>): nat {
    if records == [] then 0
    else (if records[0].status.Label() != Success.Label() then 1 else 0) + CountOthers(records[1..])
  }

  datatype Summary = Summary(successCount: nat, failCount: nat)

  /** The status column of the records, in order. */
  function Statuses(records: seq<Record>): seq<Status> {
    seq(|records|, i requires 0 <= i < |records| => records[i].status)
  }

  /** The two counts of the run's summary: the first is the number of
      successful records, the second the number of all others; so nothing is
      counted as skipped or failed exactly when every record is a success. */
  function Summarize(records: seq<Record>): (s: Summary)
    ensures s.successCount == multiset(Statuses(records))[Success]
    ensures s.failCount == |records| - multiset(Statuses(records))[Success]
    ensures s.failCount == 0 <==> forall i :: 0 <= i < |records| ==> records[i].status == Success
  {
    CountsAddUp(records);
    CountSuccessIsMultiplicity(records);
    Summary(CountSuccess(records), CountOthers(records))
  }

  /** `len(df[df['执行状态']=='成功'])` is the number of times Success occurs
      in the status column. */
  lemma {:induction false} CountSuccessIsMultiplicity(records: seq<Record>)
    ensures CountSuccess(records) == multiset(Statuses(records))[Success]
  {
    if records != [] {
      CountSuccessIsMultiplicity(records[1..]);
      assert Statuses(records) == [records[0].status] + Statuses(records[1..]);
    }
  }

  lemma {:induction false} CountsAddUp(records: seq<Record>)
    ensures CountSuccess(records) + CountOthers(records) == |records|
    ensures CountOthers(records) == 0 <==> forall i :: 0 <= i < |records| ==> records[i].status == Success
  {
    if records != [] {
      CountsAddUp(records[1..]);
      assert forall i :: 1 <= i < |records| ==> records[i] == records[1..][i - 1];
    }
  }
}
