/** Choosing the folder inside the matched company folder (main.py:111-124). */
module Resolver {
  import opened Outcomes
  import opened Text
  import opened Fs

  /** Entry `items[i]` is the first directory whose name holds `keyword`. */
  predicate FirstSubfolderAt(items: seq<Entry>, keyword: string, i: int) {
    && 0 <= i < |items|
    && items[i].isDir && Contains(items[i].name, keyword)
    && forall j :: 0 <= j < i ==> !(items[j].isDir && Contains(items[j].name, keyword))
  }

  /** The search of main.py:113-116 over the company folder's listing. */
  function FindSubfolder(items: seq<Entry>, keyword: string): (r: Option<Entry>)
    ensures r.None? <==> forall i :: 0 <= i < |items| ==> !(items[i].isDir && Contains(items[i].name, keyword))
    ensures r.Some? ==> exists i :: FirstSubfolderAt(items, keyword, i) && items[i] == r.value
  {
    if items == [] then None
    else if items[0].isDir && Contains(items[0].name, keyword) then
      assert FirstSubfolderAt(items, keyword, 0);
      Some(items[0])
    else
      var r := FindSubfolder(items[1..], keyword);
      assert forall i :: 0 <= i < |items[1..]| ==> items[1..][i] == items[i + 1];
      if r.Some? then
        var i :| FirstSubfolderAt(items[1..], keyword, i) && items[1..][i] == r.value;
        assert FirstSubfolderAt(items, keyword, i + 1);
        r
      else r
  }

  /** The subfolder found is the one at the first matching position. */
  lemma FindSubfolderFirst(items: seq<Entry>, keyword: string, i: int)
    requires FirstSubfolderAt(items, keyword, i)
    ensures FindSubfolder(items, keyword) == Some(items[i])
  {
    var r := FindSubfolder(items, keyword);
    var i' :| FirstSubfolderAt(items, keyword, i') && items[i'] == r.value;
  }

  /** `final_dest_dir` for the company folder at `companyPath`: its first
      subfolder whose name holds the keyword, or the company folder itself.
      Nothing is created. */
  function Destination(companyPath: Path, company: Entry, keyword: string): Path {
    match FindSubfolder(company.children, keyword)
    case Some(sub) => companyPath + [sub.name]
    case None => companyPath
  }

  /** The destination is the company folder exactly when no subfolder name
      holds the keyword, and otherwise the first subfolder that does. */
  lemma DestinationSpec(companyPath: Path, company: Entry, keyword: string)
    ensures var d := Destination(companyPath, company, keyword);
      && (d == companyPath <==>
            forall i :: 0 <= i < |company.children| ==>
              !(company.children[i].isDir && Contains(company.children[i].name, keyword)))
      && (d != companyPath ==>
            exists i :: FirstSubfolderAt(company.children, keyword, i) &&
              d == companyPath + [company.children[i].name])
  {
    var d := Destination(companyPath, company, keyword);
    if d != companyPath {
      assert |d| == |companyPath| + 1;
    }
  }
}
