/** A snapshot of the directories the organiser reads. `iterdir()` becomes a
    listing (a sequence of entries, in the order the system lists them),
    `is_dir()` a flag of each entry, and a path a sequence of components. */
module Fs {
  import opened Outcomes
  import opened Text

  type Path = seq<string>

  /** One directory entry; a directory carries its own listing. */
  datatype Entry = Entry(name: string, isDir: bool, children: seq<Entry>)

  /** str(path), components joined with the POSIX separator. */
  function PathString(p: Path): string {
    Join(p, "/")
  }

  /** The index of the last '.' in `name` (str.rfind). */
  function LastDot(name: string): (r: Option<nat>)
    ensures r.Some? ==> r.value < |name| && name[r.value] == '.'
    ensures r.Some? ==> forall j :: r.value < j < |name| ==> name[j] != '.'
    ensures r.None? ==> forall j :: 0 <= j < |name| ==> name[j] != '.'
  {
    if name == [] then None
    else if name[|name| - 1] == '.' then Some(|name| - 1)
    else LastDot(name[..|name| - 1])
  }

  /** Path.suffix: from the last '.' to the end, provided that dot is neither
      the first nor the last character of the name; otherwise empty. */
  function Suffix(name: string): (r: string)
    ensures r != [] ==> 2 <= |r| < |name| && r == name[|name| - |r|..]
    ensures r != [] ==> r[0] == '.' && forall j :: 1 <= j < |r| ==> r[j] != '.'
    ensures r == [] ==> forall i :: 0 < i < |name| - 1 && name[i] == '.' ==>
              exists j :: i < j < |name| && name[j] == '.'
  {
    match LastDot(name)
    case Some(i) => if 0 < i < |name| - 1 then name[i..] else []
    case None => []
  }

  /** A name "stem.ext" whose extension holds no dot, after a non-empty
      stem, has the suffix ".ext". */
  lemma SuffixOfExtension(stem: string, ext: string)
    requires stem != [] && ext != []
    requires forall j :: 0 <= j < |ext| ==> ext[j] != '.'
    ensures Suffix(stem + "." + ext) == "." + ext
  {
    var name := stem + "." + ext;
    assert name[|stem|] == '.';
    assert forall j :: |stem| < j < |name| ==> name[j] == ext[j - |stem| - 1];
    assert LastDot(name) == Some(|stem|);
    assert name[|stem|..] == "." + ext;
  }
}
