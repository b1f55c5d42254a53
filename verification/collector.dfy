/** The CSV collector (`collect_radiomics_csv`): copies each patient directory's
    feature CSV into a like-named destination directory and the aggregate CSV
    into the destination root. */
module Collector {
  import opened Failures
  import opened Text
  import opened Listing

  const CsvSuffix := ".csv"
  /** "all_patients_radiomics_features.csv", spelled in two parts. */
  const AggregateName := "all_patients" + "_radiomics_features.csv"

  predicate IsCsv(name: string) { EndsWith(LowerStr(name), CsvSuffix) }

  /** The inner loop with its `break`: the index of the first `.csv` entry. */
  function FirstCsv(c: seq<Entry>): (r: Option<nat>)
    ensures r.None? <==> forall j :: 0 <= j < |c| ==> !IsCsv(c[j].name)
    ensures r.Some? ==> r.value < |c| && IsCsv(c[r.value].name)
    ensures r.Some? ==> forall j :: 0 <= j < r.value ==> !IsCsv(c[j].name)
  {
    if |c| == 0 then None
    else if IsCsv(c[0].name) then Some(0)
    else match FirstCsv(c[1..])
      case None => None
      case Some(k) => Some(k + 1)
  }

  /** The actions for one entry of the source root. A directory is handled as a
      patient directory whatever its name; only a plain file can be the
      aggregate. `copy2` into a directory keeps the file's name. */
  function EntryActions(src: string, dest: string, f: Folder): seq<Action> {
    if f.isDir then
      match FirstCsv(f.contents)
      case None => []
      case Some(k) =>
        var name := f.contents[k].name;
        [MakeDir([dest, f.name]), CopyFile([src, f.name, name], [dest, f.name, name])]
    else if LowerStr(f.name) == AggregateName then
      [CopyFile([src, f.name], [dest, f.name])]
    else []
  }

  function Collect(src: string, dest: string, root: seq<Folder>): (r: seq<Action>)
    ensures |r| >= 1 && r[0] == MakeDir([dest])
  {
    [MakeDir([dest])] + FlatMap(root, f => EntryActions(src, dest, f))
  }

  /** Per entry: a directory with a CSV yields exactly "create the like-named
      directory, copy its first CSV into it"; a directory without one, or a
      non-matching file, yields nothing; a file yields a copy to the root iff
      its lower-cased name is the aggregate's. */
  lemma EntryActionsSpec(src: string, dest: string, f: Folder)
    ensures f.isDir ==>
      (EntryActions(src, dest, f) == [] <==> forall j :: 0 <= j < |f.contents| ==> !IsCsv(f.contents[j].name))
    ensures f.isDir && EntryActions(src, dest, f) != [] ==>
      exists k :: 0 <= k < |f.contents| && IsCsv(f.contents[k].name) &&
        (forall j :: 0 <= j < k ==> !IsCsv(f.contents[j].name)) &&
        EntryActions(src, dest, f) ==
          [MakeDir([dest, f.name]),
           CopyFile([src, f.name, f.contents[k].name], [dest, f.name, f.contents[k].name])]
    ensures !f.isDir ==>
      (EntryActions(src, dest, f) == [CopyFile([src, f.name], [dest, f.name])] <==> LowerStr(f.name) == AggregateName)
    ensures !f.isDir && LowerStr(f.name) != AggregateName ==> EntryActions(src, dest, f) == []
  {
  }

  /** A destination patient directory is created only for a source directory of
      that name holding a CSV. */
  lemma CollectMakesDir(src: string, dest: string, root: seq<Folder>, p: string)
    ensures MakeDir([dest, p]) in Collect(src, dest, root) <==>
      exists i :: 0 <= i < |root| && root[i].isDir && root[i].name == p &&
        exists j :: 0 <= j < |root[i].contents| && IsCsv(root[i].contents[j].name)
  {
    FlatMapMember(root, f => EntryActions(src, dest, f), MakeDir([dest, p]));
  }

  /** Every copy is either a patient's first CSV, kept under its own name in the
      like-named destination directory, or the aggregate file copied to the
      destination root. */
  lemma CollectCopies(src: string, dest: string, root: seq<Folder>, s: Path, d: Path)
    ensures CopyFile(s, d) in Collect(src, dest, root) <==>
      exists i :: 0 <= i < |root| &&
        ((root[i].isDir && FirstCsv(root[i].contents).Some? &&
          var name := root[i].contents[FirstCsv(root[i].contents).value].name;
          s == [src, root[i].name, name] && d == [dest, root[i].name, name]) ||
         (!root[i].isDir && LowerStr(root[i].name) == AggregateName &&
          s == [src, root[i].name] && d == [dest, root[i].name]))
  {
    FlatMapMember(root, f => EntryActions(src, dest, f), CopyFile(s, d));
  }
}
