/** The naming contract the four scripts share: the organizer writes the
    canonical names the extractor looks for, and the collector recognises the
    files the extractor writes. */
module Pipeline {
  import opened Text
  import opened Listing
  import Organizer
  import Collector
  import Extractor

  /** The organizer's destination names are the extractor's canonical inputs. */
  lemma CanonicalNamesAgree()
    ensures Organizer.ScanName == Extractor.ScanFile
    ensures Organizer.SegmentationName == Extractor.MaskFile
  {
  }

  /** The collector's case-insensitive aggregate name matches the file the
      extractor writes at the root. */
  lemma AggregateNameMatches()
    ensures LowerStr(Extractor.AggregateFile) == Collector.AggregateName
  {
    LowerConcat("ALL_PATIENTS", Extractor.IndividualSuffix);
    assert LowerStr("ALL_PATIENTS") == "all_patients";
    assert LowerStr(Extractor.IndividualSuffix) == Extractor.IndividualSuffix;
  }

  /** The aggregate CSV a run writes sits directly inside the root, and the
      collector, listing that directory, copies it to its destination root. */
  lemma AggregateIsCollected(env: Extractor.Env, rootPath: string, root: seq<Folder>, src: string, dest: string)
    ensures var run := Extractor.Extract(env, rootPath, true, root);
      run.aggregate.Some? ==>
        var name := Extractor.AggregateFile;
        && run.aggregate.value.path == [rootPath, name]
        && Collector.EntryActions(src, dest, Folder(name, false, [])) == [CopyFile([src, name], [dest, name])]
  {
    Extractor.AggregateSpec(env, rootPath, root);
    AggregateNameMatches();
    Collector.EntryActionsSpec(src, dest, Folder(Extractor.AggregateFile, false, []));
  }

  /** Every per-patient CSV the extractor writes is a `.csv` file for the
      collector, whatever the patient's name. */
  lemma {:induction false} IndividualCsvIsCsv(patient: string)
    ensures Collector.IsCsv(patient + Extractor.IndividualSuffix)
  {
    var name := patient + Extractor.IndividualSuffix;
    LowerSuffix(name, 4);
    assert name[|name| - 4..] == ".csv";
    assert LowerStr(".csv") == ".csv";
  }
}
