/** The feature extractor (`extract_radiomics_features`): visits the patient
    directories of a root in sorted order, computes one feature record per
    patient through an external engine, isolates each patient's failure, and
    builds the aggregate table from the patients that succeeded. */
module Extractor {
  import opened Failures
  import opened Text
  import opened Sorting
  import opened Listing
  import opened Records
  import opened Tables

  const ScanFile := "scan.nrrd"
  const MaskFile := "segmentation.nrrd"
  const DiagnosticsPrefix := "diagnostics"
  const PatientIdKey := "PatientID"
  const IndividualSuffix := "_radiomics_features.csv"
  /** "ALL_PATIENTS_radiomics_features.csv", spelled in two parts. */
  const AggregateFile := "ALL_PATIENTS" + IndividualSuffix

  /** The fixed engine configuration: 3D features, foreground label 1, all
      image types and all feature classes enabled. */
  datatype Settings = Settings(force2D: bool, foregroundLabel: int, allImageTypes: bool, allFeatures: bool)
  const Config := Settings(false, 1, true, true)

  /** A loaded volume; only its number of components per voxel matters here. */
  datatype Image = Image(components: nat, id: int)

  /** The external collaborators, each of which may fail: reading a volume,
      selecting channel 0 with a cast to a 16-bit integer pixel type, running
      the feature engine, and writing a CSV file. */
  datatype Env = Env(
    readImage: Path -> Result<Image, string>,
    selectChannel0: Image -> Result<Image, string>,
    execute: (Settings, Image, Image) -> Result<Dict, string>,
    writeCsv: (Path, Table) -> Outcome<string>)

  /** The multi-channel repair: a scan with more than one component per voxel is
      replaced by its channel-0 selection; any other scan is passed unchanged. */
  function Normalize(env: Env, image: Image): Result<Image, string> {
    if image.components > 1 then env.selectChannel0(image) else Success(image)
  }

  /** The entries of an engine result that are features, not diagnostics. */
  function Features(m: map<string, Value>): map<string, Value> {
    map k | k in m && !StartsWith(k, DiagnosticsPrefix) :: m[k]
  }

  /** The engine's non-diagnostic keys, in the engine's order. */
  function FeatureKeys(result: Dict): seq<string> {
    Filter(Keys(result), Unprefixed(DiagnosticsPrefix))
  }

  /** The record kept for a patient: the engine's result without its diagnostic
      entries, with `PatientID` set to the folder name. */
  function BuildRecord(result: Dict, patient: string): (r: Dict)
    ensures HasKey(r, PatientIdKey)
    ensures forall i :: 0 <= i < |r| ==> !StartsWith(r[i].key, DiagnosticsPrefix)
    ensures ToMap(r) == Features(ToMap(result))[PatientIdKey := Str(patient)]
    ensures Keys(r) == if HasKey(result, PatientIdKey) then FeatureKeys(result)
                       else FeatureKeys(result) + [PatientIdKey]
  {
    var kept := DropPrefixed(result, DiagnosticsPrefix);
    assert !StartsWith(PatientIdKey, DiagnosticsPrefix);
    Put(kept, PatientIdKey, Str(patient))
  }

  /** The one-row table written next to the patient's volumes. */
  function IndividualTable(record: Dict): Table
    requires HasKey(record, PatientIdKey)
  {
    FromRecords([record], PatientIdKey)
  }

  /** The body of the `try` block: every step may raise, and the first failure
      is the patient's failure. The record is kept only once its individual
      CSV has been written. */
  function Attempt(env: Env, root: string, patient: string): (r: Result<Dict, string>)
  {
    var image :- env.readImage([root, patient, ScanFile]);
    var mask :- env.readImage([root, patient, MaskFile]);
    var input :- Normalize(env, image);
    var result :- env.execute(Config, input, mask);
    var record := BuildRecord(result, patient);
    match env.writeCsv([root, patient, patient + IndividualSuffix], IndividualTable(record))
    case Fail(e) => Failure(e)
    case Pass => Success(record)
  }

  datatype PatientOutcome =
    | Skipped(patient: string)
    | Failed(patient: string, reason: string)
    | Succeeded(patient: string, record: Dict)

  predicate HasCanonicalFiles(f: Folder) {
    HasName(f.contents, ScanFile) && HasName(f.contents, MaskFile)
  }

  /** One patient directory: skipped when a canonical file is missing, otherwise
      the outcome of the attempt. */
  function ProcessPatient(env: Env, root: string, f: Folder): (o: PatientOutcome)
    ensures o.patient == f.name
    ensures o.Skipped? <==> !HasCanonicalFiles(f)
    ensures o.Succeeded? ==> PatientIdKey in ToMap(o.record) && ToMap(o.record)[PatientIdKey] == Str(f.name)
  {
    if !HasCanonicalFiles(f) then Skipped(f.name)
    else
      match Attempt(env, root, f.name)
      case Success(record) => Succeeded(f.name, record)
      case Failure(e) => Failed(f.name, e)
  }

  function NameOf(f: Folder): string { f.name }
  function PatientOf(o: PatientOutcome): string { o.patient }
  predicate IsDirectory(f: Folder) { f.isDir }
  predicate IsSuccess(o: PatientOutcome) { o.Succeeded? }

  /** The directories of the root, in `sorted()` name order. */
  function PatientDirs(root: seq<Folder>): (r: seq<Folder>)
    ensures forall i :: 0 <= i < |r| ==> r[i].isDir
  {
    Filter(SortBy(root, NameOf), IsDirectory)
  }

  /** A table together with the path of the CSV file it is written to. */
  datatype CsvFile = CsvFile(path: Path, table: Table)

  /** A run: nothing for a root that is not a directory; otherwise every
      patient's outcome and the aggregate CSV, absent when no patient
      succeeded. */
  datatype Run =
    | NotADirectory
    | Completed(outcomes: seq<PatientOutcome>, aggregate: Option<CsvFile>)

  /** The outcome of every patient directory, in visiting order. */
  function Outcomes(env: Env, rootPath: string, root: seq<Folder>): (r: seq<PatientOutcome>)
    ensures |r| == |PatientDirs(root)|
    ensures forall i :: 0 <= i < |r| ==> r[i].patient == PatientDirs(root)[i].name
  {
    var dirs := PatientDirs(root);
    seq(|dirs|, i requires 0 <= i < |dirs| => ProcessPatient(env, rootPath, dirs[i]))
  }

  /** Every successful outcome's record maps `PatientID` to that patient. */
  predicate Labelled(outcomes: seq<PatientOutcome>) {
    forall i :: 0 <= i < |outcomes| && outcomes[i].Succeeded? ==>
      PatientIdKey in ToMap(outcomes[i].record) &&
      ToMap(outcomes[i].record)[PatientIdKey] == Str(outcomes[i].patient)
  }

  /** The records of the patients that succeeded, in visiting order. */
  function SuccessRecords(outcomes: seq<PatientOutcome>): (r: seq<Dict>)
  {
    var ok := Filter(outcomes, IsSuccess);
    seq(|ok|, i requires 0 <= i < |ok| => ok[i].record)
  }

  /** The aggregate table, absent when no patient succeeded. */
  function Aggregate(records: seq<Dict>): (t: Option<Table>)
    requires forall i :: 0 <= i < |records| ==> HasKey(records[i], PatientIdKey)
    ensures t.Some? <==> |records| > 0
    ensures t.Some? ==> t.value == FromRecords(records, PatientIdKey)
  {
    if |records| == 0 then None else Some(FromRecords(records, PatientIdKey))
  }

  /** The whole run over a root whose `isdir` test gave `rootIsDir` and whose
      listing is `root`. */
  function Extract(env: Env, rootPath: string, rootIsDir: bool, root: seq<Folder>): (run: Run)
    ensures !rootIsDir <==> run.NotADirectory?
  {
    if !rootIsDir then NotADirectory
    else
      var outcomes := Outcomes(env, rootPath, root);
      OutcomesLabelled(env, rootPath, root);
      SuccessRecordsSpec(outcomes);
      Completed(outcomes, AggregateCsv(rootPath, Aggregate(SuccessRecords(outcomes))))
  }

  /** The aggregate table, when there is one, is written as `AggregateFile`
      directly inside the root. */
  function AggregateCsv(rootPath: string, t: Option<Table>): (r: Option<CsvFile>)
    ensures r.Some? <==> t.Some?
    ensures r.Some? ==> r.value.table == t.value && r.value.path == [rootPath, AggregateFile]
  {
    if t.Some? then Some(CsvFile([rootPath, AggregateFile], t.value)) else None
  }

  /** The outcomes of a run carry their patient's name in their records. */
  lemma OutcomesLabelled(env: Env, rootPath: string, root: seq<Folder>)
    ensures Labelled(Outcomes(env, rootPath, root))
  {
    var dirs := PatientDirs(root);
    var outcomes := Outcomes(env, rootPath, root);
    forall i | 0 <= i < |outcomes| && outcomes[i].Succeeded?
      ensures PatientIdKey in ToMap(outcomes[i].record)
      ensures ToMap(outcomes[i].record)[PatientIdKey] == Str(outcomes[i].patient)
    {
      assert outcomes[i] == ProcessPatient(env, rootPath, dirs[i]);
    }
  }

  /** The success records are the records of the successful outcomes, one each,
      in order; there are some iff some outcome succeeded; each holds its
      patient's `PatientID` when the outcomes are labelled. */
  lemma SuccessRecordsSpec(outcomes: seq<PatientOutcome>)
    ensures var ok, rs := Filter(outcomes, IsSuccess), SuccessRecords(outcomes);
      && |rs| == |ok|
      && (forall i :: 0 <= i < |ok| ==> rs[i] == ok[i].record && ok[i] in outcomes)
      && (|rs| > 0 <==> exists o :: o in outcomes && o.Succeeded?)
      && (Labelled(outcomes) ==> forall i :: 0 <= i < |rs| ==>
            HasKey(rs[i], PatientIdKey) && ToMap(rs[i])[PatientIdKey] == Str(ok[i].patient))
  {
    var ok := Filter(outcomes, IsSuccess);
    forall i | 0 <= i < |ok| ensures ok[i] in outcomes {
      FilterMember(outcomes, IsSuccess, ok[i]);
    }
    if exists o :: o in outcomes && o.Succeeded? {
      var o :| o in outcomes && o.Succeeded?;
      FilterMember(outcomes, IsSuccess, o);
    }
    if Labelled(outcomes) {
      SuccessRecordsLabelled(outcomes);
    }
  }

  /** In a labelled run each collected record names its own patient. */
  lemma SuccessRecordsLabelled(outcomes: seq<PatientOutcome>)
    requires Labelled(outcomes)
    ensures var ok, rs := Filter(outcomes, IsSuccess), SuccessRecords(outcomes);
      forall i :: 0 <= i < |rs| ==>
        HasKey(rs[i], PatientIdKey) && ToMap(rs[i])[PatientIdKey] == Str(ok[i].patient)
  {
    var ok, rs := Filter(outcomes, IsSuccess), SuccessRecords(outcomes);
    forall i | 0 <= i < |rs|
      ensures HasKey(rs[i], PatientIdKey) && ToMap(rs[i])[PatientIdKey] == Str(ok[i].patient)
    {
      FilterMember(outcomes, IsSuccess, ok[i]);
      var k :| 0 <= k < |outcomes| && outcomes[k] == ok[i];
    }
  }

  /** A successful patient went through every step of the `try` block: both
      volumes were read, a multi-channel scan was replaced by its channel-0
      selection before the engine saw it, the engine ran with the fixed
      configuration, and the individual CSV holding the record was written. */
  lemma SucceededPipeline(env: Env, root: string, f: Folder)
    ensures ProcessPatient(env, root, f).Succeeded? ==> HasCanonicalFiles(f)
    ensures ProcessPatient(env, root, f).Succeeded? ==>
      var scan := env.readImage([root, f.name, ScanFile]);
      var mask := env.readImage([root, f.name, MaskFile]);
      && scan.Success? && mask.Success?
      && (scan.value.components > 1 ==> env.selectChannel0(scan.value).Success?)
      && var input := if scan.value.components > 1 then env.selectChannel0(scan.value).value else scan.value;
        var result := env.execute(Config, input, mask.value);
        && result.Success?
        && ProcessPatient(env, root, f).record == BuildRecord(result.value, f.name)
        && env.writeCsv([root, f.name, f.name + IndividualSuffix], IndividualTable(BuildRecord(result.value, f.name))) == Pass
  {
    if ProcessPatient(env, root, f).Succeeded? {
      assert Attempt(env, root, f.name).Success?;
    }
  }

  /** Conversely, a patient with both canonical files whose every step passes
      (both reads, the channel repair, the engine and the CSV write) succeeds,
      and its record is the engine result turned into a record. */
  lemma AllStepsPassSucceeds(env: Env, root: string, f: Folder, scan: Image, mask: Image, input: Image, result: Dict)
    ensures HasCanonicalFiles(f)
      && env.readImage([root, f.name, ScanFile]) == Success(scan)
      && env.readImage([root, f.name, MaskFile]) == Success(mask)
      && Normalize(env, scan) == Success(input)
      && env.execute(Config, input, mask) == Success(result)
      && env.writeCsv([root, f.name, f.name + IndividualSuffix], IndividualTable(BuildRecord(result, f.name))) == Pass
      ==> ProcessPatient(env, root, f) == Succeeded(f.name, BuildRecord(result, f.name))
  {
  }

  /** The individual table has `PatientID` first and the record's other keys
      after it in their dict order. */
  lemma IndividualColumns(record: Dict)
    requires HasKey(record, PatientIdKey)
    ensures IndividualTable(record).columns == [PatientIdKey] + Without(Keys(record), PatientIdKey)
  {
    assert [record][1..] == [];
    assert Columns([record]) == Keys(record);
  }

  /** The individual CSV of a patient has `PatientID` first and then the
      engine's non-diagnostic keys in the engine's order. */
  lemma IndividualColumnsFromResult(result: Dict, patient: string)
    ensures IndividualTable(BuildRecord(result, patient)).columns
      == [PatientIdKey] + Without(FeatureKeys(result), PatientIdKey)
  {
    var record := BuildRecord(result, patient);
    IndividualColumns(record);
    if !HasKey(result, PatientIdKey) {
      WithoutLast(FeatureKeys(result), PatientIdKey);
    }
  }

  // ---------------------------------------------------------------------------
  // Properties of a run.

  lemma PatientDirsSpec(root: seq<Folder>)
    ensures forall f :: f in PatientDirs(root) <==> f in root && f.isDir
    ensures SortedBy(PatientDirs(root), NameOf)
  {
    SortByCorrect(root, NameOf);
    var sorted := SortBy(root, NameOf);
    forall f ensures f in PatientDirs(root) <==> f in root && f.isDir {
      FilterMember(sorted, IsDirectory, f);
      assert f in sorted <==> f in multiset(sorted);
    }
    FilterSorted(sorted, IsDirectory, NameOf);
  }

  /** Each directory of the root gets exactly the outcome of processing that
      directory alone, every outcome belongs to a directory of the root, and the
      outcomes come in `sorted()` name order. */
  lemma OutcomesSpec(env: Env, rootPath: string, root: seq<Folder>)
    ensures var outcomes := Outcomes(env, rootPath, root);
      && (forall f :: f in root && f.isDir ==> ProcessPatient(env, rootPath, f) in outcomes)
      && (forall o :: o in outcomes ==>
            exists f :: f in root && f.isDir && o == ProcessPatient(env, rootPath, f))
      && SortedBy(outcomes, PatientOf)
  {
    PatientDirsSpec(root);
    var dirs := PatientDirs(root);
    var outcomes := Outcomes(env, rootPath, root);
    forall f | f in root && f.isDir ensures ProcessPatient(env, rootPath, f) in outcomes {
      var i :| 0 <= i < |dirs| && dirs[i] == f;
      assert outcomes[i] == ProcessPatient(env, rootPath, f);
    }
    forall o | o in outcomes ensures exists f :: f in root && f.isDir && o == ProcessPatient(env, rootPath, f) {
      var i :| 0 <= i < |outcomes| && outcomes[i] == o;
      assert dirs[i] in dirs;
    }
    forall i, j | 0 <= i < j < |outcomes| ensures StrLe(PatientOf(outcomes[i]), PatientOf(outcomes[j])) {
      assert PatientOf(outcomes[i]) == NameOf(dirs[i]);
    }
  }

  /** The aggregate's rows are exactly the records of the successful patients,
      one each, in visiting order, each naming its patient under `PatientID`; it
      exists iff some patient succeeded. */
  lemma AggregateSpec(env: Env, rootPath: string, root: seq<Folder>)
    ensures var run := Extract(env, rootPath, true, root);
      var ok := Filter(run.outcomes, IsSuccess);
      && (run.aggregate.Some? <==> exists o :: o in run.outcomes && o.Succeeded?)
      && (run.aggregate.Some? ==>
            && |run.aggregate.value.table.rows| == |ok|
            && (forall i :: 0 <= i < |ok| ==>
                  && ok[i] in run.outcomes
                  && run.aggregate.value.table.rows[i] == ToMap(ok[i].record)
                  && PatientIdKey in run.aggregate.value.table.rows[i]
                  && run.aggregate.value.table.rows[i][PatientIdKey] == Str(ok[i].patient))
            && run.aggregate.value.path == [rootPath, AggregateFile]
            && run.aggregate.value.table.columns[0] == PatientIdKey
            && Distinct(run.aggregate.value.table.columns))
  {
    var outcomes := Outcomes(env, rootPath, root);
    OutcomesLabelled(env, rootPath, root);
    SuccessRecordsSpec(outcomes);
    assert Extract(env, rootPath, true, root) == Completed(outcomes, AggregateCsv(rootPath, Aggregate(SuccessRecords(outcomes))));
  }

  /** The aggregate CSV has `PatientID` first and then every other key of the
      records once, in order of first appearance. */
  lemma AggregateColumns(records: seq<Dict>)
    requires forall i :: 0 <= i < |records| ==> HasKey(records[i], PatientIdKey)
    ensures Aggregate(records).Some? ==>
              Aggregate(records).value.columns
                == [PatientIdKey] + Without(Dedupe(AllKeys(records)), PatientIdKey)
  {
    if |records| > 0 {
      var t := FromRecords(records, PatientIdKey);
      ColumnsOrder(records);
      assert t.columns == [t.columns[0]] + t.columns[1..];
    }
  }

  /** A patient that succeeds has its row in the aggregate whatever happens to
      the other patients of the root. */
  lemma SucceededPatientHasRow(env: Env, rootPath: string, root: seq<Folder>, f: Folder)
    requires f in root && f.isDir
    ensures ProcessPatient(env, rootPath, f).Succeeded? ==>
      var run := Extract(env, rootPath, true, root);
      run.aggregate.Some? &&
      ToMap(ProcessPatient(env, rootPath, f).record) in run.aggregate.value.table.rows
  {
    if ProcessPatient(env, rootPath, f).Succeeded? {
      OutcomesSpec(env, rootPath, root);
      AggregateSpec(env, rootPath, root);
      var run := Extract(env, rootPath, true, root);
      var o := ProcessPatient(env, rootPath, f);
      var ok := Filter(run.outcomes, IsSuccess);
      FilterMember(run.outcomes, IsSuccess, o);
      var i :| 0 <= i < |ok| && ok[i] == o;
      assert run.aggregate.value.table.rows[i] == ToMap(o.record);
    }
  }

  /** Every aggregate row names, under `PatientID`, a directory of the root whose
      processing succeeded. */
  lemma RowOf(env: Env, rootPath: string, root: seq<Folder>, i: nat)
    ensures var run := Extract(env, rootPath, true, root);
      run.aggregate.Some? && i < |run.aggregate.value.table.rows| ==>
        exists g :: (g in root && g.isDir && ProcessPatient(env, rootPath, g).Succeeded? &&
          var row := run.aggregate.value.table.rows[i];
          PatientIdKey in row && row[PatientIdKey] == Str(g.name))
  {
    var run := Extract(env, rootPath, true, root);
    if run.aggregate.Some? && i < |run.aggregate.value.table.rows| {
      var ok := Filter(run.outcomes, IsSuccess);
      AggregateSpec(env, rootPath, root);
      OutcomesSpec(env, rootPath, root);
      assert ok[i] in run.outcomes;
      var g :| g in root && g.isDir && ok[i] == ProcessPatient(env, rootPath, g);
    }
  }

  /** A patient that is skipped (a canonical file is missing) or fails has no
      row in the aggregate. */
  lemma UnsuccessfulPatientHasNoRow(env: Env, rootPath: string, root: seq<Folder>, f: Folder)
    requires DistinctNames(root)
    requires f in root && f.isDir
    requires !ProcessPatient(env, rootPath, f).Succeeded?
    ensures var run := Extract(env, rootPath, true, root);
      run.aggregate.Some? ==>
        forall row :: row in run.aggregate.value.table.rows ==>
          PatientIdKey in row && row[PatientIdKey] != Str(f.name)
  {
    var run := Extract(env, rootPath, true, root);
    if run.aggregate.Some? {
      forall row | row in run.aggregate.value.table.rows
        ensures PatientIdKey in row && row[PatientIdKey] != Str(f.name)
      {
        var i :| 0 <= i < |run.aggregate.value.table.rows| && run.aggregate.value.table.rows[i] == row;
        RowOf(env, rootPath, root, i);
        var g :| g in root && g.isDir && ProcessPatient(env, rootPath, g).Succeeded? &&
          PatientIdKey in row && row[PatientIdKey] == Str(g.name);
        if g.name == f.name {
          SameName(root, f, g);
          assert false;
        }
      }
    }
  }

  lemma SameName(root: seq<Folder>, f: Folder, g: Folder)
    requires DistinctNames(root) && f in root && g in root && f.name == g.name
    ensures f == g
  {
    var i :| 0 <= i < |root| && root[i] == f;
    var j :| 0 <= j < |root| && root[j] == g;
    assert i == j;
  }

  /** Aggregate rows appear in `sorted()` order of their `PatientID`. */
  lemma RowsInNameOrder(env: Env, rootPath: string, root: seq<Folder>)
    ensures var run := Extract(env, rootPath, true, root);
      run.aggregate.Some? ==>
        var rows := run.aggregate.value.table.rows;
        forall i, j :: 0 <= i < j < |rows| ==>
          PatientIdKey in rows[i] && PatientIdKey in rows[j] &&
          rows[i][PatientIdKey].Str? && rows[j][PatientIdKey].Str? &&
          StrLe(rows[i][PatientIdKey].str, rows[j][PatientIdKey].str)
  {
    OutcomesSpec(env, rootPath, root);
    AggregateSpec(env, rootPath, root);
    var run := Extract(env, rootPath, true, root);
    FilterSorted(run.outcomes, IsSuccess, PatientOf);
  }
}
