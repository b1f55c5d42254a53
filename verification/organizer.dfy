/** The directory reorganizer (`organize_data_for_radiomics`): for every patient
    directory of a source root it picks the segmentation file and the largest
    scan volume and plans copying them, under fixed names, into a like-named
    directory of the destination root. */
module Organizer {
  import opened Failures
  import opened Text
  import opened Listing

  const SegmentationSuffix := ".seg.nrrd"
  const VolumeSuffix := ".nrrd"
  const ScanName := "scan.nrrd"
  const SegmentationName := "segmentation.nrrd"

  datatype Kind = Segmentation | ScanCandidate | Ignored

  /** The two tests of the classification loop, in their `if`/`elif` order, on
      the lower-cased file name. */
  function Classify(name: string): (k: Kind)
    ensures k == Segmentation <==> EndsWith(LowerStr(name), SegmentationSuffix)
    ensures k == ScanCandidate <==>
      EndsWith(LowerStr(name), VolumeSuffix) && !EndsWith(LowerStr(name), SegmentationSuffix)
    ensures k == Ignored <==> !EndsWith(LowerStr(name), VolumeSuffix)
  {
    var lower := LowerStr(name);
    if EndsWith(lower, SegmentationSuffix) then
      EndsWithTrans(lower, SegmentationSuffix, VolumeSuffix);
      Segmentation
    else if EndsWith(lower, VolumeSuffix) then ScanCandidate
    else Ignored
  }

  predicate IsScan(e: Entry) { Classify(e.name) == ScanCandidate }
  predicate IsSegmentation(e: Entry) { Classify(e.name) == Segmentation }

  /** The entries satisfying `p` in listing order, each appended as the loop
      reaches it (the construction of `scan_candidates`). */
  function Keep(c: seq<Entry>, p: Entry -> bool): (r: seq<Entry>)
    ensures |r| <= |c|
    ensures forall k :: 0 <= k < |r| ==> p(r[k])
  {
    if |c| == 0 then []
    else Keep(c[..|c| - 1], p) + (if p(c[|c| - 1]) then [c[|c| - 1]] else [])
  }

  /** Python's `max(..., key=size)`: scans left to right and replaces the current
      best only by a strictly larger one, so the first maximal element wins. */
  function MaxBySize(s: seq<Entry>): (i: nat)
    requires |s| > 0
    ensures i < |s|
    ensures forall j :: 0 <= j < |s| ==> s[j].size <= s[i].size
    ensures forall j :: 0 <= j < i ==> s[j].size < s[i].size
  {
    if |s| == 1 then 0
    else
      var best := MaxBySize(s[..|s| - 1]);
      if s[|s| - 1].size > s[best].size then |s| - 1 else best
  }

  /** The index-level selection rule: the position, in the listing, of the first
      of the largest entries satisfying `p`. */
  function SelectLargest(c: seq<Entry>, p: Entry -> bool): (r: Option<nat>)
    ensures r.None? <==> forall j :: 0 <= j < |c| ==> !p(c[j])
    ensures r.Some? ==> r.value < |c| && p(c[r.value])
    ensures r.Some? ==> forall j :: 0 <= j < |c| && p(c[j]) ==> c[j].size <= c[r.value].size
    ensures r.Some? ==> forall j :: 0 <= j < r.value && p(c[j]) ==> c[j].size < c[r.value].size
  {
    if |c| == 0 then None
    else
      var prev := SelectLargest(c[..|c| - 1], p);
      var last := |c| - 1;
      if !p(c[last]) then prev
      else if prev.None? then Some(last)
      else if c[last].size > c[prev.value].size then Some(last)
      else prev
  }

  /** The position of the last entry satisfying `p`: the loop overwrites its
      choice on every match (`segmentation_source_path`). */
  function LastWhere(c: seq<Entry>, p: Entry -> bool): (r: Option<nat>)
    ensures r.None? <==> forall j :: 0 <= j < |c| ==> !p(c[j])
    ensures r.Some? ==> r.value < |c| && p(c[r.value])
    ensures r.Some? ==> forall j :: r.value < j < |c| ==> !p(c[j])
  {
    if |c| == 0 then None
    else if p(c[|c| - 1]) then Some(|c| - 1)
    else LastWhere(c[..|c| - 1], p)
  }

  datatype SkipReason = NoScanCandidate | NoSegmentation

  /** What happens to one patient directory: skipped with a warning, or the
      names (inside that directory) of the scan and segmentation to copy. */
  datatype PatientPlan = Skip(reason: SkipReason) | Copy(scanSrc: string, segSrc: string)

  /** The decision for one patient directory. The scan-candidate check comes
      first and is made before the segmentation is looked at. */
  function Plan(c: seq<Entry>): PatientPlan {
    var candidates := Keep(c, IsScan);
    if |candidates| == 0 then Skip(NoScanCandidate)
    else
      var largest := candidates[MaxBySize(candidates)];
      match LastWhere(c, IsSegmentation)
      case None => Skip(NoSegmentation)
      case Some(j) => Copy(largest.name, c[j].name)
  }

  /** The list-then-max computation of the source picks the same entry as the
      index-level selection rule. */
  lemma {:induction false} KeepMaxIsSelected(c: seq<Entry>, p: Entry -> bool)
    ensures |Keep(c, p)| == 0 <==> SelectLargest(c, p).None?
    ensures |Keep(c, p)| > 0 ==>
      Keep(c, p)[MaxBySize(Keep(c, p))] == c[SelectLargest(c, p).value]
  {
    if |c| > 0 {
      var init := c[..|c| - 1];
      KeepMaxIsSelected(init, p);
      var last := c[|c| - 1];
      var ci := Keep(init, p);
      var cs := Keep(c, p);
      if !p(last) {
        assert cs == ci;
        assert SelectLargest(c, p) == SelectLargest(init, p);
        if |ci| > 0 {
          assert init[SelectLargest(init, p).value] == c[SelectLargest(init, p).value];
        }
      } else if |ci| == 0 {
        assert cs == [last];
        assert SelectLargest(c, p) == Some(|c| - 1);
      } else {
        assert cs == ci + [last];
        assert cs[..|cs| - 1] == ci;
        var m := MaxBySize(ci);
        var prev := SelectLargest(init, p).value;
        assert ci[m] == init[prev] == c[prev];
        assert cs[m] == ci[m];
      }
    }
  }

  /** The two skip reasons, in the order the source tests them. */
  lemma PlanSkips(c: seq<Entry>)
    ensures Plan(c) == Skip(NoScanCandidate) <==> forall j :: 0 <= j < |c| ==> !IsScan(c[j])
    ensures Plan(c) == Skip(NoSegmentation) <==>
      (exists j :: 0 <= j < |c| && IsScan(c[j])) &&
      (forall j :: 0 <= j < |c| ==> !IsSegmentation(c[j]))
  {
    KeepMaxIsSelected(c, IsScan);
  }

  /** A copy plan names the first largest scan candidate and the last
      segmentation. */
  lemma PlanCopies(c: seq<Entry>)
    ensures Plan(c).Copy? ==>
      exists k, m :: 0 <= k < |c| && 0 <= m < |c| &&
        Plan(c) == Copy(c[k].name, c[m].name) &&
        IsScan(c[k]) &&
        (forall j :: 0 <= j < |c| && IsScan(c[j]) ==> c[j].size <= c[k].size) &&
        (forall j :: 0 <= j < k && IsScan(c[j]) ==> c[j].size < c[k].size) &&
        IsSegmentation(c[m]) &&
        (forall j :: m < j < |c| ==> !IsSegmentation(c[j]))
  {
    KeepMaxIsSelected(c, IsScan);
    if Plan(c).Copy? {
      var k := SelectLargest(c, IsScan).value;
      var m := LastWhere(c, IsSegmentation).value;
      assert Plan(c) == Copy(c[k].name, c[m].name);
    }
  }

  /** The scan a copy plan names never ends in `.seg.nrrd`; the segmentation
      always does. */
  lemma PlanSuffixes(c: seq<Entry>)
    ensures Plan(c).Copy? ==>
      !EndsWith(LowerStr(Plan(c).scanSrc), SegmentationSuffix) &&
      EndsWith(LowerStr(Plan(c).segSrc), SegmentationSuffix)
  {
    KeepMaxIsSelected(c, IsScan);
    if Plan(c).Copy? {
      var k := SelectLargest(c, IsScan).value;
      var m := LastWhere(c, IsSegmentation).value;
      assert Plan(c) == Copy(c[k].name, c[m].name);
      assert IsScan(c[k]) && IsSegmentation(c[m]);
    }
  }

  /** The full selection rule: a patient is copied iff it has a scan candidate and
      a segmentation; the scan is the first of the largest candidates and is never
      a segmentation; the segmentation is the last one listed. */
  lemma PlanSpec(c: seq<Entry>)
    ensures Plan(c) == Skip(NoScanCandidate) <==> forall j :: 0 <= j < |c| ==> !IsScan(c[j])
    ensures Plan(c) == Skip(NoSegmentation) <==>
      (exists j :: 0 <= j < |c| && IsScan(c[j])) &&
      (forall j :: 0 <= j < |c| ==> !IsSegmentation(c[j]))
    ensures Plan(c).Copy? ==>
      exists k, m :: 0 <= k < |c| && 0 <= m < |c| &&
        Plan(c) == Copy(c[k].name, c[m].name) &&
        IsScan(c[k]) &&
        (forall j :: 0 <= j < |c| && IsScan(c[j]) ==> c[j].size <= c[k].size) &&
        (forall j :: 0 <= j < k && IsScan(c[j]) ==> c[j].size < c[k].size) &&
        IsSegmentation(c[m]) &&
        (forall j :: m < j < |c| ==> !IsSegmentation(c[j]))
    ensures Plan(c).Copy? ==>
      !EndsWith(LowerStr(Plan(c).scanSrc), SegmentationSuffix) &&
      EndsWith(LowerStr(Plan(c).segSrc), SegmentationSuffix)
  {
    PlanSkips(c);
    PlanCopies(c);
    PlanSuffixes(c);
  }

  /** The actions for one entry of the source root: nothing for a plain file or
      a skipped patient; otherwise create `dest/<patient>` and copy the two
      files into it under their canonical names. */
  function PatientActions(src: string, dest: string, f: Folder): seq<Action> {
    if !f.isDir then []
    else
      match Plan(f.contents)
      case Skip(_) => []
      case Copy(scan, seg) =>
        [ MakeDir([dest, f.name]),
          CopyFile([src, f.name, scan], [dest, f.name, ScanName]),
          CopyFile([src, f.name, seg], [dest, f.name, SegmentationName]) ]
  }

  /** The whole run: create the destination root, then handle each entry of the
      source root in listing order. */
  function Organize(src: string, dest: string, root: seq<Folder>): (r: seq<Action>)
    ensures |r| >= 1 && r[0] == MakeDir([dest])
  {
    [MakeDir([dest])] + FlatMap(root, f => PatientActions(src, dest, f))
  }

  /** A destination patient directory is created iff that patient is a source
      directory whose plan is a copy; the patient name is kept. */
  lemma OrganizeMakesDir(src: string, dest: string, root: seq<Folder>, p: string)
    ensures MakeDir([dest, p]) in Organize(src, dest, root) <==>
      exists i :: 0 <= i < |root| && root[i].isDir && root[i].name == p && Plan(root[i].contents).Copy?
  {
    FlatMapMember(root, f => PatientActions(src, dest, f), MakeDir([dest, p]));
  }

  /** Every copy goes from a selected file of a source patient directory to
      `dest/<patient>/scan.nrrd` or `dest/<patient>/segmentation.nrrd`, and each
      copying patient gets both. */
  lemma OrganizeCopies(src: string, dest: string, root: seq<Folder>, s: Path, d: Path)
    ensures CopyFile(s, d) in Organize(src, dest, root) <==>
      exists i :: 0 <= i < |root| && root[i].isDir && Plan(root[i].contents).Copy? &&
        var p, plan := root[i].name, Plan(root[i].contents);
        (s == [src, p, plan.scanSrc] && d == [dest, p, ScanName]) ||
        (s == [src, p, plan.segSrc] && d == [dest, p, SegmentationName])
  {
    FlatMapMember(root, f => PatientActions(src, dest, f), CopyFile(s, d));
  }

  /** Per entry: a plain file yields nothing; a directory yields nothing iff it
      has no scan candidate or no segmentation, and otherwise exactly "create
      `dest/<patient>`, copy the first largest scan candidate to `scan.nrrd`,
      copy the last segmentation to `segmentation.nrrd`", in that order. */
  lemma PatientActionsSpec(src: string, dest: string, f: Folder)
    ensures !f.isDir ==> PatientActions(src, dest, f) == []
    ensures f.isDir ==>
      (PatientActions(src, dest, f) == [] <==>
         SelectLargest(f.contents, IsScan).None? || LastWhere(f.contents, IsSegmentation).None?)
    ensures f.isDir && SelectLargest(f.contents, IsScan).Some? && LastWhere(f.contents, IsSegmentation).Some? ==>
      var c := f.contents;
      PatientActions(src, dest, f) ==
        [ MakeDir([dest, f.name]),
          CopyFile([src, f.name, c[SelectLargest(c, IsScan).value].name], [dest, f.name, ScanName]),
          CopyFile([src, f.name, c[LastWhere(c, IsSegmentation).value].name], [dest, f.name, SegmentationName]) ]
  {
    KeepMaxIsSelected(f.contents, IsScan);
  }

  /** Every action for an entry creates or writes a path inside
      `dest/<entry name>`. */
  lemma PatientActionsTargets(src: string, dest: string, f: Folder)
    ensures forall x :: x in PatientActions(src, dest, f) ==>
      |Target(x)| >= 2 && Target(x)[..2] == [dest, f.name]
  {
    if f.isDir && Plan(f.contents).Copy? {
      var plan := Plan(f.contents);
      var scan := CopyFile([src, f.name, plan.scanSrc], [dest, f.name, ScanName]);
      var seg := CopyFile([src, f.name, plan.segSrc], [dest, f.name, SegmentationName]);
      assert PatientActions(src, dest, f) == [MakeDir([dest, f.name]), scan, seg];
      assert Target(scan)[..2] == [dest, f.name];
      assert Target(seg)[..2] == [dest, f.name];
    }
  }

  /** Within one entry the patient directory is created before both copies. */
  lemma PatientActionsDirsFirst(src: string, dest: string, f: Folder)
    ensures DirsFirst(PatientActions(src, dest, f))
  {
    var acts := PatientActions(src, dest, f);
    if acts != [] {
      forall j | 0 <= j < |acts| && acts[j].CopyFile?
        ensures |acts[j].dst| > 0 && MakeDir(acts[j].dst[..|acts[j].dst| - 1]) in acts[..j]
      {
        assert acts[..j][0] == MakeDir([dest, f.name]);
        assert acts[j].dst[..2] == [dest, f.name];
      }
    }
  }

  /** Every copy of the plan comes after the creation of the directory it
      writes into: the destination root first, then `dest/<patient>` ahead of
      that patient's two copies. */
  lemma OrganizeDirsFirst(src: string, dest: string, root: seq<Folder>)
    ensures DirsFirst(Organize(src, dest, root))
  {
    var g := f => PatientActions(src, dest, f);
    forall i | 0 <= i < |root| ensures DirsFirst(g(root[i])) {
      PatientActionsDirsFirst(src, dest, root[i]);
    }
    FlatMapDirsFirst(root, g);
    DirsFirstConcat([MakeDir([dest])], FlatMap(root, g));
  }

  /** With the distinct names a directory listing has, no action of the plan
      occurs twice: each directory is created once and each file copied once. */
  lemma OrganizeOnce(src: string, dest: string, root: seq<Folder>)
    requires DistinctNames(root)
    ensures NoRepeats(Organize(src, dest, root))
  {
    var g := f => PatientActions(src, dest, f);
    forall i, j, x | 0 <= i < j < |root| && x in g(root[i]) ensures x !in g(root[j]) {
      PatientActionsTargets(src, dest, root[i]);
      PatientActionsTargets(src, dest, root[j]);
      assert root[i].name != root[j].name;
    }
    FlatMapNoRepeats(root, g);
    forall x | x in FlatMap(root, g) ensures x !in [MakeDir([dest])] {
      FlatMapMember(root, g, x);
      var i :| 0 <= i < |root| && x in g(root[i]);
      PatientActionsTargets(src, dest, root[i]);
    }
    NoRepeatsConcat([MakeDir([dest])], FlatMap(root, g));
  }

  // ---------------------------------------------------------------------------
  // A worked example: patient P1 holds a 10 MB and a 2 MB volume and one
  // segmentation, P2 holds no segmentation, and a plain file sits beside them.

  const P1Listing := [Entry("big.nrrd", false, 10_000_000), Entry("small.NRRD", false, 2_000_000),
                      Entry("tumor.seg.nrrd", false, 500)]
  const P2Listing := [Entry("a.nrrd", false, 7)]

  /** A name made of a stem with no upper-case letter and not ending in `.seg`,
      followed by a suffix, is classified by the lower-cased suffix. */
  lemma ClassifyBySuffix(stem: string, suffix: string, lower: string)
    requires LowerStr(stem) == stem && LowerStr(suffix) == lower && !EndsWith(stem, ".seg")
    requires lower == VolumeSuffix || lower == SegmentationSuffix
    ensures Classify(stem + suffix) == if lower == SegmentationSuffix then Segmentation else ScanCandidate
  {
    LowerConcat(stem, suffix);
    var l := LowerStr(stem + suffix);
    assert l == stem + lower;
    assert l[|l| - |lower|..] == lower;
  }

  lemma ExampleKinds()
    ensures Classify("big.nrrd") == ScanCandidate
    ensures Classify("small.NRRD") == ScanCandidate
    ensures Classify("tumor.seg.nrrd") == Segmentation
  {
    ExampleBig();
    ExampleSmall();
    ExampleTumor();
  }

  lemma ExampleBig()
    ensures Classify("big.nrrd") == ScanCandidate
  {
    assert LowerStr("big") == "big" && LowerStr(".nrrd") == ".nrrd";
    assert "big.nrrd" == "big" + ".nrrd";
    ClassifyBySuffix("big", ".nrrd", ".nrrd");
  }

  lemma ExampleSmall()
    ensures Classify("small.NRRD") == ScanCandidate
  {
    assert LowerStr("small") == "small" && LowerStr(".NRRD") == ".nrrd";
    assert "small.NRRD" == "small" + ".NRRD";
    assert "small"[1..] != ".seg";
    ClassifyBySuffix("small", ".NRRD", ".nrrd");
  }

  lemma ExampleTumor()
    ensures Classify("tumor.seg.nrrd") == Segmentation
  {
    assert LowerStr("tumor") == "tumor" && LowerStr(".seg.nrrd") == ".seg.nrrd";
    assert "tumor.seg.nrrd" == "tumor" + ".seg.nrrd";
    assert "tumor"[1..] != ".seg";
    ClassifyBySuffix("tumor", ".seg.nrrd", ".seg.nrrd");
  }

  lemma ExampleP1Plan()
    ensures Plan(P1Listing) == Copy("big.nrrd", "tumor.seg.nrrd")
  {
    var e1, e2, e3 := P1Listing[0], P1Listing[1], P1Listing[2];
    ExampleKinds();
    assert P1Listing[..2] == [e1, e2];
    assert [e1, e2][..1] == [e1];
    assert [e1][..0] == [];
    assert Keep([e1], IsScan) == [e1];
    assert Keep([e1, e2], IsScan) == [e1, e2];
    assert Keep(P1Listing, IsScan) == [e1, e2];
    assert MaxBySize([e1, e2]) == 0;
    assert LastWhere(P1Listing, IsSegmentation) == Some(2);
  }

  lemma ExampleP2Plan()
    ensures Plan(P2Listing) == Skip(NoSegmentation)
  {
    assert LowerStr("a.nrrd") == "a.nrrd";
    assert Classify("a.nrrd") == ScanCandidate;
    assert P2Listing[..0] == [];
    assert Keep(P2Listing, IsScan) == P2Listing;
    assert LastWhere(P2Listing, IsSegmentation) == None;
  }

  /** Three entries of which only the first produces actions. */
  lemma OrganizeOneOfThree(src: string, dest: string, f1: Folder, f2: Folder, f3: Folder)
    requires PatientActions(src, dest, f2) == [] && PatientActions(src, dest, f3) == []
    ensures Organize(src, dest, [f1, f2, f3]) == [MakeDir([dest])] + PatientActions(src, dest, f1)
  {
    var pa := f => PatientActions(src, dest, f);
    assert [f1, f2, f3][1..] == [f2, f3];
    assert [f2, f3][1..] == [f3];
    assert FlatMap([f3], pa) == [];
    assert FlatMap([f2, f3], pa) == [];
  }

  lemma ExampleActions()
    ensures PatientActions("src", "dst", Folder("P1", true, P1Listing))
      == [MakeDir(["dst", "P1"]),
          CopyFile(["src", "P1", "big.nrrd"], ["dst", "P1", "scan.nrrd"]),
          CopyFile(["src", "P1", "tumor.seg.nrrd"], ["dst", "P1", "segmentation.nrrd"])]
    ensures PatientActions("src", "dst", Folder("P2", true, P2Listing)) == []
    ensures PatientActions("src", "dst", Folder("notes.txt", false, [])) == []
  {
    ExampleP1Plan();
    ExampleP2Plan();
  }

  /** P1 is copied with its larger volume as the scan; P2 and the plain file
      leave no trace in the destination. */
  /** One action in front of three. */
  lemma ConsFour<T>(a: T, b: T, c: T, d: T)
    ensures [a] + [b, c, d] == [a, b, c, d]
  {
  }

  lemma ExampleOrganize()
    ensures Organize("src", "dst", [Folder("P1", true, P1Listing), Folder("P2", true, P2Listing),
                                    Folder("notes.txt", false, [])])
      == [MakeDir(["dst"]), MakeDir(["dst", "P1"]),
          CopyFile(["src", "P1", "big.nrrd"], ["dst", "P1", "scan.nrrd"]),
          CopyFile(["src", "P1", "tumor.seg.nrrd"], ["dst", "P1", "segmentation.nrrd"])]
  {
    ExampleActions();
    ConsFour(MakeDir(["dst"]), MakeDir(["dst", "P1"]),
             CopyFile(["src", "P1", "big.nrrd"], ["dst", "P1", "scan.nrrd"]),
             CopyFile(["src", "P1", "tumor.seg.nrrd"], ["dst", "P1", "segmentation.nrrd"]));
    OrganizeOneOfThree("src", "dst", Folder("P1", true, P1Listing), Folder("P2", true, P2Listing),
                       Folder("notes.txt", false, []));
  }
}
