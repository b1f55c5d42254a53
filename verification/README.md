# Radiomics data-wrangling scripts, modelled in Dafny

The repository holds four independent scripts of a radiomics workflow. Each one
contains a small piece of deterministic decision logic wrapped in filesystem,
imaging and plotting calls. This project models that logic as pure functions
over abstract inputs and proves what the scripts promise.

- **Directory reorganizer** (`data_organizer.py`, module `Organizer`). For every
  patient directory it classifies files, case-insensitively, as segmentation
  (`.seg.nrrd`), scan candidate (any other `.nrrd`) or ignored. It picks the
  largest scan candidate (the first of equals) and the last segmentation. It
  then either skips the patient or plans copying both files to
  `dest/<patient>/scan.nrrd` and `dest/<patient>/segmentation.nrrd`.
- **CSV collector** (`csv_orginizer.py`, module `Collector`). A directory entry
  yields its first `.csv` file in listing order, copied into a like-named
  destination directory. A plain file is copied to the destination root when its
  lower-cased name is `all_patients_radiomics_features.csv`.
- **Feature extractor** (`radiomics_extractor.py`, modules `Extractor`,
  `Records`, `Tables`). Patient directories are visited in `sorted()` order. A
  patient without either `scan.nrrd` or `segmentation.nrrd` is skipped. Every other
  step may fail for one patient without affecting the others: reading, the
  channel-0 repair of a multi-channel scan, the feature engine, and writing the
  individual CSV. A record drops the engine's `diagnostics*` keys and gets
  `PatientID`, which becomes the first column. The aggregate table exists iff
  some patient succeeded and holds exactly their records.
- **Slice viewer** (`mask_inspect.py`, module `Viewer`). The state is the slice
  index, the mask switch and the last readout. Scroll and key events move the
  index with clamping, `m` toggles the mask, and pointer motion updates the
  readout only inside the image. The title and the overlay's transparency rule
  are modelled as well.

Directory listings are sequences of `Entry(name, isDir, size)` and
`Folder(name, isDir, contents)` (module `Listing`). Their order is an input,
because `os.listdir` promises none. The reorganizer and collector return a plan
of `MakeDir`/`CopyFile` actions instead of touching the disk. The extractor's
external collaborators are the fields of an `Env` value: volume reading,
channel-0 selection, the feature engine and CSV writing. Each is a total
function returning success or failure. Python dicts are ordered association
lists with distinct keys (`Records.Dict`); `Records.ToMap` gives the mapping a
dict denotes, and dict operations are stated against it. pandas tables are a column order plus
one map per row (`Tables.Table`). `str.lower()`, suffix and prefix tests,
`sorted()` order on strings and decimal printing are in module `Text`. Module
`Pipeline` states the naming contract the scripts share.

Some details of the code that the model keeps exactly:

- With several `.seg.nrrd` files the last one listed is used, because each one
  found overwrites the previous choice (data_organizer.py:38-39).
- The scan-candidate check comes before the segmentation check, so a patient
  with neither is skipped for lack of a scan candidate (data_organizer.py:48-59).
- A patient's record joins the aggregate only after its individual CSV has
  been written; a failed write is caught like any other error and leaves the
  patient out (radiomics_extractor.py:121-131).
- Patient directories are visited in `sorted()` order, which compares names
  code point by code point (radiomics_extractor.py:63).

## Model

| member | source | states |
|---|---|---|
| Text.LowerStr | data_organizer.py:38-43 | a lower-cased name has the same length and no capital letter; it differs from the name only where the name has a capital, which becomes the small letter at the same place in the alphabet |
| Text.LowerIdempotent | mask_inspect.py:85 | lower-casing a lower-cased text changes nothing |
| Text.StrLeTotal | radiomics_extractor.py:63 | Python's string order compares every pair of names one way or the other |
| Text.StrLeTrans | radiomics_extractor.py:63 | Python's string order is transitive |
| Text.StrLeAntisym | radiomics_extractor.py:63 | two names ordered both ways are equal, so sorted distinct names are strictly increasing |
| Text.DecimalRoundTrip | mask_inspect.py:68 | the decimal text printed for a number reads back as that number |
| Text.DecimalNoLeadingZero | mask_inspect.py:68 | printed numbers carry no zero padding: a leading '0' occurs only for zero itself |
| Sorting.SortByCorrect | radiomics_extractor.py:63 | visiting `sorted(os.listdir(...))` visits a permutation of the listing in ascending name order |
| Sorting.FilterSorted | radiomics_extractor.py:63-68 | skipping the non-directories keeps the remaining entries in sorted order |
| Organizer.Classify | data_organizer.py:38-45 | a name is a segmentation iff its lower-cased form ends in `.seg.nrrd`; it is a scan candidate iff it ends in `.nrrd` but not in `.seg.nrrd`; it is ignored iff it does not end in `.nrrd` |
| Organizer.MaxBySize | data_organizer.py:53 | `max` by size returns an element no smaller than any other and strictly larger than all before it, so the first maximal one |
| Organizer.Keep | data_organizer.py:42-45 | every collected entry is a scan candidate, and there are at most as many as files |
| Organizer.SelectLargest | data_organizer.py:42-53 | the chosen scan index, if any, is a scan candidate of maximal size with no equally large candidate before it; there is none iff the listing has no candidate |
| Organizer.LastWhere | data_organizer.py:37-40 | the segmentation used is a segmentation with no other segmentation after it in listing order; there is none iff no file is a segmentation |
| Organizer.KeepMaxIsSelected | data_organizer.py:42-53 | building the candidate list and taking `max` over it picks exactly the entry the index-level selection rule names |
| Organizer.PlanSpec | data_organizer.py:38-59 | skip for lack of a scan iff no candidate exists, whatever the segmentations; skip for lack of a segmentation iff candidates exist but no segmentation; otherwise copy the first largest candidate and the last segmentation, and the chosen scan never ends in `.seg.nrrd` |
| Organizer.Organize | data_organizer.py:20 | the plan starts by creating the destination root |
| Organizer.OrganizeMakesDir | data_organizer.py:57-64 | `dest/<p>` is created iff `p` is a source directory whose plan is a copy, so a skipped patient gets no directory |
| Organizer.OrganizeCopies | data_organizer.py:27-72 | the only copies go from a copying patient's selected files to `dest/<patient>/scan.nrrd` and `dest/<patient>/segmentation.nrrd`, with the patient name unchanged; plain files of the root produce none |
| Organizer.PatientActionsSpec | data_organizer.py:27-72 | a plain file yields nothing; a directory yields nothing iff it has no scan candidate or no segmentation, otherwise exactly: create `dest/<patient>`, copy the first largest candidate to `scan.nrrd`, copy the last segmentation to `segmentation.nrrd`, in that order |
| Organizer.OrganizeDirsFirst | data_organizer.py:20-72 | every copy of the plan comes after the creation of the directory it writes into |
| Organizer.OrganizeOnce | data_organizer.py:27-72 | for a listing with distinct names, no action of the plan occurs twice: each directory is created once and each file copied once |
| Organizer.ExampleSmall | data_organizer.py:38-45 | `small.NRRD` is a scan candidate: the suffix test ignores case |
| Organizer.ExampleTumor | data_organizer.py:38-40 | `tumor.seg.nrrd` is a segmentation, not a scan candidate, although it also ends in `.nrrd` |
| Organizer.ExampleP1Plan | data_organizer.py:37-72 | with a 10 MB volume, a 2 MB volume in upper case and one segmentation, the 10 MB volume is the scan |
| Organizer.ExampleP2Plan | data_organizer.py:57-59 | a patient with a volume but no segmentation is skipped |
| Organizer.ExampleOrganize | data_organizer.py:23-72 | on that root the plan copies only P1's two files; P2 and the plain file leave nothing |
| Collector.FirstCsv | csv_orginizer.py:29-39 | the chosen file is a `.csv` (case-insensitive) with no `.csv` before it; there is none iff the directory holds no `.csv` |
| Collector.Collect | csv_orginizer.py:18 | the plan starts by creating the destination root |
| Collector.EntryActionsSpec | csv_orginizer.py:26-43 | a directory yields nothing iff it holds no CSV, otherwise exactly "create `dest/<dir>`, copy its first CSV there under its own name"; a file yields one copy to the root iff its lower-cased name is the aggregate's, else nothing |
| Collector.CollectMakesDir | csv_orginizer.py:27-33 | `dest/<p>` is created iff `p` is a source directory holding a CSV |
| Collector.CollectCopies | csv_orginizer.py:27-43 | every copy is a directory's first CSV into the like-named destination directory, keeping its name, or an aggregate-named plain file into the root; a directory named like the aggregate is treated as a directory |
| Records.DropPrefixed | radiomics_extractor.py:105 | no kept key has the prefix; the kept keys are exactly the input keys lacking it, in the input's order; the kept dict denotes exactly the entries of the input whose key lacks it |
| Records.Put | radiomics_extractor.py:108 | after `d[k] = v` the dict denotes the old mapping updated at `k`; an existing key keeps its position, a new one is appended |
| Records.Replace | radiomics_extractor.py:108 | assigning an existing key keeps every key in place and updates the mapping at that key only |
| Records.Append | radiomics_extractor.py:108 | assigning a new key appends it after all existing keys and extends the mapping by it |
| Records.MoveToFront | radiomics_extractor.py:117-118 | `pop` then `insert(0, ...)` puts the column first, keeps the other columns in order, and keeps the set of columns |
| Records.ToMap | radiomics_extractor.py:114 | a row holds exactly the record's keys, each with the value stored under it in the record |
| Tables.AppendNew | radiomics_extractor.py:142 | adding a record's keys keeps the existing columns as a prefix, adds exactly the missing keys and keeps columns distinct |
| Tables.AppendNewOrder | radiomics_extractor.py:142 | adding keys to distinct columns gives the first-appearance order of the columns followed by the keys |
| Tables.UnionKeys | radiomics_extractor.py:142 | folding the keys of a list of dicts into a column list keeps the old columns as a prefix, adds every key of every dict and nothing else, and keeps columns distinct |
| Tables.UnionKeysOrder | radiomics_extractor.py:142 | folding dicts in list order gives the first-appearance order of the columns followed by every dict's keys |
| Tables.Columns | radiomics_extractor.py:142 | a table built from a list of dicts has every key of every dict as a column, each exactly once, led by the first dict's keys in their order |
| Tables.DedupeMembers | radiomics_extractor.py:142 | the first-appearance order of a key list holds exactly its keys |
| Tables.DedupeDistinct | radiomics_extractor.py:142 | the first-appearance order of a key list holds each key once |
| Tables.DedupeOfDistinct | radiomics_extractor.py:142 | a key list without repeats is its own first-appearance order |
| Tables.ColumnsOrder | radiomics_extractor.py:142 | the columns of a table built from a list of dicts are all their keys, dict after dict, each kept at its first appearance |
| Tables.FromRecords | radiomics_extractor.py:142-146 | the table puts `PatientID` first, has distinct columns covering every record key, and holds one row per record equal to that record |
| Extractor.BuildRecord | radiomics_extractor.py:105-108 | the record has no `diagnostics*` key and denotes the engine's non-diagnostic entries with `PatientID` set to the folder name, even if the engine returned that key; its keys are the engine's non-diagnostic keys in the engine's order, with `PatientID` appended unless the engine returned it |
| Extractor.ProcessPatient | radiomics_extractor.py:69-131 | the outcome names the folder; it is a skip iff `scan.nrrd` or `segmentation.nrrd` is missing; a success's record maps `PatientID` to the folder name |
| Extractor.AllStepsPassSucceeds | radiomics_extractor.py:76-126 | a patient with both files whose reads, channel repair, engine run and CSV write all succeed is a success whose record is built from that engine result |
| Extractor.SucceededPipeline | radiomics_extractor.py:81-126 | a success read both volumes, passed a multi-channel scan through channel-0 selection and a single-channel one unchanged, ran the engine with the fixed settings, and wrote the individual CSV |
| Extractor.IndividualColumns | radiomics_extractor.py:114-118 | the individual table's columns are `PatientID` followed by the record's other keys in dict order |
| Extractor.IndividualColumnsFromResult | radiomics_extractor.py:105-118 | a patient's CSV has `PatientID` first and then the engine's non-diagnostic keys in the engine's order |
| Extractor.PatientDirs | radiomics_extractor.py:63-68 | only directories of the root are visited |
| Extractor.Outcomes | radiomics_extractor.py:63-131 | there is one outcome per visited directory, in visiting order, each naming that directory |
| Extractor.OutcomesLabelled | radiomics_extractor.py:108-126 | every successful outcome's record holds its own patient's name under `PatientID` |
| Extractor.SuccessRecordsSpec | radiomics_extractor.py:126-135 | the collected records are the successful outcomes' records, one each, in order; there are some iff some patient succeeded |
| Extractor.Aggregate | radiomics_extractor.py:135-146 | an aggregate exists iff at least one record exists |
| Extractor.AggregateColumns | radiomics_extractor.py:142-146 | aggregate columns are `PatientID` and then every other key of the records once, in order of first appearance across the records in list order |
| Extractor.Extract | radiomics_extractor.py:57-59 | a root that is not a directory yields no run and no aggregate |
| Extractor.PatientDirsSpec | radiomics_extractor.py:63-68 | the visited folders are exactly the directories of the root, in ascending name order |
| Extractor.OutcomesSpec | radiomics_extractor.py:63-131 | every directory of the root gets exactly the outcome of processing it alone, every outcome belongs to one, and outcomes are in name order |
| Extractor.AggregateSpec | radiomics_extractor.py:126-146 | the aggregate exists iff some patient succeeded; its rows are the successful records, one each, in visiting order; `PatientID` is its first column; it is written to `ALL_PATIENTS_radiomics_features.csv` directly inside the root |
| Extractor.AggregateCsv | radiomics_extractor.py:135-150 | a table is written iff one exists, and it goes to `ALL_PATIENTS_radiomics_features.csv` inside the root |
| Extractor.SucceededPatientHasRow | radiomics_extractor.py:81-131 | a patient that succeeds has its row in the aggregate whatever the other patients do |
| Extractor.RowOf | radiomics_extractor.py:108-146 | every aggregate row carries, under `PatientID`, the name of a directory of the root that succeeded |
| Extractor.UnsuccessfulPatientHasNoRow | radiomics_extractor.py:72-78 | a skipped or failed patient has no aggregate row with its `PatientID` |
| Extractor.RowsInNameOrder | radiomics_extractor.py:63-146 | aggregate rows appear in ascending `PatientID` order |
| Viewer.Open | mask_inspect.py:16-26 | a viewer exists iff the scan has a slice; it starts valid on the middle slice (`n // 2`) with the mask shown and the hint text |
| Viewer.StepSlice | mask_inspect.py:77-88 | an advance moves up one slice except at the last; a retreat moves down one except at 0; any other event keeps the index |
| Viewer.StepValid | mask_inspect.py:77-105 | every event keeps `0 <= sliceIndex < numSlices` and keeps any readout inside the scan |
| Viewer.RunValid | mask_inspect.py:77-105 | any sequence of events keeps the invariant |
| Viewer.ReachableValid | mask_inspect.py:16-105 | every state reachable from the initial state is valid |
| Viewer.RepeatedAdvance | mask_inspect.py:79 | `n` advances from slice `i` land on `min(i + n, last)`, so advancing at the last slice is a no-op |
| Viewer.RepeatedRetreat | mask_inspect.py:88 | `n` retreats from slice `i` land on `max(i - n, 0)`, so retreating at slice 0 is a no-op |
| Viewer.ToggleMask | mask_inspect.py:86 | `m` or `M` flips only the mask switch, and two toggles restore the state |
| Viewer.KeysIgnoreCase | mask_inspect.py:85 | a key and its lower-cased form have the same effect |
| Viewer.UnrecognisedInputIgnored | mask_inspect.py:79-88 | keys other than m/up/k/down/j and scroll buttons other than up/down change nothing |
| Viewer.MotionReadout | mask_inspect.py:91-105 | pointer motion changes only the readout; it changes iff the pointer is in the axes with `0 <= y < H` and `0 <= x < W`, and then names that voxel of the current slice |
| Viewer.OverlayOf | mask_inspect.py:54-65 | no overlay is drawn iff the mask is hidden; the channel composite is drawn iff the mask is shown and 4-dimensional (`ndim == 4`, set at line 20); otherwise the label overlay is drawn |
| Viewer.TransparentIffBackground | mask_inspect.py:57-59 | for non-negative channel values, an overlay pixel is transparent iff all its channels are 0 |
| Viewer.TitleSpec | mask_inspect.py:67-68 | the title shows a position and a total that read back as `sliceIndex + 1` and `numSlices`, with `1 <= position <= total` |
| Pipeline.CanonicalNamesAgree | radiomics_extractor.py:72-73 | the organizer writes exactly the two file names the extractor requires |
| Pipeline.AggregateNameMatches | csv_orginizer.py:42 | the name `ALL_PATIENTS_radiomics_features.csv` the extractor uses passes the collector's case-insensitive test |
| Pipeline.AggregateIsCollected | radiomics_extractor.py:149-150 | the aggregate CSV a run writes lies directly inside the root, and the collector, listing that directory, copies it to its destination root |
| Pipeline.IndividualCsvIsCsv | radiomics_extractor.py:121 | every per-patient CSV name the extractor writes ends in `.csv`, so the collector picks it up |

## Left out

- Filesystem effects are not performed. `os.listdir`, `os.path.getsize`, `os.makedirs` and `shutil.copy2` become given listings and a plan of actions. So re-running a script (overwrite semantics) is not modelled. Neither are copy failures, such as copying a subdirectory whose name ends in `.csv`.
- Entries inside a patient directory are classified by name alone, as the scripts do. A subdirectory named `x.nrrd` counts as a scan candidate with the size the listing gives it.
- Root entries that are neither directories nor regular files, such as broken links, are treated as plain files.
- `str.lower()` is modelled on ASCII letters only. Unicode case mappings beyond ASCII (for example KELVIN SIGN to `k`) are not modelled.
- Path joining is modelled as a list of components. Separators and normalisation are not modelled.
- File existence is case-sensitive, as on the usual Linux filesystems.
- SimpleITK reading, the channel-0 cast to a 16-bit pixel type and PyRadiomics feature computation are opaque functions that may fail. Voxel data and feature algorithms are not modelled.
- The engine configuration is a constant `Config`. It is passed to the engine but has no modelled effect.
- Numeric feature values are opaque tokens (`Records.Opaque`). Floating point and CSV text serialisation are not modelled.
- The aggregate CSV write at the root runs outside the per-patient error handler. The run records the table and the path it is written to, but the write itself and its failure are not modelled.
- The console messages, the process-wide logger level and the module-level invocations with hard-coded paths are left out.
- Viewer rendering is not modelled: matplotlib drawing, colormaps, the 0.5 alpha value, `draw_idle` and the event loop. Only what is shown is kept: the title, which overlay is drawn, and which overlay pixels are transparent.
- Viewer pointer coordinates are integers. The float event coordinates and their `int()` truncation are not modelled. Neither is the float formatting of the readout text; the readout records the voxel it shows.
- The viewer assumes a mask array shaped like the scan. A mismatched mask, which would raise inside an event handler, is not modelled. Neither is the console echo of non-background multi-channel mask values.
- `launch_interactive_viewer` is modelled only through `Viewer.Open`, which returns nothing for an empty scan. Its file checks and image loading are I/O.
- Viewer.TransparentIffBackground: assumes non-negative channel values. With signed channel types, values that cancel (such as 1 and -1) also sum to 0 and are drawn transparent.
