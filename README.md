# dlc2labelstudio: the Label Studio to DeepLabCut pipeline, in Dafny

dlc2labelstudio moves keypoint annotations between Label Studio and DeepLabCut
(DLC). This project models the conversion from Label Studio's exported tasks
to DLC annotation tables, and the small helpers around it. It proves what each
step promises.

- **Annotation graph parser** (`AnnotParser`, `ls_annot_parser.dfy`).
  - Each task's first annotation is a bag of typed result items: rectangles (one
    per animal), keypoints, and relations that tie a rectangle to its keypoints.
  - The items are indexed by id, with Python's insertion order kept as a key
    sequence (`PyDict.Dict`).
  - Relations become a two-way adjacency map.
  - The keypoints linked to each rectangle are popped from the keypoint index and
    emitted under the rectangle's label. The keypoints left over are emitted with
    no individual.
- **Table assembler** (`DataExport`, `data_export.dfy`).
  - The project configuration fixes the column keys.
  - Records are stably sorted by file name and grouped. Each group opens one
    all-`None` row, and each record overwrites the x and y cells of its own key.
  - Records can be split by the directory in their file name, with one table per
    directory.
  - A table is a row-name sequence, a column-key sequence, and a map from column
    key to a `seq<Option<real>>`.
- **Dataset filter** (`DlcData`): `filter_dataset` with glob matching as a
  parameter.
- **Backup naming** (`FileIo`): `backup_existing_file` over a file system modelled
  as a map from path to contents, held by the class `FileSystem`.
- **Colours and the labelling configuration** (`LabelConfig`): channel clamping,
  lowercase hex encoding and the template text, with the palette's colours
  passed in.
- **Legacy client** (`LegacyClient`): the older copies in `client.py` where they
  behave differently.
  - `rgb_to_hex` converts from float inside.
  - `intermediate_annotations_to_dlc` writes one row per item.
  - Its backup and split helpers are the same code as in `io.py` and
    `data_export.py`, and share those models.
- **Shared modules.**
  - `Common` holds `Option`/`Result`.
  - `PyDict` is an insertion-ordered dictionary with `put`, `pop` and
    append-to-list.
  - `Strings` holds Python's string order, `str.split`/`join` on one character,
    and decimal formatting.

Every loop of the source is a method with invariants. Each method is proved
equal to a specification function, and the properties are lemmas about that
function. Exceptions are `Failure` values that carry the exception's cause.

The multi-animal column set names the unique bodyparts under the individual
`'single'`. The parser, however, emits them with individual `None`, and the
assembler builds keys from the individual verbatim. So a multi-animal conversion
of any task with a leftover keypoint raises `KeyError`. The lemma
`DataExport.UnaffiliatedKeypointRejected` states this.

## Model

| member | source | states |
|---|---|---|
| LabelConfig.ClampChannel | dlc2labelstudio/label_config.py:58 | the channel lands in [0, 255]: it is unchanged when already in range, 0 below and 255 above |
| LabelConfig.ClampRgb | dlc2labelstudio/label_config.py:49-58 | every channel of the result is in range, and an in-range colour is returned unchanged |
| LabelConfig.ClampRgbIdempotent | dlc2labelstudio/label_config.py:58 | clamping twice is clamping once |
| LabelConfig.HexByte | dlc2labelstudio/label_config.py:73 | `{n:02x}` gives exactly two lowercase hex digits |
| LabelConfig.HexByteRoundTrip | dlc2labelstudio/label_config.py:73 | reading the two digits back as base 16 gives the channel value |
| LabelConfig.RgbToHex | dlc2labelstudio/label_config.py:61-73 | the result is 7 characters long: `#` followed by six lowercase hex digits |
| LabelConfig.RgbToHexRoundTrip | dlc2labelstudio/label_config.py:72-73 | decoding the digit pairs, in r, g, b order, gives the clamped colour |
| LabelConfig.RgbToHexInjective | dlc2labelstudio/label_config.py:72-73 | two in-range colours with the same hex string are equal |
| LabelConfig.RgbToHexClampsChannels | dlc2labelstudio/label_config.py:64-73 | out-of-range channels are clamped before encoding: (300, -5, 128) encodes as `#ff0080` |
| LabelConfig.TruncateToInt | dlc2labelstudio/label_config.py:46 | `int()` truncates toward zero: the result is the integer between 0 and x that is less than one away from x |
| LabelConfig.CreateLabelConfig | dlc2labelstudio/label_config.py:6-34 | the accumulated template equals header + the label lines of the zipped pairs + footer |
| LabelConfig.LabelConfigLayout | dlc2labelstudio/label_config.py:16-32 | the text starts with the fixed header and ends with the fixed footer; there are min(\|bodyparts\|, \|colours\|) labels; label i sits right after labels 0..i-1, with a 12-space indent and no line break |
| FileIo.LastIndexOf | dlc2labelstudio/io.py:95 | the result is the position of the last occurrence of the character, or -1 when there is none |
| FileIo.SplitExt | dlc2labelstudio/io.py:95 | `base + ext` is the original path |
| FileIo.SplitExtExtension | dlc2labelstudio/io.py:95 | a non-empty extension starts with its only dot, holds no separator, and follows a non-empty base that does not end in a separator |
| FileIo.BackupNameInjective | dlc2labelstudio/io.py:98 | distinct counters give distinct `base.backup-n ext` names |
| FileIo.AttemptInjective | dlc2labelstudio/io.py:93-98 | the candidates the loop tries (the original, then backups 1, 2, ...) are pairwise distinct, so the search terminates on a finite path set |
| FileIo.NextFreePath | dlc2labelstudio/io.py:93-98 | the path found is free; it is the original when that is free; otherwise it is the backup name with the smallest free n ≥ 1, and every smaller n is taken |
| FileIo.FileSystem.BackupExistingFile | dlc2labelstudio/io.py:79-101 | for a missing original, a FileNotFound failure with the files unchanged; otherwise it returns the smallest free backup name, never the original, and the files gain exactly that path holding the original's content; the client's copy at `client.py:295-305` is the same code |
| DlcData.FilterDataset | dlc2labelstudio/dlc_data.py:29-47 | the nested loop with `break` computes the filtered list: the items in order, each kept once when some filter matches it |
| DlcData.FilteredMembership | dlc2labelstudio/dlc_data.py:41-47 | an item is in the output if and only if it is in the input and matches at least one filter |
| DlcData.FilteredIsSubsequence | dlc2labelstudio/dlc_data.py:42-46 | the output is a subsequence of the input, in input order |
| DlcData.FilteredCounts | dlc2labelstudio/dlc_data.py:42-46 | each input occurrence appears at most once: the output's multiset is within the input's, and the output is no longer than the input |
| DlcData.NoFiltersKeepNothing | dlc2labelstudio/dlc_data.py:43-46 | an empty filter list gives an empty output |
| DlcData.FilteredIdempotent | dlc2labelstudio/dlc_data.py:29-47 | filtering the output again with the same filters changes nothing |
| Strings.LessIrreflexive | dlc2labelstudio/data_export.py:130-131 | no string sorts before itself |
| Strings.LessTransitive | dlc2labelstudio/data_export.py:130-131 | the string order used by `sorted` is transitive |
| Strings.LessTotal | dlc2labelstudio/data_export.py:130-131 | of two distinct strings, one sorts before the other |
| Strings.LessAsymmetric | dlc2labelstudio/data_export.py:130-131 | two strings never each sort before the other |
| Strings.Split | dlc2labelstudio/data_export.py:163 | `str.split(sep)` gives at least one part; it gives two or more exactly when the separator occurs; no part contains the separator |
| Strings.SplitJoin | dlc2labelstudio/data_export.py:163 | joining the parts with the separator rebuilds the string |
| Strings.JoinSplit | dlc2labelstudio/data_export.py:163 | splitting a join of separator-free parts gives the parts back |
| Strings.SplitAtSep | dlc2labelstudio/data_export.py:163 | the part before the first separator is the first element of the split |
| Strings.SplitWithoutSep | dlc2labelstudio/data_export.py:163 | a string without the separator splits into itself alone |
| Strings.DecimalString | dlc2labelstudio/io.py:98 | `f'{n}'` is a non-empty string of decimal digits with no leading zero |
| Strings.DecimalRoundTrip | dlc2labelstudio/io.py:98 | reading the digits back gives n |
| Strings.DecimalInjective | dlc2labelstudio/io.py:98 | distinct counters print differently |
| PyDict.Empty | dlc2labelstudio/ls_annot_parser.py:109 | a new dictionary has no keys and no entries |
| PyDict.Put | dlc2labelstudio/ls_annot_parser.py:95 | `d[k] = v` maps k to v; k keeps its place when present and is appended to the key order when new |
| PyDict.RemoveKey | dlc2labelstudio/ls_annot_parser.py:56 | the key order loses exactly k, keeps its other elements, and stays duplicate-free |
| PyDict.Pop | dlc2labelstudio/ls_annot_parser.py:56 | `d.pop(k)` on a present key removes exactly k from the entries and the key order, one key fewer |
| PyDict.AppendTo | dlc2labelstudio/ls_annot_parser.py:111-117 | `d.setdefault(k, []).append(w)`: the list under k gains w at its end, and every other list is unchanged |
| PyDict.AppendToFlatten | dlc2labelstudio/data_export.py:164-166 | appending one value adds exactly that value to the multiset of all listed values |
| AnnotParser.SelectKey | dlc2labelstudio/ls_annot_parser.py:23-28 | `annotations` is chosen if and only if present; `completions` if and only if only it is present; ValueError if and only if neither is |
| AnnotParser.GetImagePath | dlc2labelstudio/ls_annot_parser.py:121-131 | the result is None exactly when none of the four sources is present |
| AnnotParser.GetImagePathPriority | dlc2labelstudio/ls_annot_parser.py:124-131 | the path is the first present of `meta.original_file`, `task_path`, `data.image`, `data.depth_image` |
| AnnotParser.FilterAndIndex | dlc2labelstudio/ls_annot_parser.py:83-96 | every indexed region has the requested type and is keyed by its own id |
| AnnotParser.FilterAndIndexLastWins | dlc2labelstudio/ls_annot_parser.py:94-95 | an id is indexed if and only if some item of the type has it; the stored region is the last such item |
| AnnotParser.FilterAndIndexOrder | dlc2labelstudio/ls_annot_parser.py:95 | the index's key order is the order in which each id first occurs among the items of the type |
| AnnotParser.NothingIndexed | dlc2labelstudio/ls_annot_parser.py:94-95 | with no items of the type, the index is empty |
| AnnotParser.RelationMap | dlc2labelstudio/ls_annot_parser.py:99-118 | the relation map is a well-formed insertion-ordered dictionary |
| AnnotParser.AddNeighbor | dlc2labelstudio/ls_annot_parser.py:111-117 | one half of a loop pass appends the neighbour to the id's list |
| AnnotParser.BuildRelationMap | dlc2labelstudio/ls_annot_parser.py:108-118 | the loop over the relation items builds the relation map |
| AnnotParser.RelationMapStep | dlc2labelstudio/ls_annot_parser.py:110-117 | one relation item (from, to) appends `to` to from's list and `from` to to's list |
| AnnotParser.RelationMapSymmetric | dlc2labelstudio/ls_annot_parser.py:108-118 | b is listed under a if and only if some relation item joins (a, b) or (b, a) |
| AnnotParser.RelationMapTotal | dlc2labelstudio/ls_annot_parser.py:108-118 | the adjacency lists hold 2 × (number of relation items) entries in total |
| AnnotParser.RelationsOnly | dlc2labelstudio/ls_annot_parser.py:108 | the filter keeps only relation items |
| AnnotParser.RelationMapIgnoresOthers | dlc2labelstudio/ls_annot_parser.py:108 | items of other types do not affect the relation map |
| AnnotParser.ConsumeRelated | dlc2labelstudio/ls_annot_parser.py:55-64 | the keypoint index stays a well-formed dictionary |
| AnnotParser.ConsumeRelatedStep | dlc2labelstudio/ls_annot_parser.py:55-64 | one pass pops the first related id and appends its record under the rectangle's label |
| AnnotParser.ConsumeRelatedClaims | dlc2labelstudio/ls_annot_parser.py:55-57 | on success, the related ids were distinct and all present, and exactly they leave the index |
| AnnotParser.ConsumeRelatedOutput | dlc2labelstudio/ls_annot_parser.py:57-64 | the records appended are those of the related keypoints, in relation order, labelled with the rectangle's label |
| AnnotParser.ConsumeRelatedTagged | dlc2labelstudio/ls_annot_parser.py:58-60 | every record appended carries the task id, the file name and an individual |
| AnnotParser.ConsumeIndividuals | dlc2labelstudio/ls_annot_parser.py:52-64 | the keypoint index stays a well-formed dictionary |
| AnnotParser.ConsumeIndividualsClaims | dlc2labelstudio/ls_annot_parser.py:52-57 | on success, every rectangle has relations, no keypoint is claimed twice, every claimed id is indexed, and exactly the claimed keypoints leave the index |
| AnnotParser.ConsumeIndividualsOutput | dlc2labelstudio/ls_annot_parser.py:52-64 | one record is appended per claimed keypoint, after the earlier output, each carrying the task and an individual |
| AnnotParser.ConsumeIndividualsLoop | dlc2labelstudio/ls_annot_parser.py:54-64 | the nested loop over rectangles and their relations computes the rectangles' pass |
| AnnotParser.PopRelated | dlc2labelstudio/ls_annot_parser.py:55-64 | the inner loop over one rectangle's relations computes that rectangle's pass |
| AnnotParser.EmitLeftover | dlc2labelstudio/ls_annot_parser.py:68-76 | succeeds if and only if every leftover keypoint has a label; then one record with individual None per leftover keypoint, in index order, after the earlier output |
| AnnotParser.EmitLeftoverLoop | dlc2labelstudio/ls_annot_parser.py:68-76 | the loop over the leftover keypoints computes the leftover pass |
| AnnotParser.EntryRecords | dlc2labelstudio/ls_annot_parser.py:36-80 | a missing key is a KeyError; any failure inside the parse is a RuntimeError carrying the task id |
| AnnotParser.GetAnnotationFromEntry | dlc2labelstudio/ls_annot_parser.py:36-80 | the method computes the entry's records |
| AnnotParser.OnlyFirstAnnotation | dlc2labelstudio/ls_annot_parser.py:45 | two tasks that agree on id, image path and first annotation give the same result, whatever their later annotations |
| AnnotParser.NoRectanglesAllUnique | dlc2labelstudio/ls_annot_parser.py:52-76 | with no rectangles, the parse succeeds if and only if every keypoint has a label; each keypoint then gives exactly one record, with individual None, in index order |
| AnnotParser.ParseResultNoRectangles | dlc2labelstudio/ls_annot_parser.py:52-68 | with no rectangles, only the leftover pass runs, over the whole keypoint index |
| AnnotParser.LeftoverOnly | dlc2labelstudio/ls_annot_parser.py:68-76 | the leftover pass over a whole index gives one record with individual None per keypoint, in index order |
| AnnotParser.ParseResultShape | dlc2labelstudio/ls_annot_parser.py:52-76 | on success, there is one record per indexed keypoint, and all records carry the task id and the file name |
| AnnotParser.RecordCountIsKeypointCount | dlc2labelstudio/ls_annot_parser.py:45-77 | a successful entry yields exactly as many records as its first annotation has distinct keypoint ids |
| AnnotParser.SuccessNeedsWellFormedGraph | dlc2labelstudio/ls_annot_parser.py:54-56 | success implies that every rectangle has relations, the claimed keypoints are distinct, and all of them are indexed |
| AnnotParser.RectangleWithoutRelationFails | dlc2labelstudio/ls_annot_parser.py:54-80 | a rectangle with no relation entry makes the entry fail with a RuntimeError carrying the task id |
| AnnotParser.SharedKeypointFails | dlc2labelstudio/ls_annot_parser.py:56-80 | a keypoint claimed twice (already popped) makes the entry fail with a RuntimeError carrying the task id |
| AnnotParser.TaskRecords | dlc2labelstudio/ls_annot_parser.py:22-30 | a task with neither key is a ValueError; any other failure is a RuntimeError carrying that task's id |
| AnnotParser.TaskRecordsTagged | dlc2labelstudio/ls_annot_parser.py:58-72 | all records of one task carry its id and its image path |
| AnnotParser.ReadTask | dlc2labelstudio/ls_annot_parser.py:22-30 | one loop pass (key choice, then parse) computes that task's records |
| AnnotParser.ReadAnnotations | dlc2labelstudio/ls_annot_parser.py:4-33 | the loop with `extend` computes the in-order concatenation of the tasks' records, stopping at the first failure |
| AnnotParser.ReadAnnotationsFailsIfTaskFails | dlc2labelstudio/ls_annot_parser.py:21-31 | one failing task makes the whole read fail |
| AnnotParser.AllRecordsFails | dlc2labelstudio/ls_annot_parser.py:21-31 | a failing first task gives its own error; otherwise the read fails exactly when the rest fails, with the same error |
| AnnotParser.ReadAnnotationsFirstError | dlc2labelstudio/ls_annot_parser.py:21-31 | the error raised is that of the first failing task, and all tasks before it succeed |
| AnnotParser.ReadAnnotationsAppend | dlc2labelstudio/ls_annot_parser.py:20-33 | reading a + b reads a, then prepends a's records to the read of b |
| AnnotParser.RecordsCarryTheirTask | dlc2labelstudio/ls_annot_parser.py:20-33 | every record read carries the id and image path of some input task |
| AnnotParser.PickFilenamesFromTasks | dlc2labelstudio/ls_annot_parser.py:134-144 | succeeds exactly when the read does, with the same error otherwise; name i is the `file_name` of record i, so the names have the records' length and order |
| AnnotParser.PickedNamesAreImagePaths | dlc2labelstudio/ls_annot_parser.py:143-144 | every picked name is the image path of some task |
| DataExport.SingleColumns | dlc2labelstudio/data_export.py:104-110 | the single-animal product has 2·\|bodyparts\| columns |
| DataExport.SingleColumnsAt | dlc2labelstudio/data_export.py:104-110 | column 2j is (scorer, bodyparts[j], x), and column 2j+1 is the same with y |
| DataExport.SingleColumnsMembership | dlc2labelstudio/data_export.py:104-110 | a key is a column if and only if it is a single-animal key of the scorer for a declared bodypart |
| DataExport.BodypartColumns | dlc2labelstudio/data_export.py:94-96 | one individual contributes 2·\|bodyparts\| columns |
| DataExport.BodypartColumnsAt | dlc2labelstudio/data_export.py:94-96 | column 2j is (scorer, individual, bodyparts[j], x), and column 2j+1 is the same with y |
| DataExport.BodypartColumnsMembership | dlc2labelstudio/data_export.py:94-96 | a key is among one individual's columns if and only if it names that scorer, that individual and a listed bodypart |
| DataExport.AppendBodypartColumns | dlc2labelstudio/data_export.py:94-96 | the inner loop appends that individual's columns |
| DataExport.MakeIndexFromDlcConfig | dlc2labelstudio/data_export.py:85-110 | the columns are those of the column index: the individuals' blocks, then the 'single' block in the multi-animal case, or the product in the single-animal case |
| DataExport.IndividualColumnsLength | dlc2labelstudio/data_export.py:93-96 | the individuals' part has 2·\|individuals\|·\|mabp\| columns |
| DataExport.IndividualColumnsBlock | dlc2labelstudio/data_export.py:93-96 | individual i's columns form the i-th block of width 2·\|mabp\|, in individual order |
| DataExport.IndividualColumnsMembership | dlc2labelstudio/data_export.py:93-96 | a key is among the individuals' columns if and only if it names the scorer, a listed individual and a multi-animal bodypart |
| DataExport.ColumnIndexLength | dlc2labelstudio/data_export.py:91-110 | 2·\|bodyparts\| columns for one animal; 2·(\|individuals\|·\|mabp\| + \|unbp\|) for several |
| DataExport.ColumnIndexMembership | dlc2labelstudio/data_export.py:91-110 | exactly which keys are columns in each mode; the unique bodyparts appear only under 'single' |
| DataExport.NameLessTransitive | dlc2labelstudio/data_export.py:130-131 | the file-name order is transitive |
| DataExport.InsertPermutation | dlc2labelstudio/data_export.py:131 | inserting a record adds exactly it to the multiset |
| DataExport.SortPermutation | dlc2labelstudio/data_export.py:131 | sorting is a permutation |
| DataExport.InsertSorted | dlc2labelstudio/data_export.py:131 | inserting into a sorted list keeps it sorted |
| DataExport.SortSorted | dlc2labelstudio/data_export.py:131 | the sorted records are in non-decreasing file-name order |
| DataExport.InsertWithName | dlc2labelstudio/data_export.py:131 | insertion places a record after all earlier records with its name |
| DataExport.WithNameAppend | dlc2labelstudio/data_export.py:131 | the records with a given name in a + b are those in a, then those in b |
| DataExport.SortStable | dlc2labelstudio/data_export.py:130-131 | the sort is stable: the records with a given name keep their input order |
| DataExport.SortMembers | dlc2labelstudio/data_export.py:131 | sorting keeps the length and the set of records |
| DataExport.SortGrouped | dlc2labelstudio/data_export.py:130-132 | orderable records sort into contiguous groups of equal names |
| DataExport.WriteAnnotation | dlc2labelstudio/data_export.py:139-144 | one record's writes: x, then y, into the last cell of its key's columns |
| DataExport.PlaceShape | dlc2labelstudio/data_export.py:143-144 | the write succeeds if and only if both keys are columns; otherwise KeyError on the first missing key; rows, columns and shape are kept |
| DataExport.PlaceCell | dlc2labelstudio/data_export.py:143-144 | only the record's own two cells in the last row change, and they take its x and y |
| DataExport.AddAnnotation | dlc2labelstudio/data_export.py:132-144 | one pass over a record opens a new all-None row when the name changes, then writes the record |
| DataExport.FillFailurePersists | dlc2labelstudio/data_export.py:143-144 | once a prefix raises, the whole fill raises the same error |
| DataExport.IntermediateAnnotationsToDlc | dlc2labelstudio/data_export.py:114-148 | the method computes the table of the sorted, grouped records |
| DataExport.FillColumns | dlc2labelstudio/data_export.py:125-127 | the table's columns are the column index, and its data has exactly those keys |
| DataExport.FillRectangular | dlc2labelstudio/data_export.py:133-136 | every column list has one cell per row |
| DataExport.FillStepErrors | dlc2labelstudio/data_export.py:139-144 | a step succeeds if and only if both of the record's keys are columns; otherwise KeyError names the first missing key |
| DataExport.FillStepSucceeds | dlc2labelstudio/data_export.py:132-144 | n records fill if and only if n - 1 do and the n-th fits |
| DataExport.FillSucceeds | dlc2labelstudio/data_export.py:132-144 | the fill succeeds if and only if every record's keys are columns |
| DataExport.FillErrorKey | dlc2labelstudio/data_export.py:143-144 | a failed fill is a KeyError on some record's key that is not a column |
| DataExport.FillRowsAre | dlc2labelstudio/data_export.py:132-133 | the rows are the group names in walk order |
| DataExport.RowsAfterNames | dlc2labelstudio/data_export.py:132-133 | over grouped records, the rows are exactly the names seen, each once, the last being the current record's |
| DataExport.RowsAfterAscending | dlc2labelstudio/data_export.py:130-133 | over sorted records, the rows are strictly ascending |
| DataExport.FillCells | dlc2labelstudio/data_export.py:134-144 | every cell holds the last write to that key for that row's name, or None when no record wrote it |
| DataExport.LastValueIsLast | dlc2labelstudio/data_export.py:143-144 | the last-write value exists if and only if some record writes the cell, and it is the value of the last such record |
| DataExport.LastValueWithName | dlc2labelstudio/data_export.py:138-144 | the last write to a row's cell depends only on the records with that name |
| DataExport.ToDlcColumns | dlc2labelstudio/data_export.py:125-146 | a built table has the configured columns and is rectangular |
| DataExport.ToDlcSucceeds | dlc2labelstudio/data_export.py:130-144 | the build succeeds if and only if the names are orderable and every record's keys are columns |
| DataExport.ToDlcErrors | dlc2labelstudio/data_export.py:131-144 | TypeError exactly when two or more records include a `None` name; otherwise KeyError on some record's key that is not a column |
| DataExport.UnaffiliatedKeypointRejected | dlc2labelstudio/data_export.py:97-144 | in multi-animal mode, any record with individual None makes the build fail, because the columns use 'single' |
| DataExport.ToDlcRows | dlc2labelstudio/data_export.py:130-133 | the rows are exactly the distinct input file names, each once, in ascending order, whatever the input order |
| DataExport.ToDlcRowsAfter | dlc2labelstudio/data_export.py:130-133 | a built table's rows are the group names of the sorted records |
| DataExport.SortedRows | dlc2labelstudio/data_export.py:130-133 | the group names of the sorted records are the distinct input names, ascending |
| DataExport.ToDlcCells | dlc2labelstudio/data_export.py:134-144 | each cell is the value of the last record, in input order, that writes it; cells nobody writes stay None |
| DataExport.GroupOf | dlc2labelstudio/data_export.py:163 | the group exists if and only if the name contains the separator; the group contains no separator |
| DataExport.GroupOfPath | dlc2labelstudio/data_export.py:163 | the group of a joined path is its second segment; a one-segment path is an IndexError |
| DataExport.SplitByDirectory | dlc2labelstudio/data_export.py:151-168 | the grouping is a well-formed insertion-ordered dictionary |
| DataExport.SplitFailurePersists | dlc2labelstudio/data_export.py:162-166 | once a prefix raises, the whole split raises the same error |
| DataExport.SplitSucceeds | dlc2labelstudio/data_export.py:162-166 | the split succeeds if and only if every name has a second segment |
| DataExport.SplitFirstError | dlc2labelstudio/data_export.py:162-166 | the error raised is that of the first record without a group |
| DataExport.SplitGroups | dlc2labelstudio/data_export.py:162-168 | each group's list is the records of that group, in input order; a group is present exactly when it has records |
| DataExport.SplitPermutation | dlc2labelstudio/data_export.py:162-168 | the groups together are a permutation of the input |
| DataExport.SplitAnnotationsByDirectory | dlc2labelstudio/data_export.py:151-168 | the loop computes the split; the client's copy at `client.py:335-344` is the same code |
| DataExport.GroupTables | dlc2labelstudio/data_export.py:32-38 | the per-group tables form a well-formed dictionary |
| DataExport.GroupTablesFailurePersists | dlc2labelstudio/data_export.py:32-35 | once a group's table raises, the conversion raises that error |
| DataExport.GroupTablesSucceed | dlc2labelstudio/data_export.py:32-35 | the tables are built if and only if every group's table builds |
| DataExport.GroupTablesAre | dlc2labelstudio/data_export.py:32-35 | one table per group, in group order, each built from that group's records |
| DataExport.GroupsToDlc | dlc2labelstudio/data_export.py:32-38 | the loop over the groups computes the per-group tables |
| DataExport.ConvertWhole | dlc2labelstudio/data_export.py:28-43 | without split, one table of all records, with one row per distinct file name |
| DataExport.ConvertPerGroup | dlc2labelstudio/data_export.py:28-38 | with split, every record has a directory, and there is one table per group, built from that group's records only |
| DataExport.ConvertLsAnnotToDlc | dlc2labelstudio/data_export.py:12-43 | the method computes the conversion: read, then one table or one per directory |
| LegacyClient.LegacyRgbToHex | dlc2labelstudio/client.py:247-249 | the result is `#` followed by six lowercase hex digits |
| LegacyClient.LegacyRgbToHexRoundTrip | dlc2labelstudio/client.py:248-249 | decoding gives the clamp of the truncated float-to-int conversion |
| LegacyClient.LegacyRgbToHexSaturates | dlc2labelstudio/client.py:241-249 | a channel ≥ 1.0 encodes as ff, and a channel below 1/255 as 00 |
| LegacyClient.LegacyCreateLabelConfig | dlc2labelstudio/client.py:221-239 | the accumulated template equals header + label lines + footer |
| LegacyClient.LegacyLabelConfigSame | dlc2labelstudio/client.py:231-233 | the legacy text equals the current module's text for the same bodyparts and colours |
| LegacyClient.RowValuesAre | dlc2labelstudio/client.py:323-328 | the row builds if and only if every bodypart has a keypoint; then it has 2·\|bodyparts\| values, with x before y, in bodypart order |
| LegacyClient.RowValuesError | dlc2labelstudio/client.py:326 | a failed row is a KeyError naming a missing bodypart |
| LegacyClient.RowValuesFailurePersists | dlc2labelstudio/client.py:324-328 | once a bodypart raises, the row raises that error |
| LegacyClient.ReadRow | dlc2labelstudio/client.py:321-328 | the inner loop computes the item's row |
| LegacyClient.LegacyRowsAre | dlc2labelstudio/client.py:319-329 | the rows build if and only if every item is complete; then there is one row per item, in input order |
| LegacyClient.LegacyRowsFailurePersists | dlc2labelstudio/client.py:319-329 | once an item raises, the build raises that error |
| LegacyClient.LegacyToDlcShape | dlc2labelstudio/client.py:308-332 | row i is named by item i's file name, duplicates included; its values follow the single-animal columns |
| LegacyClient.LegacyToDlcSucceeds | dlc2labelstudio/client.py:319-329 | the table builds if and only if every item has a first annotation with all bodyparts |
| LegacyClient.LegacyIntermediateAnnotationsToDlc | dlc2labelstudio/client.py:308-332 | the loop computes the one-row-per-item table |
| LegacyClient.LegacySplitGroups | dlc2labelstudio/client.py:335-344 | each group holds that directory's items in input order, and the groups are a permutation of the items |

## Left out

- Saving is not modelled: `save_dlc_annots`, the `save` flag of `convert_ls_annot_to_dlc`, and the pandas `to_csv`/`to_hdf` writes. They are file I/O.
- The reading and writing helpers are not modelled: `read_yaml`, `write_yaml`, `read_label_config`, `read_ls_tasks` and `read_image`. They are file I/O.
- pandas `MultiIndex`/`DataFrame` internals are replaced by the `Table` value: row names, column keys, and one cell list per column.
- `is_multianimal` is a boolean input. It is imported by `data_export.py` from `dlc_data.py`, which does not define it.
- `os.sep` is a parameter `sep`.
- `fnmatch.fnmatch` is a parameter `matches`, with no glob semantics.
- The seaborn palette is a parameter: the list of colours.
- Floating point is modelled with reals.
  - The percent-to-pixel arithmetic `x * width / 100` is exact real arithmetic.
  - `int(c * 255)` is real multiplication followed by truncation toward zero.
  - No rounding behaviour of IEEE doubles is modelled.
- The warning printed for a task with several annotations is not modelled, since it is output only.
- `shutil.copy2` is modelled as a content copy. File metadata and the failure modes of the operating system (permissions, races) are not modelled.
- `FileIo.FileSystem.BackupExistingFile`: `os.path.splitext` is modelled for `/` separators only. Its rule that leading dots of the last component do not start an extension is modelled, but Windows drive and backslash handling is not.
- The file system is a single map. Directories and `os.path.exists` on them are not modelled.
- The legacy `convert_ls_annot_to_dlc` in `client.py` (lines 252-262) is not modelled. It feeds the records of the shared parser to the legacy builder, with saving mixed in. The input shapes do not match. A parser record has only the keys `task_id`, `file_name`, `individual`, `bodypart`, `x` and `y` (`ls_annot_parser.py:57-64`, `69-76`), but the legacy builder reads `itm['annotations']` (`client.py:321`). So for any non-empty input, that composition raises `KeyError('annotations')` on the first record.
- `LegacyClient.LegacyItem`, `LegacyClient.ItemRow`: an item is its file name plus a list of annotations, each a map from bodypart to a point. This folds the `['keypoints']` level of `itm['annotations'][0]['keypoints']` and the point's `['x']`/`['y']` keys into the map and the `Point` (`client.py:321`, `326-327`). So the `KeyError`s for an item without `'annotations'`, an annotation without `'keypoints'`, a keypoint without `'x'` or `'y'`, and an item without `'file_name'` are not modelled. The modelled errors are `IndexError` for an empty annotation list and `KeyError` for a missing bodypart.
- Parts of `dlc_data.py` are not modelled:
  - `collect_dataset`, a filesystem glob;
  - `load_dlc_annotations_for_image`, which reads HDF5, probes images and catches all exceptions.
- The command line front end (`cli.py`) is not modelled.
- The Label Studio network client (`ls_client.py`, `data_import.py`, and the SDK calls in `client.py`) is not modelled. Those are HTTP calls.
- Python's comparison of arbitrary values is narrowed to the file names the sort compares. Two or more records raise TypeError as soon as one name is `None`, because `None` is not ordered against anything (`DataExport.Orderable`). The model does not follow which particular comparison Python's sort makes first.
- Task JSON objects are modelled with the fields the parser reads. A result item of another type, or one with missing fields, is `OtherItem`. An annotation always has its `result` list, so the `KeyError` that `entry[key][0]['result']` raises inside the `try` for an annotation without `result` (turned into a `RuntimeError` like the other causes) is not modelled; nor are the `KeyError`s on missing `id`, `type`, `value` or coordinate fields.
