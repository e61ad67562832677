/**
 * The older copies of the converter helpers kept in the client module. The
 * colour helpers and the label configuration compose the same steps in a
 * different order; the table builder writes one row per item, in input order,
 * without grouping. The backup and the directory split are the same
 * algorithms as `FileIo.FileSystem.BackupExistingFile` and
 * `DataExport.SplitAnnotationsByDirectory`, which model them here too.
 */
module LegacyClient {
  import opened Common
  import opened LabelConfig
  import opened DataExport

  // ---------------------------------------------------------------------------
  // Colours and the label configuration
  // ---------------------------------------------------------------------------

  /** `rgb_to_hex` of the client: the float colour is scaled and truncated, then clamped and formatted. */
  function LegacyRgbToHex(color: FloatRgb): (s: string)
    ensures |s| == 7 && s[0] == '#'
    ensures forall i :: 1 <= i < 7 ==> IsLowerHexDigit(s[i])
  {
    RgbToHex(FloatRgbToIntRgb(color))
  }

  /** Decoding the legacy encoding gives the truncated colour, clamped. */
  lemma LegacyRgbToHexRoundTrip(color: FloatRgb)
    ensures DecodeHex(LegacyRgbToHex(color)) == ClampRgb(FloatRgbToIntRgb(color))
  {
    RgbToHexRoundTrip(FloatRgbToIntRgb(color));
  }

  /**
   * Each channel saturates on its own: one of 1.0 or more is encoded as 255,
   * one below 1/255 (negative ones included) as 0.
   */
  lemma LegacyRgbToHexSaturates(color: FloatRgb)
    ensures var d := DecodeHex(LegacyRgbToHex(color));
      (color.r >= 1.0 ==> d.r == 255) && (color.r < 1.0 / 255.0 ==> d.r == 0)
      && (color.g >= 1.0 ==> d.g == 255) && (color.g < 1.0 / 255.0 ==> d.g == 0)
      && (color.b >= 1.0 ==> d.b == 255) && (color.b < 1.0 / 255.0 ==> d.b == 0)
  {
    LegacyRgbToHexRoundTrip(color);
  }

  /** The label elements of the client's `create_label_config`, one per zipped body part and colour. */
  function LegacyLabelLines(bodyparts: seq<string>, colors: seq<FloatRgb>): seq<string> {
    seq(Min(|bodyparts|, |colors|), i requires 0 <= i < Min(|bodyparts|, |colors|) =>
      LabelLine(bodyparts[i], LegacyRgbToHex(colors[i])))
  }

  function LegacyLabelConfigText(bodyparts: seq<string>, colors: seq<FloatRgb>): string {
    Header + Concat(LegacyLabelLines(bodyparts, colors)) + Footer
  }

  /** `create_label_config` of the client: the colour is converted inside `rgb_to_hex`. */
  method LegacyCreateLabelConfig(bodyparts: seq<string>, colors: seq<FloatRgb>) returns (template: string)
    ensures template == LegacyLabelConfigText(bodyparts, colors)
  {
    ghost var lines := LegacyLabelLines(bodyparts, colors);
    template := Header;
    var i := 0;
    while i < Min(|bodyparts|, |colors|)
      invariant 0 <= i <= |lines|
      invariant template == Header + Concat(lines[..i])
    {
      ExtendPrefix(Header, lines, i);
      template := template + LabelLine(bodyparts[i], LegacyRgbToHex(colors[i]));
      i := i + 1;
    }
    assert lines[..i] == lines;
    template := template + Footer;
  }

  /** Both versions of `create_label_config` produce the same text. */
  lemma LegacyLabelConfigSame(bodyparts: seq<string>, colors: seq<FloatRgb>)
    ensures LegacyLabelConfigText(bodyparts, colors) == LabelConfigText(bodyparts, colors)
  {
    var legacy, current := LegacyLabelLines(bodyparts, colors), LabelLines(bodyparts, colors);
    forall i | 0 <= i < |legacy|
      ensures legacy[i] == current[i]
    {
      LabelLineAt(bodyparts, colors, i);
    }
    assert legacy == current;
  }

  // ---------------------------------------------------------------------------
  // The legacy table: one row per item
  // ---------------------------------------------------------------------------

  /** A keypoint's coordinates. */
  datatype Point = Point(x: real, y: real)

  /** An item as the legacy builder reads it: its file name and its annotations, each keypoints by bodypart. */
  datatype LegacyItem = LegacyItem(fileName: Option<string>, annotations: seq<map<string, Point>>)

  /** What the legacy builder raises. */
  datatype LegacyError =
    | AnnotationIndexError           // `IndexError`: `itm['annotations'][0]` on an item without annotations
    | BodypartKeyError(bodypart: string) // `KeyError`: `kpts[bp]` for a bodypart the item has no keypoint for

  /** The DataFrame of the legacy builder: row index, the single-animal columns, and the rows of values. */
  datatype LegacyTable = LegacyTable(rows: seq<Option<string>>, columns: seq<ColumnKey>, values: seq<seq<real>>)

  /** `kpts[bp]['x'], kpts[bp]['y']` for each bodypart in turn; the first missing one raises. */
  function RowValues(kpts: map<string, Point>, bodyparts: seq<string>): Result<seq<real>, LegacyError> {
    if bodyparts == [] then Success([])
    else
      var bp := bodyparts[|bodyparts| - 1];
      match RowValues(kpts, bodyparts[..|bodyparts| - 1])
      case Failure(e) => Failure(e)
      case Success(row) =>
        if bp !in kpts then Failure(BodypartKeyError(bp)) else Success(row + [kpts[bp].x, kpts[bp].y])
  }

  /** The row of one item, read from its first annotation. */
  function ItemRow(item: LegacyItem, bodyparts: seq<string>): Result<seq<real>, LegacyError> {
    if item.annotations == [] then Failure(AnnotationIndexError) else RowValues(item.annotations[0], bodyparts)
  }

  /** The rows of the items in turn; the first item that raises ends the build. */
  function LegacyRows(items: seq<LegacyItem>, bodyparts: seq<string>): Result<seq<seq<real>>, LegacyError> {
    if items == [] then Success([])
    else
      match LegacyRows(items[..|items| - 1], bodyparts)
      case Failure(e) => Failure(e)
      case Success(rows) =>
        match ItemRow(items[|items| - 1], bodyparts)
        case Failure(e) => Failure(e)
        case Success(row) => Success(rows + [row])
  }

  /** The file names of the items, in order. */
  function FileNames(items: seq<LegacyItem>): seq<Option<string>> {
    seq(|items|, i requires 0 <= i < |items| => items[i].fileName)
  }

  /** `intermediate_annotations_to_dlc` of the client. */
  function LegacyToDlc(items: seq<LegacyItem>, scorer: string, bodyparts: seq<string>): Result<LegacyTable, LegacyError> {
    match LegacyRows(items, bodyparts)
    case Failure(e) => Failure(e)
    case Success(values) => Success(LegacyTable(FileNames(items), SingleColumns(scorer, bodyparts), values))
  }

  /** The item has a first annotation holding a keypoint for every bodypart. */
  predicate Complete(item: LegacyItem, bodyparts: seq<string>) {
    item.annotations != [] && forall bp :: bp in bodyparts ==> bp in item.annotations[0]
  }

  /** A row exists exactly when every bodypart has a keypoint; then it holds x and y of each, in bodypart order. */
  lemma {:induction false} RowValuesAre(kpts: map<string, Point>, bodyparts: seq<string>)
    ensures RowValues(kpts, bodyparts).Success? <==> forall bp :: bp in bodyparts ==> bp in kpts
    ensures RowValues(kpts, bodyparts).Success? ==>
      var row := RowValues(kpts, bodyparts).value;
      |row| == 2 * |bodyparts|
      && forall j :: 0 <= j < |bodyparts| ==> row[2 * j] == kpts[bodyparts[j]].x && row[2 * j + 1] == kpts[bodyparts[j]].y
  {
    if bodyparts != [] {
      var front := bodyparts[..|bodyparts| - 1];
      var bp := bodyparts[|bodyparts| - 1];
      assert bodyparts == front + [bp];
      RowValuesAre(kpts, front);
    }
  }

  /** A missing keypoint raises `KeyError` for a bodypart of the configuration that the item lacks. */
  lemma {:induction false} RowValuesError(kpts: map<string, Point>, bodyparts: seq<string>)
    requires RowValues(kpts, bodyparts).Failure?
    ensures exists bp :: bp in bodyparts && bp !in kpts && RowValues(kpts, bodyparts).error == BodypartKeyError(bp)
  {
    var front := bodyparts[..|bodyparts| - 1];
    var bp := bodyparts[|bodyparts| - 1];
    assert bodyparts == front + [bp];
    if RowValues(kpts, front).Failure? {
      RowValuesError(kpts, front);
    }
  }

  /** One row per item, in input order, each of `2 * |bodyparts|` values read from the item's first annotation. */
  lemma {:induction false} LegacyRowsAre(items: seq<LegacyItem>, bodyparts: seq<string>)
    ensures LegacyRows(items, bodyparts).Success? <==> forall i :: 0 <= i < |items| ==> Complete(items[i], bodyparts)
    ensures LegacyRows(items, bodyparts).Success? ==>
      var rows := LegacyRows(items, bodyparts).value;
      |rows| == |items| && forall i :: 0 <= i < |items| ==> ItemRow(items[i], bodyparts) == Success(rows[i])
  {
    if items != [] {
      var front := items[..|items| - 1];
      var last := items[|items| - 1];
      assert forall i :: 0 <= i < |front| ==> front[i] == items[i];
      LegacyRowsAre(front, bodyparts);
      if last.annotations != [] {
        RowValuesAre(last.annotations[0], bodyparts);
      }
    }
  }

  /**
   * The legacy table: a row per item in input order, named by the item's file
   * name, so a repeated name gives a repeated row; each row holds x and y of
   * each bodypart in bodypart order, under the single-animal columns.
   */
  lemma LegacyToDlcShape(items: seq<LegacyItem>, scorer: string, bodyparts: seq<string>, i: int, j: int)
    requires LegacyToDlc(items, scorer, bodyparts).Success?
    requires 0 <= i < |items| && 0 <= j < |bodyparts|
    ensures Complete(items[i], bodyparts)
    ensures var t := LegacyToDlc(items, scorer, bodyparts).value;
      |t.rows| == |t.values| == |items| && t.rows[i] == items[i].fileName
      && |t.values[i]| == |t.columns| == 2 * |bodyparts|
      && t.columns[2 * j] == SingleKey(scorer, bodyparts[j], X)
      && t.values[i][2 * j] == items[i].annotations[0][bodyparts[j]].x
      && t.columns[2 * j + 1] == SingleKey(scorer, bodyparts[j], Y)
      && t.values[i][2 * j + 1] == items[i].annotations[0][bodyparts[j]].y
  {
    LegacyRowsAre(items, bodyparts);
    assert Complete(items[i], bodyparts);
    RowValuesAre(items[i].annotations[0], bodyparts);
    SingleColumnsAt(scorer, bodyparts, j);
  }

  /** The build fails exactly when an item lacks its first annotation or a bodypart's keypoint. */
  lemma LegacyToDlcSucceeds(items: seq<LegacyItem>, scorer: string, bodyparts: seq<string>)
    ensures LegacyToDlc(items, scorer, bodyparts).Success? <==> forall i :: 0 <= i < |items| ==> Complete(items[i], bodyparts)
  {
    LegacyRowsAre(items, bodyparts);
  }

  /** Once a prefix of the items fails, the whole build fails with the same error. */
  lemma {:induction false} LegacyRowsFailurePersists(items: seq<LegacyItem>, bodyparts: seq<string>, j: nat)
    requires j <= |items| && LegacyRows(items[..j], bodyparts).Failure?
    ensures LegacyRows(items, bodyparts) == LegacyRows(items[..j], bodyparts)
    decreases |items| - j
  {
    if j < |items| {
      assert items[..j + 1][..j] == items[..j];
      LegacyRowsFailurePersists(items, bodyparts, j + 1);
    } else {
      assert items[..j] == items;
    }
  }

  /** Once a prefix of the bodyparts fails, the row fails with the same error. */
  lemma {:induction false} RowValuesFailurePersists(kpts: map<string, Point>, bodyparts: seq<string>, j: nat)
    requires j <= |bodyparts| && RowValues(kpts, bodyparts[..j]).Failure?
    ensures RowValues(kpts, bodyparts) == RowValues(kpts, bodyparts[..j])
    decreases |bodyparts| - j
  {
    if j < |bodyparts| {
      assert bodyparts[..j + 1][..j] == bodyparts[..j];
      RowValuesFailurePersists(kpts, bodyparts, j + 1);
    } else {
      assert bodyparts[..j] == bodyparts;
    }
  }

  /** One item's values: x and y of each bodypart of its first annotation. */
  method ReadRow(item: LegacyItem, bodyparts: seq<string>) returns (r: Result<seq<real>, LegacyError>)
    ensures r == ItemRow(item, bodyparts)
  {
    if item.annotations == [] {
      return Failure(AnnotationIndexError);
    }
    var kpts := item.annotations[0];
    var rowData := [];
    for j := 0 to |bodyparts|
      invariant RowValues(kpts, bodyparts[..j]) == Success(rowData)
    {
      assert bodyparts[..j + 1][..j] == bodyparts[..j];
      var bp := bodyparts[j];
      if bp !in kpts {
        RowValuesFailurePersists(kpts, bodyparts, j + 1);
        return Failure(BodypartKeyError(bp));
      }
      rowData := rowData + [kpts[bp].x, kpts[bp].y];
    }
    assert bodyparts[..|bodyparts|] == bodyparts;
    return Success(rowData);
  }

  /**
   * `intermediate_annotations_to_dlc` of the client: for each item append its
   * file name to the row index and its values to the data, then build the
   * table under the single-animal columns.
   */
  method LegacyIntermediateAnnotationsToDlc(items: seq<LegacyItem>, scorer: string, bodyparts: seq<string>)
    returns (r: Result<LegacyTable, LegacyError>)
    ensures r == LegacyToDlc(items, scorer, bodyparts)
  {
    var columns := SingleColumns(scorer, bodyparts);
    var rowIdx := [];
    var data := [];
    for i := 0 to |items|
      invariant rowIdx == FileNames(items[..i])
      invariant LegacyRows(items[..i], bodyparts) == Success(data)
    {
      assert items[..i + 1][..i] == items[..i];
      rowIdx := rowIdx + [items[i].fileName];
      var row := ReadRow(items[i], bodyparts);
      if row.Failure? {
        LegacyRowsFailurePersists(items, bodyparts, i + 1);
        return Failure(row.error);
      }
      data := data + [row.value];
    }
    assert items[..|items|] == items;
    return Success(LegacyTable(rowIdx, columns, data));
  }

  // ---------------------------------------------------------------------------
  // The legacy directory split
  // ---------------------------------------------------------------------------

  /** `itm['file_name']` of a legacy item. */
  function LegacyFileName(item: LegacyItem): Option<string> {
    item.fileName
  }

  /** The client's `split_annotations_by_directory`: each group holds the items of that directory, in input order. */
  lemma LegacySplitGroups(items: seq<LegacyItem>, sep: char, g: string)
    requires SplitByDirectory(items, LegacyFileName, sep).Success?
    ensures var grouped := SplitByDirectory(items, LegacyFileName, sep).value;
      PyDict.ListAt(grouped, g) == InGroup(items, LegacyFileName, sep, g)
      && multiset(PyDict.Flatten(grouped.keys, grouped.entries)) == multiset(items)
  {
    SplitGroups(items, LegacyFileName, sep, g);
    SplitPermutation(items, LegacyFileName, sep);
  }
}
