/**
 * Building DeepLabCut tables from the parsed keypoint records.
 *
 * A table has one column per (scorer, [individual,] bodypart, coordinate) key
 * fixed by the project configuration, and one row per distinct image file
 * name in sorted order. Each record writes its x and y into the cells of its
 * own key in its image's row; a later record overwrites an earlier one.
 */
module DataExport {
  import opened Common
  import opened PyDict
  import opened Strings
  import opened AnnotParser

  datatype Coord = X | Y

  /**
   * A column key: `(scorer, bodypart, coord)` for a single-animal project,
   * `(scorer, individual, bodypart, coord)` for a multi-animal one. A record's
   * key in a multi-animal project uses its individual verbatim, which may be
   * `None`; the configuration's columns always name one.
   */
  datatype ColumnKey =
    | SingleKey(scorer: string, bodypart: string, coord: Coord)
    | MultiKey(scorer: string, individual: Option<string>, bodypart: string, coord: Coord)

  /** The parts of the DeepLabCut project configuration the tables depend on. */
  datatype DlcConfig = DlcConfig(
    scorer: string,
    bodyparts: seq<string>,
    individuals: seq<string>,
    multianimalBodyparts: seq<string>,
    uniqueBodyparts: seq<string>)

  /** The individual under which the unique bodyparts are listed. */
  const Single := "single"

  // ---------------------------------------------------------------------------
  // Columns
  // ---------------------------------------------------------------------------

  /** `from_product([[scorer], bodyparts, ['x', 'y']])`. */
  function SingleColumns(scorer: string, bodyparts: seq<string>): (cols: seq<ColumnKey>)
    ensures |cols| == 2 * |bodyparts|
  {
    if bodyparts == [] then []
    else
      var last := bodyparts[|bodyparts| - 1];
      SingleColumns(scorer, bodyparts[..|bodyparts| - 1]) + [SingleKey(scorer, last, X), SingleKey(scorer, last, Y)]
  }

  /** The x and y columns of each bodypart of one individual, in bodypart order. */
  function BodypartColumns(scorer: string, individual: Option<string>, bodyparts: seq<string>): (cols: seq<ColumnKey>)
    ensures |cols| == 2 * |bodyparts|
  {
    if bodyparts == [] then []
    else
      var last := bodyparts[|bodyparts| - 1];
      BodypartColumns(scorer, individual, bodyparts[..|bodyparts| - 1])
        + [MultiKey(scorer, individual, last, X), MultiKey(scorer, individual, last, Y)]
  }

  /** The columns of each individual in turn. */
  function IndividualColumns(scorer: string, individuals: seq<string>, bodyparts: seq<string>): seq<ColumnKey> {
    if individuals == [] then []
    else
      IndividualColumns(scorer, individuals[..|individuals| - 1], bodyparts)
        + BodypartColumns(scorer, Some(individuals[|individuals| - 1]), bodyparts)
  }

  /** The columns of `make_index_from_dlc_config`. */
  function ColumnIndex(config: DlcConfig, isMultiAnimal: bool): seq<ColumnKey> {
    if isMultiAnimal then
      IndividualColumns(config.scorer, config.individuals, config.multianimalBodyparts)
        + BodypartColumns(config.scorer, Some(Single), config.uniqueBodyparts)
    else SingleColumns(config.scorer, config.bodyparts)
  }

  /** Appends the x and y columns of each bodypart of one individual. */
  method AppendBodypartColumns(cols: seq<ColumnKey>, scorer: string, individual: Option<string>, bodyparts: seq<string>)
    returns (r: seq<ColumnKey>)
    ensures r == cols + BodypartColumns(scorer, individual, bodyparts)
  {
    r := cols;
    var j := 0;
    while j < |bodyparts|
      invariant 0 <= j <= |bodyparts|
      invariant r == cols + BodypartColumns(scorer, individual, bodyparts[..j])
    {
      assert bodyparts[..j + 1][..j] == bodyparts[..j];
      r := r + [MultiKey(scorer, individual, bodyparts[j], X)];
      r := r + [MultiKey(scorer, individual, bodyparts[j], Y)];
      j := j + 1;
    }
    assert bodyparts[..j] == bodyparts;
  }

  /**
   * `make_index_from_dlc_config`: the product of scorer, bodyparts and
   * coordinates, or in a multi-animal project the columns of each individual's
   * multi-animal bodyparts followed by those of the unique bodyparts under
   * `'single'`, appended in nested loops.
   */
  method MakeIndexFromDlcConfig(config: DlcConfig, isMultiAnimal: bool) returns (cols: seq<ColumnKey>)
    ensures cols == ColumnIndex(config, isMultiAnimal)
  {
    if !isMultiAnimal {
      return SingleColumns(config.scorer, config.bodyparts);
    }
    cols := [];
    var individuals := config.individuals;
    var i := 0;
    while i < |individuals|
      invariant 0 <= i <= |individuals|
      invariant cols == IndividualColumns(config.scorer, individuals[..i], config.multianimalBodyparts)
    {
      IndividualColumnsSnoc(config.scorer, individuals, config.multianimalBodyparts, i);
      cols := AppendBodypartColumns(cols, config.scorer, Some(individuals[i]), config.multianimalBodyparts);
      i := i + 1;
    }
    assert individuals[..i] == individuals;
    cols := AppendBodypartColumns(cols, config.scorer, Some(Single), config.uniqueBodyparts);
  }

  /** One more individual appends its bodypart columns. */
  lemma IndividualColumnsSnoc(scorer: string, individuals: seq<string>, bodyparts: seq<string>, i: nat)
    requires i < |individuals|
    ensures IndividualColumns(scorer, individuals[..i + 1], bodyparts)
         == IndividualColumns(scorer, individuals[..i], bodyparts) + BodypartColumns(scorer, Some(individuals[i]), bodyparts)
  {
    assert individuals[..i + 1][..i] == individuals[..i];
  }

  /** Single-animal columns: bodypart `j` owns positions `2j` (x) and `2j + 1` (y). */
  lemma {:induction false} SingleColumnsAt(scorer: string, bodyparts: seq<string>, j: int)
    requires 0 <= j < |bodyparts|
    ensures SingleColumns(scorer, bodyparts)[2 * j] == SingleKey(scorer, bodyparts[j], X)
    ensures SingleColumns(scorer, bodyparts)[2 * j + 1] == SingleKey(scorer, bodyparts[j], Y)
  {
    var init := bodyparts[..|bodyparts| - 1];
    if j < |init| {
      SingleColumnsAt(scorer, init, j);
    }
  }

  /** The columns of one individual: bodypart `j` owns positions `2j` (x) and `2j + 1` (y). */
  lemma {:induction false} BodypartColumnsAt(scorer: string, individual: Option<string>, bodyparts: seq<string>, j: int)
    requires 0 <= j < |bodyparts|
    ensures BodypartColumns(scorer, individual, bodyparts)[2 * j] == MultiKey(scorer, individual, bodyparts[j], X)
    ensures BodypartColumns(scorer, individual, bodyparts)[2 * j + 1] == MultiKey(scorer, individual, bodyparts[j], Y)
  {
    var init := bodyparts[..|bodyparts| - 1];
    if j < |init| {
      BodypartColumnsAt(scorer, individual, init, j);
    }
  }

  /** Each individual contributes the x and y columns of every bodypart. */
  lemma {:induction false} IndividualColumnsLength(scorer: string, individuals: seq<string>, bodyparts: seq<string>)
    ensures |IndividualColumns(scorer, individuals, bodyparts)| == |individuals| * (2 * |bodyparts|)
  {
    if individuals != [] {
      var init := individuals[..|individuals| - 1];
      var w := 2 * |bodyparts|;
      IndividualColumnsLength(scorer, init, bodyparts);
      assert |IndividualColumns(scorer, individuals, bodyparts)| == |init| * w + w;
      assert |init| * w + w == |individuals| * w;
    }
  }

  /** Individual `i` owns the `i`-th block of `2 * |bodyparts|` columns, laid out as its bodypart columns. */
  lemma {:induction false} IndividualColumnsBlock(scorer: string, individuals: seq<string>, bodyparts: seq<string>, i: int)
    requires 0 <= i < |individuals|
    ensures var w := 2 * |bodyparts|;
      (i + 1) * w <= |IndividualColumns(scorer, individuals, bodyparts)|
      && IndividualColumns(scorer, individuals, bodyparts)[i * w .. (i + 1) * w]
         == BodypartColumns(scorer, Some(individuals[i]), bodyparts)
  {
    var w := 2 * |bodyparts|;
    var init := individuals[..|individuals| - 1];
    var front := IndividualColumns(scorer, init, bodyparts);
    var block := BodypartColumns(scorer, Some(individuals[|individuals| - 1]), bodyparts);
    assert IndividualColumns(scorer, individuals, bodyparts) == front + block;
    IndividualColumnsLength(scorer, init, bodyparts);
    BlockBounds(i, |init|, w);
    if i < |init| {
      IndividualColumnsBlock(scorer, init, bodyparts, i);
      assert init[i] == individuals[i];
      SliceOfConcat(front, block, i * w, (i + 1) * w);
    } else {
      SliceOfConcat(front, block, i * w, (i + 1) * w);
    }
  }

  /** Block `i` of width `w` ends within `k` blocks when `i < k`, and is block `k` itself otherwise. */
  lemma BlockBounds(i: nat, k: nat, w: nat)
    requires i <= k
    ensures 0 <= i * w <= (i + 1) * w == i * w + w
    ensures i < k ==> (i + 1) * w <= k * w
    ensures i == k ==> i * w == k * w
  {
  }

  /** A slice of a concatenation that lies within one of its halves. */
  lemma SliceOfConcat<T>(a: seq<T>, b: seq<T>, lo: int, hi: int)
    requires 0 <= lo <= hi <= |a| + |b|
    ensures hi <= |a| ==> (a + b)[lo..hi] == a[lo..hi]
    ensures lo == |a| && hi == |a| + |b| ==> (a + b)[lo..hi] == b
  {
  }

  /** A single-animal column exists exactly for the scorer, a listed bodypart and either coordinate. */
  lemma {:induction false} SingleColumnsMembership(scorer: string, bodyparts: seq<string>, key: ColumnKey)
    ensures key in SingleColumns(scorer, bodyparts) <==>
      key.SingleKey? && key.scorer == scorer && key.bodypart in bodyparts
  {
    if bodyparts != [] {
      var init := bodyparts[..|bodyparts| - 1];
      var last := bodyparts[|bodyparts| - 1];
      SingleColumnsMembership(scorer, init, key);
      assert bodyparts == init + [last];
      if key.SingleKey? && key.scorer == scorer && key.bodypart == last {
        var tail := [SingleKey(scorer, last, X), SingleKey(scorer, last, Y)];
        if key.coord == X { assert key == tail[0]; } else { assert key == tail[1]; }
      }
    }
  }

  lemma {:induction false} BodypartColumnsMembership(scorer: string, individual: Option<string>, bodyparts: seq<string>, key: ColumnKey)
    ensures key in BodypartColumns(scorer, individual, bodyparts) <==>
      key.MultiKey? && key.scorer == scorer && key.individual == individual && key.bodypart in bodyparts
  {
    if bodyparts != [] {
      var init := bodyparts[..|bodyparts| - 1];
      var last := bodyparts[|bodyparts| - 1];
      BodypartColumnsMembership(scorer, individual, init, key);
      assert bodyparts == init + [last];
      if key.MultiKey? && key.scorer == scorer && key.individual == individual && key.bodypart == last {
        var tail := [MultiKey(scorer, individual, last, X), MultiKey(scorer, individual, last, Y)];
        if key.coord == X { assert key == tail[0]; } else { assert key == tail[1]; }
      }
    }
  }

  lemma {:induction false} IndividualColumnsMembership(scorer: string, individuals: seq<string>, bodyparts: seq<string>, key: ColumnKey)
    ensures key in IndividualColumns(scorer, individuals, bodyparts) <==>
      key.MultiKey? && key.scorer == scorer && key.individual.Some?
      && key.individual.value in individuals && key.bodypart in bodyparts
  {
    if individuals != [] {
      var init := individuals[..|individuals| - 1];
      var last := individuals[|individuals| - 1];
      IndividualColumnsMembership(scorer, init, bodyparts, key);
      BodypartColumnsMembership(scorer, Some(last), bodyparts, key);
      assert individuals == init + [last];
    }
  }

  /** Two columns per bodypart, for each individual and then for `'single'` in a multi-animal project. */
  lemma ColumnIndexLength(config: DlcConfig, isMultiAnimal: bool)
    ensures !isMultiAnimal ==> |ColumnIndex(config, isMultiAnimal)| == 2 * |config.bodyparts|
    ensures isMultiAnimal ==>
              |ColumnIndex(config, isMultiAnimal)| == 2 * (|config.individuals| * |config.multianimalBodyparts| + |config.uniqueBodyparts|)
  {
    IndividualColumnsLength(config.scorer, config.individuals, config.multianimalBodyparts);
    var n, m := |config.individuals|, |config.multianimalBodyparts|;
    assert n * (2 * m) == 2 * (n * m);
  }

  /**
   * The column set of a project: single-animal keys of listed bodyparts, or
   * multi-animal keys of a listed individual and multi-animal bodypart, or of
   * `'single'` and a unique bodypart. A multi-animal key without an individual
   * is never a column.
   */
  lemma ColumnIndexMembership(config: DlcConfig, isMultiAnimal: bool, key: ColumnKey)
    ensures !isMultiAnimal ==> (key in ColumnIndex(config, isMultiAnimal) <==>
      key.SingleKey? && key.scorer == config.scorer && key.bodypart in config.bodyparts)
    ensures isMultiAnimal ==> (key in ColumnIndex(config, isMultiAnimal) <==>
      key.MultiKey? && key.scorer == config.scorer && key.individual.Some? &&
      ((key.individual.value in config.individuals && key.bodypart in config.multianimalBodyparts)
       || (key.individual.value == Single && key.bodypart in config.uniqueBodyparts)))
  {
    SingleColumnsMembership(config.scorer, config.bodyparts, key);
    IndividualColumnsMembership(config.scorer, config.individuals, config.multianimalBodyparts, key);
    BodypartColumnsMembership(config.scorer, Some(Single), config.uniqueBodyparts, key);
  }

  // ---------------------------------------------------------------------------
  // Sorting the records by file name
  // ---------------------------------------------------------------------------

  /** Python's `<` on two file names; `None` is never below anything (comparing it raises). */
  predicate NameLess(a: Option<string>, b: Option<string>) {
    a.Some? && b.Some? && Less(a.value, b.value)
  }

  /**
   * `sorted` can order the records: there is at most one of them, or every one
   * has a file name. Otherwise some comparison involves `None` and raises
   * `TypeError`.
   */
  predicate Orderable(records: seq<Record>) {
    |records| <= 1 || forall i :: 0 <= i < |records| ==> records[i].fileName.Some?
  }

  /** Inserts `x` after every record whose name is not above its own. */
  function Insert(x: Record, s: seq<Record>): seq<Record> {
    if s == [] then [x]
    else if NameLess(x.fileName, s[0].fileName) then [x] + s
    else [s[0]] + Insert(x, s[1..])
  }

  /** Python's stable `sorted(records, key=file_name)`, as an insertion sort. */
  function Sort(s: seq<Record>): seq<Record> {
    if s == [] then [] else Insert(s[|s| - 1], Sort(s[..|s| - 1]))
  }

  /** No later record has a smaller name than an earlier one. */
  ghost predicate SortedByName(s: seq<Record>) {
    forall i, j :: 0 <= i < j < |s| ==> !NameLess(s[j].fileName, s[i].fileName)
  }

  /** The records with file name `n`, in order. */
  function WithName(s: seq<Record>, n: Option<string>): seq<Record> {
    if s == [] then []
    else (if s[0].fileName == n then [s[0]] else []) + WithName(s[1..], n)
  }

  lemma NameLessTransitive(a: Option<string>, b: Option<string>, c: Option<string>)
    requires NameLess(a, b) && NameLess(b, c)
    ensures NameLess(a, c)
  {
    LessTransitive(a.value, b.value, c.value);
  }

  lemma {:induction false} InsertPermutation(x: Record, s: seq<Record>)
    ensures multiset(Insert(x, s)) == multiset(s) + multiset{x}
  {
    if s != [] && !NameLess(x.fileName, s[0].fileName) {
      InsertPermutation(x, s[1..]);
      assert s == [s[0]] + s[1..];
    }
  }

  /** Sorting neither loses nor invents records. */
  lemma {:induction false} SortPermutation(s: seq<Record>)
    ensures multiset(Sort(s)) == multiset(s)
  {
    if s != [] {
      var init := s[..|s| - 1];
      var x := s[|s| - 1];
      SortPermutation(init);
      InsertPermutation(x, Sort(init));
      assert Sort(s) == Insert(x, Sort(init));
      assert s == init + [x];
      assert multiset(s) == multiset(init) + multiset{x};
    }
  }

  lemma {:induction false} InsertSorted(x: Record, s: seq<Record>)
    requires SortedByName(s)
    ensures SortedByName(Insert(x, s))
  {
    if s == [] {
    } else if NameLess(x.fileName, s[0].fileName) {
      var r := [x] + s;
      forall j | 0 < j < |r|
        ensures !NameLess(r[j].fileName, x.fileName)
      {
        if NameLess(r[j].fileName, x.fileName) {
          NameLessTransitive(r[j].fileName, x.fileName, s[0].fileName);
          if j == 1 { LessIrreflexive(s[0].fileName.value); }
        }
      }
    } else {
      var rest := Insert(x, s[1..]);
      InsertSorted(x, s[1..]);
      InsertPermutation(x, s[1..]);
      forall j | 0 <= j < |rest|
        ensures !NameLess(rest[j].fileName, s[0].fileName)
      {
        assert rest[j] in multiset(s[1..]) + multiset{x};
        if rest[j] != x {
          assert rest[j] in s[1..];
        }
      }
      var r := [s[0]] + rest;
      assert forall j :: 0 < j < |r| ==> r[j] == rest[j - 1];
    }
  }

  /** `sorted` leaves no record with a name below an earlier one. */
  lemma {:induction false} SortSorted(s: seq<Record>)
    ensures SortedByName(Sort(s))
  {
    if s != [] {
      SortSorted(s[..|s| - 1]);
      InsertSorted(s[|s| - 1], Sort(s[..|s| - 1]));
    }
  }

  /** The first record of a sequence counts when it has the name. */
  lemma WithNameCons(r: Record, rest: seq<Record>, n: Option<string>)
    ensures WithName([r] + rest, n) == (if r.fileName == n then [r] else []) + WithName(rest, n)
  {
    assert ([r] + rest)[1..] == rest;
  }

  lemma {:induction false} WithNameAppend(a: seq<Record>, b: seq<Record>, n: Option<string>)
    ensures WithName(a + b, n) == WithName(a, n) + WithName(b, n)
  {
    if a == [] {
      assert a + b == b;
    } else {
      var tail := a[1..];
      assert a == [a[0]] + tail;
      assert a + b == [a[0]] + (tail + b);
      WithNameAppend(tail, b, n);
      WithNameCons(a[0], tail + b, n);
      WithNameCons(a[0], tail, n);
    }
  }

  lemma {:induction false} WithNameNone(s: seq<Record>, n: Option<string>)
    requires forall j :: 0 <= j < |s| ==> s[j].fileName != n
    ensures WithName(s, n) == []
  {
    if s != [] {
      WithNameNone(s[1..], n);
    }
  }

  /** Inserting into a sorted sequence puts `x` after every record of the same name. */
  lemma {:induction false} InsertWithName(x: Record, s: seq<Record>, n: Option<string>)
    requires SortedByName(s)
    ensures WithName(Insert(x, s), n) == WithName(s, n) + WithName([x], n)
  {
    if s == [] {
      assert Insert(x, s) == [x];
      assert s + [x] == [x];
      WithNameAppend(s, [x], n);
    } else if NameLess(x.fileName, s[0].fileName) {
      InsertFirstWithName(x, s, n);
    } else {
      SortedTail(s);
      InsertWithName(x, s[1..], n);
      InsertLaterWithName(x, s, n);
    }
  }

  /** Inserted before a sorted sequence, `x` has a name none of its records has. */
  lemma InsertFirstWithName(x: Record, s: seq<Record>, n: Option<string>)
    requires SortedByName(s) && s != [] && NameLess(x.fileName, s[0].fileName)
    ensures WithName(Insert(x, s), n) == WithName(s, n) + WithName([x], n)
  {
    var own := if x.fileName == n then [x] else [];
    WithNameCons(x, [], n);
    assert WithName([x], n) == own;
    assert Insert(x, s) == [x] + s;
    WithNameCons(x, s, n);
    if x.fileName == n {
      forall j | 0 <= j < |s|
        ensures s[j].fileName != n
      {
        if j == 0 {
          LessIrreflexive(n.value);
        } else {
          assert !NameLess(s[j].fileName, s[0].fileName);
        }
      }
      WithNameNone(s, n);
    }
  }

  /** Inserted after the head, `x` joins the records of its name after those of the tail. */
  lemma InsertLaterWithName(x: Record, s: seq<Record>, n: Option<string>)
    requires s != [] && !NameLess(x.fileName, s[0].fileName)
    requires WithName(Insert(x, s[1..]), n) == WithName(s[1..], n) + WithName([x], n)
    ensures WithName(Insert(x, s), n) == WithName(s, n) + WithName([x], n)
  {
    var head: seq<Record> := if s[0].fileName == n then [s[0]] else [];
    InsertLaterCons(x, s, n);
    WithNameCons(s[0], s[1..], n);
    assert s == [s[0]] + s[1..];
    ConcatAssoc(head, WithName(s[1..], n), WithName([x], n));
  }

  /** Inserting after the head keeps the head in front. */
  lemma InsertLaterCons(x: Record, s: seq<Record>, n: Option<string>)
    requires s != [] && !NameLess(x.fileName, s[0].fileName)
    ensures WithName(Insert(x, s), n) == (if s[0].fileName == n then [s[0]] else []) + WithName(Insert(x, s[1..]), n)
  {
    assert Insert(x, s) == [s[0]] + Insert(x, s[1..]);
    WithNameCons(s[0], Insert(x, s[1..]), n);
  }

  lemma ConcatAssoc<T>(a: seq<T>, b: seq<T>, c: seq<T>)
    ensures a + (b + c) == (a + b) + c
  {
  }

  /** The tail of a sorted sequence is sorted. */
  lemma SortedTail(s: seq<Record>)
    requires SortedByName(s) && s != []
    ensures SortedByName(s[1..])
  {
    var tail := s[1..];
    forall i, j | 0 <= i < j < |tail|
      ensures !NameLess(tail[j].fileName, tail[i].fileName)
    {
      assert tail[i] == s[i + 1] && tail[j] == s[j + 1];
    }
  }

  /** `sorted` is stable: the records of any one name keep their relative order. */
  lemma {:induction false} SortStable(s: seq<Record>, n: Option<string>)
    ensures WithName(Sort(s), n) == WithName(s, n)
  {
    if s != [] {
      var init, last := s[..|s| - 1], s[|s| - 1];
      SortStable(init, n);
      SortSorted(init);
      InsertWithName(last, Sort(init), n);
      assert s == init + [last];
      WithNameAppend(init, [last], n);
    }
  }

  // ---------------------------------------------------------------------------
  // Filling the table
  // ---------------------------------------------------------------------------

  /** What goes wrong while building tables; each is the exception Python raises. */
  datatype ExportError =
    | SortTypeError                     // `TypeError`: `sorted` compared a `None` file name
    | ColumnKeyError(key: ColumnKey)    // `KeyError`: a record's cell is not a column of the project
    | NameAttributeError                // `AttributeError`: `.split` on a `None` file name
    | GroupIndexError(fileName: string) // `IndexError`: the file name has no second path segment
    | LastCellIndexError                // `IndexError`: `[-1]` on a column with no cells (never raised)

  /**
   * The DataFrame: its row index (image names), its column index, and the
   * cells of each column, one per row.
   */
  datatype Table = Table(rows: seq<Option<string>>, columns: seq<ColumnKey>, data: map<ColumnKey, seq<Option<real>>>)

  /** Every column holds one cell per row. */
  ghost predicate Rectangular(t: Table) {
    forall c :: c in t.data ==> |t.data[c]| == |t.rows|
  }

  /** The cell a record writes for one coordinate: the individual counts only in a multi-animal project. */
  function RecordKey(config: DlcConfig, isMultiAnimal: bool, r: Record, coord: Coord): ColumnKey {
    if isMultiAnimal then MultiKey(config.scorer, r.individual, r.bodypart, coord)
    else SingleKey(config.scorer, r.bodypart, coord)
  }

  function CoordValue(r: Record, coord: Coord): real {
    if coord == X then r.x else r.y
  }

  /** Both cells of the record are columns of the project. */
  predicate Fits(columns: seq<ColumnKey>, config: DlcConfig, isMultiAnimal: bool, r: Record) {
    RecordKey(config, isMultiAnimal, r, X) in columns && RecordKey(config, isMultiAnimal, r, Y) in columns
  }

  /** `{idx_val: [] for idx_val in col_idx.values}` with no rows yet. */
  function EmptyTable(columns: seq<ColumnKey>): Table {
    Table([], columns, map c | c in columns :: [])
  }

  /** A new row for image `name`, every cell `None`. */
  function OpenRow(t: Table, name: Option<string>): Table {
    Table(t.rows + [name], t.columns, map c | c in t.data :: t.data[c] + [None])
  }

  /**
   * `dlc_data[key][-1] = v`: a `KeyError` when `key` is not a column, an
   * `IndexError` when the column has no cell yet.
   */
  function SetLast(t: Table, key: ColumnKey, v: real): Result<Table, ExportError> {
    if key !in t.data then Failure(ColumnKeyError(key))
    else if t.data[key] == [] then Failure(LastCellIndexError)
    else Success(t.(data := t.data[key := t.data[key][..|t.data[key]| - 1] + [Some(v)]]))
  }

  /** Writes the record's x and then its y into the last row. */
  function Place(t: Table, config: DlcConfig, isMultiAnimal: bool, rec: Record): Result<Table, ExportError> {
    match SetLast(t, RecordKey(config, isMultiAnimal, rec, X), rec.x)
    case Failure(e) => Failure(e)
    case Success(t1) => SetLast(t1, RecordKey(config, isMultiAnimal, rec, Y), rec.y)
  }

  /** Record `n - 1` of the walk starts a new `groupby` group: it is the first, or its name differs from the previous one's. */
  predicate StartsGroup(s: seq<Record>, n: nat)
    requires 0 < n <= |s|
  {
    n == 1 || s[n - 2].fileName != s[n - 1].fileName
  }

  /** The table record `n - 1` is written into: `t` with a new row of `None` when the record starts a group. */
  function RowFor(s: seq<Record>, n: nat, t: Table): Table
    requires 0 < n <= |s|
  {
    if StartsGroup(s, n) then OpenRow(t, s[n - 1].fileName) else t
  }

  /**
   * The table after the first `n` records of `s` in turn, as
   * `itertools.groupby` walks them: a record opens a new row when its name
   * differs from the previous record's.
   */
  function Fill(s: seq<Record>, n: nat, columns: seq<ColumnKey>, config: DlcConfig, isMultiAnimal: bool): Result<Table, ExportError>
    requires n <= |s|
  {
    if n == 0 then Success(EmptyTable(columns))
    else
      match Fill(s, n - 1, columns, config, isMultiAnimal)
      case Failure(e) => Failure(e)
      case Success(t) => Place(RowFor(s, n, t), config, isMultiAnimal, s[n - 1])
  }

  /** `intermediate_annotations_to_dlc`: sort by file name, then fill. */
  function ToDlc(records: seq<Record>, config: DlcConfig, isMultiAnimal: bool): Result<Table, ExportError> {
    if !Orderable(records) then Failure(SortTypeError)
    else
      var sorted := Sort(records);
      Fill(sorted, |sorted|, ColumnIndex(config, isMultiAnimal), config, isMultiAnimal)
  }

  /** Once a prefix fails, the whole fill fails with the same error. */
  lemma {:induction false} FillFailurePersists(s: seq<Record>, j: nat, columns: seq<ColumnKey>, config: DlcConfig, isMultiAnimal: bool)
    requires j <= |s| && Fill(s, j, columns, config, isMultiAnimal).Failure?
    ensures Fill(s, |s|, columns, config, isMultiAnimal) == Fill(s, j, columns, config, isMultiAnimal)
    decreases |s| - j
  {
    if j < |s| {
      FillFailurePersists(s, j + 1, columns, config, isMultiAnimal);
    }
  }

  /** `dlc_data[(*key, 'x')][-1] = annot['x']` and then the same for y. */
  method WriteAnnotation(t: Table, config: DlcConfig, isMultiAnimal: bool, rec: Record)
    returns (r: Result<Table, ExportError>)
    ensures r == Place(t, config, isMultiAnimal, rec)
  {
    var tx := SetLast(t, RecordKey(config, isMultiAnimal, rec, X), rec.x);
    if tx.Failure? {
      return Failure(tx.error);
    }
    r := SetLast(tx.value, RecordKey(config, isMultiAnimal, rec, Y), rec.y);
  }

  /**
   * One record of the walk: when its name differs from the previous record's
   * (a new `groupby` group), append a row of `None` for it first; then write
   * its cells into the last row. A `KeyError` here is the outcome of the
   * whole fill.
   */
  method AddAnnotation(sorted: seq<Record>, j: nat, t: Table, columns: seq<ColumnKey>, config: DlcConfig, isMultiAnimal: bool)
    returns (r: Result<Table, ExportError>)
    requires j < |sorted| && Fill(sorted, j, columns, config, isMultiAnimal) == Success(t)
    ensures r.Success? ==> r == Fill(sorted, j + 1, columns, config, isMultiAnimal)
    ensures r.Failure? ==> r == Fill(sorted, |sorted|, columns, config, isMultiAnimal)
  {
    var current := t;
    if j == 0 || sorted[j - 1].fileName != sorted[j].fileName {
      current := OpenRow(t, sorted[j].fileName);
    }
    assert current == RowFor(sorted, j + 1, t);
    FillNext(sorted, j, t, columns, config, isMultiAnimal);
    r := WriteAnnotation(current, config, isMultiAnimal, sorted[j]);
    if r.Failure? {
      FillFailurePersists(sorted, j + 1, columns, config, isMultiAnimal);
    }
  }

  /** After a prefix that fills without error, the next record is placed into its row. */
  lemma FillNext(s: seq<Record>, n: nat, t: Table, columns: seq<ColumnKey>, config: DlcConfig, isMultiAnimal: bool)
    requires n < |s| && Fill(s, n, columns, config, isMultiAnimal) == Success(t)
    ensures Fill(s, n + 1, columns, config, isMultiAnimal) == Place(RowFor(s, n + 1, t), config, isMultiAnimal, s[n])
  {
  }

  /**
   * `intermediate_annotations_to_dlc`: build the column index, sort the
   * records by file name, then walk them, starting a row at each new name.
   */
  method IntermediateAnnotationsToDlc(records: seq<Record>, config: DlcConfig, isMultiAnimal: bool)
    returns (r: Result<Table, ExportError>)
    ensures r == ToDlc(records, config, isMultiAnimal)
  {
    var columns := MakeIndexFromDlcConfig(config, isMultiAnimal);
    var t := EmptyTable(columns);
    if !Orderable(records) {
      return Failure(SortTypeError);
    }
    var sorted := Sort(records);
    var i := 0;
    while i < |sorted|
      invariant 0 <= i <= |sorted|
      invariant Fill(sorted, i, columns, config, isMultiAnimal) == Success(t)
    {
      var placed := AddAnnotation(sorted, i, t, columns, config, isMultiAnimal);
      if placed.Failure? {
        return placed;
      }
      t := placed.value;
      i := i + 1;
    }
    return Success(t);
  }

  // ---------------------------------------------------------------------------
  // What the fill produces
  // ---------------------------------------------------------------------------

  /** The column keys of the project as a set. */
  function ColumnSet(config: DlcConfig, isMultiAnimal: bool): set<ColumnKey> {
    set c | c in ColumnIndex(config, isMultiAnimal)
  }

  /** Writing a record keeps rows, columns and the shape; it fails exactly on a cell that is not a column. */
  lemma PlaceShape(t: Table, config: DlcConfig, isMultiAnimal: bool, rec: Record)
    requires Rectangular(t) && t.rows != []
    ensures var kx, ky := RecordKey(config, isMultiAnimal, rec, X), RecordKey(config, isMultiAnimal, rec, Y);
      var r := Place(t, config, isMultiAnimal, rec);
      (r.Success? <==> kx in t.data && ky in t.data)
      && (r.Failure? ==> r.error == ColumnKeyError(if kx in t.data then ky else kx))
      && (r.Success? ==> r.value.rows == t.rows && r.value.columns == t.columns
                         && r.value.data.Keys == t.data.Keys && Rectangular(r.value))
  {
  }

  /** Writing a record changes only the record's two cells in the last row. */
  lemma PlaceCell(t: Table, config: DlcConfig, isMultiAnimal: bool, rec: Record, c: ColumnKey, k: int)
    requires Rectangular(t) && t.rows != []
    requires Place(t, config, isMultiAnimal, rec).Success?
    requires c in t.data && 0 <= k < |t.rows|
    ensures Place(t, config, isMultiAnimal, rec).value.data[c][k] ==
      if k == |t.rows| - 1 && RecordKey(config, isMultiAnimal, rec, c.coord) == c
      then Some(CoordValue(rec, c.coord)) else t.data[c][k]
  {
  }

  /** Every fill keeps the project's columns. */
  lemma {:induction false} FillColumns(s: seq<Record>, n: nat, columns: seq<ColumnKey>, config: DlcConfig, isMultiAnimal: bool)
    requires n <= |s| && Fill(s, n, columns, config, isMultiAnimal).Success?
    ensures var t := Fill(s, n, columns, config, isMultiAnimal).value;
      t.columns == columns && t.data.Keys == set c | c in columns
  {
    if n > 0 {
      assert Fill(s, n - 1, columns, config, isMultiAnimal).Success?;
      FillColumns(s, n - 1, columns, config, isMultiAnimal);
      FillRectangular(s, n - 1, columns, config, isMultiAnimal);
      var t := Fill(s, n - 1, columns, config, isMultiAnimal).value;
      var current := RowFor(s, n, t);
      assert current.columns == t.columns && current.data.Keys == t.data.Keys;
      PlaceShape(current, config, isMultiAnimal, s[n - 1]);
    }
  }

  /** Every column holds one cell per row, and there is a row once a record was written. */
  lemma {:induction false} FillRectangular(s: seq<Record>, n: nat, columns: seq<ColumnKey>, config: DlcConfig, isMultiAnimal: bool)
    requires n <= |s| && Fill(s, n, columns, config, isMultiAnimal).Success?
    ensures var t := Fill(s, n, columns, config, isMultiAnimal).value;
      Rectangular(t) && (n > 0 ==> t.rows != [])
  {
    if n > 0 {
      assert Fill(s, n - 1, columns, config, isMultiAnimal).Success?;
      FillRectangular(s, n - 1, columns, config, isMultiAnimal);
      var t := Fill(s, n - 1, columns, config, isMultiAnimal).value;
      var current := RowFor(s, n, t);
      assert Rectangular(current) && current.rows != [];
      PlaceShape(current, config, isMultiAnimal, s[n - 1]);
    }
  }

  /** One step of the fill when the prefix before it succeeded: it fails exactly on a record that does not fit. */
  lemma FillStepErrors(s: seq<Record>, n: nat, columns: seq<ColumnKey>, config: DlcConfig, isMultiAnimal: bool)
    requires 0 < n <= |s| && Fill(s, n - 1, columns, config, isMultiAnimal).Success?
    ensures Fill(s, n, columns, config, isMultiAnimal).Success? <==> Fits(columns, config, isMultiAnimal, s[n - 1])
    ensures Fill(s, n, columns, config, isMultiAnimal).Failure? ==>
      var coord := if RecordKey(config, isMultiAnimal, s[n - 1], X) in columns then Y else X;
      Fill(s, n, columns, config, isMultiAnimal).error == ColumnKeyError(RecordKey(config, isMultiAnimal, s[n - 1], coord))
      && RecordKey(config, isMultiAnimal, s[n - 1], coord) !in columns
  {
    FillColumns(s, n - 1, columns, config, isMultiAnimal);
    FillRectangular(s, n - 1, columns, config, isMultiAnimal);
    var t := Fill(s, n - 1, columns, config, isMultiAnimal).value;
    var current := RowFor(s, n, t);
    PlaceShape(current, config, isMultiAnimal, s[n - 1]);
  }

  /** A step of the fill succeeds exactly when the prefix did and the record fits. */
  lemma FillStepSucceeds(s: seq<Record>, n: nat, columns: seq<ColumnKey>, config: DlcConfig, isMultiAnimal: bool)
    requires 0 < n <= |s|
    ensures Fill(s, n, columns, config, isMultiAnimal).Success? <==>
      Fill(s, n - 1, columns, config, isMultiAnimal).Success? && Fits(columns, config, isMultiAnimal, s[n - 1])
  {
    if Fill(s, n - 1, columns, config, isMultiAnimal).Success? {
      FillStepErrors(s, n, columns, config, isMultiAnimal);
    }
  }

  /** The fill succeeds exactly when both cells of every record are columns. */
  lemma {:induction false} FillSucceeds(s: seq<Record>, n: nat, columns: seq<ColumnKey>, config: DlcConfig, isMultiAnimal: bool)
    requires n <= |s|
    ensures Fill(s, n, columns, config, isMultiAnimal).Success? <==> AllFit(s, n, columns, config, isMultiAnimal)
  {
    if n > 0 {
      FillSucceeds(s, n - 1, columns, config, isMultiAnimal);
      FillStepSucceeds(s, n, columns, config, isMultiAnimal);
      AllFitSnoc(s, n, columns, config, isMultiAnimal);
    }
  }

  /** Both cells of each of the first `n` records are columns. */
  ghost predicate AllFit(s: seq<Record>, n: nat, columns: seq<ColumnKey>, config: DlcConfig, isMultiAnimal: bool)
    requires n <= |s|
  {
    forall i :: 0 <= i < n ==> Fits(columns, config, isMultiAnimal, s[i])
  }

  lemma AllFitSnoc(s: seq<Record>, n: nat, columns: seq<ColumnKey>, config: DlcConfig, isMultiAnimal: bool)
    requires 0 < n <= |s|
    ensures AllFit(s, n, columns, config, isMultiAnimal)
        <==> AllFit(s, n - 1, columns, config, isMultiAnimal) && Fits(columns, config, isMultiAnimal, s[n - 1])
  {
  }

  /** A failed fill raises `KeyError` for a cell of one of its records that is not a column. */
  lemma {:induction false} FillErrorKey(s: seq<Record>, n: nat, columns: seq<ColumnKey>, config: DlcConfig, isMultiAnimal: bool)
    requires n <= |s| && Fill(s, n, columns, config, isMultiAnimal).Failure?
    ensures exists i, coord ::
              0 <= i < n
              && Fill(s, n, columns, config, isMultiAnimal).error == ColumnKeyError(RecordKey(config, isMultiAnimal, s[i], coord))
              && RecordKey(config, isMultiAnimal, s[i], coord) !in columns
  {
    var prev := Fill(s, n - 1, columns, config, isMultiAnimal);
    if prev.Success? {
      FillStepErrors(s, n, columns, config, isMultiAnimal);
      var coord := if RecordKey(config, isMultiAnimal, s[n - 1], X) in columns then Y else X;
      assert 0 <= n - 1 < n && RecordKey(config, isMultiAnimal, s[n - 1], coord) !in columns;
    } else {
      FillErrorKey(s, n - 1, columns, config, isMultiAnimal);
    }
  }

  /** Records of one name are consecutive, as `groupby` needs to make one group per name. */
  ghost predicate Grouped(s: seq<Record>) {
    forall i, j, k :: 0 <= i < j < k < |s| && s[i].fileName == s[k].fileName ==> s[j].fileName == s[i].fileName
  }

  /** One of the first `n` records is an image of that name. */
  ghost predicate NamedBefore(s: seq<Record>, n: int, name: Option<string>) {
    exists i :: 0 <= i < n && i < |s| && s[i].fileName == name
  }

  /** Record `r` writes column `c` in the row of image `name`. */
  predicate Writes(config: DlcConfig, isMultiAnimal: bool, r: Record, name: Option<string>, c: ColumnKey) {
    r.fileName == name && RecordKey(config, isMultiAnimal, r, c.coord) == c
  }

  /**
   * The cell a walk over the first `n` records leaves for image `name` and
   * column `c`: the value of the last of them that is of that image and
   * writes that column, or `None`.
   */
  function LastValue(s: seq<Record>, n: nat, config: DlcConfig, isMultiAnimal: bool, name: Option<string>, c: ColumnKey): Option<real>
    requires n <= |s|
  {
    if n == 0 then None
    else if Writes(config, isMultiAnimal, s[n - 1], name, c) then Some(CoordValue(s[n - 1], c.coord))
    else LastValue(s, n - 1, config, isMultiAnimal, name, c)
  }

  /** Past the end of a group, no earlier record has the next record's name. */
  lemma NewNameIsNew(s: seq<Record>, n: nat)
    requires Grouped(s) && 0 < n <= |s|
    requires StartsGroup(s, n)
    ensures !NamedBefore(s, n - 1, s[n - 1].fileName)
  {
    forall i | 0 <= i < n - 1
      ensures s[i].fileName != s[n - 1].fileName
    {
    }
  }

  lemma NamedBeforeSnoc(s: seq<Record>, n: nat)
    requires 0 < n <= |s|
    ensures forall x :: NamedBefore(s, n, x) <==> NamedBefore(s, n - 1, x) || x == s[n - 1].fileName
  {
    forall x
      ensures NamedBefore(s, n, x) <==> NamedBefore(s, n - 1, x) || x == s[n - 1].fileName
    {
      if NamedBefore(s, n, x) && x != s[n - 1].fileName {
        var i :| 0 <= i < n && i < |s| && s[i].fileName == x;
        assert i < n - 1;
      }
      if x == s[n - 1].fileName {
        assert 0 <= n - 1 < n && s[n - 1].fileName == x;
      }
    }
  }

  /** The row index after walking the first `n` records: a new name at each change of name. */
  function RowsAfter(s: seq<Record>, n: nat): seq<Option<string>>
    requires n <= |s|
  {
    if n == 0 then []
    else if StartsGroup(s, n) then RowsAfter(s, n - 1) + [s[n - 1].fileName]
    else RowsAfter(s, n - 1)
  }

  lemma {:induction false} FillRowsAre(s: seq<Record>, n: nat, columns: seq<ColumnKey>, config: DlcConfig, isMultiAnimal: bool)
    requires n <= |s| && Fill(s, n, columns, config, isMultiAnimal).Success?
    ensures Fill(s, n, columns, config, isMultiAnimal).value.rows == RowsAfter(s, n)
  {
    if n > 0 {
      assert Fill(s, n - 1, columns, config, isMultiAnimal).Success?;
      FillRowsAre(s, n - 1, columns, config, isMultiAnimal);
      FillRectangular(s, n - 1, columns, config, isMultiAnimal);
      var t := Fill(s, n - 1, columns, config, isMultiAnimal).value;
      var current := RowFor(s, n, t);
      assert current.rows == if StartsGroup(s, n) then RowsAfter(s, n - 1) + [s[n - 1].fileName] else RowsAfter(s, n - 1);
      PlaceShape(current, config, isMultiAnimal, s[n - 1]);
      assert Fill(s, n, columns, config, isMultiAnimal) == Place(current, config, isMultiAnimal, s[n - 1]);
    }
  }

  /**
   * Over grouped records the rows are the distinct names of the records
   * walked so far, each once, the last one being the last record's.
   */
  lemma {:induction false} RowsAfterNames(s: seq<Record>, n: nat)
    requires n <= |s| && Grouped(s)
    ensures var rows := RowsAfter(s, n);
      (forall name :: name in rows <==> NamedBefore(s, n, name))
      && (forall i, j :: 0 <= i < j < |rows| ==> rows[i] != rows[j])
      && (n > 0 ==> rows != [] && rows[|rows| - 1] == s[n - 1].fileName)
  {
    if n > 0 {
      RowsAfterNames(s, n - 1);
      NamedBeforeSnoc(s, n);
      if StartsGroup(s, n) {
        NewNameIsNew(s, n);
      }
    }
  }

  /** One step of the fill on one cell: the record's own cells in the last row change, a new row starts as `None`. */
  lemma FillCellStep(s: seq<Record>, n: nat, t: Table, t': Table, columns: seq<ColumnKey>, config: DlcConfig, isMultiAnimal: bool, c: ColumnKey, k: int)
    requires 0 < n <= |s| && Fill(s, n - 1, columns, config, isMultiAnimal) == Success(t) && Fill(s, n, columns, config, isMultiAnimal) == Success(t')
    requires c in t'.data && 0 <= k < |t'.rows|
    ensures c in t.data && |t.data[c]| == |t.rows| && |t'.data[c]| == |t'.rows|
    ensures t'.data[c][k] ==
      if k == |t'.rows| - 1 && RecordKey(config, isMultiAnimal, s[n - 1], c.coord) == c then Some(CoordValue(s[n - 1], c.coord))
      else if k < |t.rows| then t.data[c][k]
      else None
  {
    FillRectangular(s, n - 1, columns, config, isMultiAnimal);
    FillRectangular(s, n, columns, config, isMultiAnimal);
    var current := RowFor(s, n, t);
    PlaceShape(current, config, isMultiAnimal, s[n - 1]);
    PlaceCell(current, config, isMultiAnimal, s[n - 1], c, k);
  }

  /**
   * Over grouped records each cell holds the value of the last record of its
   * row's image that writes its column: later records overwrite earlier ones.
   */
  lemma {:induction false} FillCells(s: seq<Record>, n: nat, t: Table, columns: seq<ColumnKey>, config: DlcConfig, isMultiAnimal: bool, c: ColumnKey, k: int)
    requires n <= |s| && Grouped(s) && Fill(s, n, columns, config, isMultiAnimal) == Success(t)
    requires c in t.data && 0 <= k < |t.rows|
    ensures k < |t.data[c]| && t.data[c][k] == LastValue(s, n, config, isMultiAnimal, t.rows[k], c)
  {
    assert Fill(s, n - 1, columns, config, isMultiAnimal).Success?;
    var t0 := Fill(s, n - 1, columns, config, isMultiAnimal).value;
    FillRowsAre(s, n, columns, config, isMultiAnimal);
    FillRowsAre(s, n - 1, columns, config, isMultiAnimal);
    FillCellStep(s, n, t0, t, columns, config, isMultiAnimal, c, k);
    if k < |t0.rows| {
      FillCells(s, n - 1, t0, columns, config, isMultiAnimal, c, k);
    }
    CellAfterStep(s, n, t0, t, config, isMultiAnimal, c, k);
  }

  /** The induction step of `FillCells`, on rows and cells alone. */
  lemma CellAfterStep(s: seq<Record>, n: nat, t0: Table, t: Table, config: DlcConfig, isMultiAnimal: bool, c: ColumnKey, k: int)
    requires 0 < n <= |s| && Grouped(s)
    requires t0.rows == RowsAfter(s, n - 1) && t.rows == RowsAfter(s, n)
    requires c in t.data && 0 <= k < |t.rows| && |t.data[c]| == |t.rows|
    requires c in t0.data && |t0.data[c]| == |t0.rows|
    requires t.data[c][k] ==
      if k == |t.rows| - 1 && RecordKey(config, isMultiAnimal, s[n - 1], c.coord) == c then Some(CoordValue(s[n - 1], c.coord))
      else if k < |t0.rows| then t0.data[c][k]
      else None
    requires k < |t0.rows| ==> t0.data[c][k] == LastValue(s, n - 1, config, isMultiAnimal, t0.rows[k], c)
    ensures t.data[c][k] == LastValue(s, n, config, isMultiAnimal, t.rows[k], c)
  {
    RowsAfterNames(s, n - 1);
    RowsAfterNames(s, n);
    var name := s[n - 1].fileName;
    if StartsGroup(s, n) {
      NewNameIsNew(s, n);
    }
    if k < |t0.rows| {
      assert t.rows[k] == t0.rows[k];
      assert StartsGroup(s, n) || k < |t0.rows| - 1 ==> t.rows[k] != name;
    } else {
      LastValueAbsent(s, n - 1, config, isMultiAnimal, name, c);
    }
  }

  /** An image none of the walked records names has no value anywhere. */
  lemma {:induction false} LastValueAbsent(s: seq<Record>, n: nat, config: DlcConfig, isMultiAnimal: bool, name: Option<string>, c: ColumnKey)
    requires n <= |s| && !NamedBefore(s, n, name)
    ensures LastValue(s, n, config, isMultiAnimal, name, c) == None
  {
    if n > 0 {
      assert s[n - 1].fileName != name;
      LastValueAbsent(s, n - 1, config, isMultiAnimal, name, c);
    }
  }

  /** `LastValue` is the value of the last writer: there is one exactly when the cell is not `None`, and no later record writes the cell. */
  lemma {:induction false} LastValueIsLast(s: seq<Record>, n: nat, config: DlcConfig, isMultiAnimal: bool, name: Option<string>, c: ColumnKey)
    requires n <= |s|
    ensures LastValue(s, n, config, isMultiAnimal, name, c).Some? <==>
      exists i :: 0 <= i < n && Writes(config, isMultiAnimal, s[i], name, c)
    ensures LastValue(s, n, config, isMultiAnimal, name, c).Some? ==>
      exists i :: 0 <= i < n && Writes(config, isMultiAnimal, s[i], name, c)
        && LastValue(s, n, config, isMultiAnimal, name, c) == Some(CoordValue(s[i], c.coord))
        && forall j :: i < j < n ==> !Writes(config, isMultiAnimal, s[j], name, c)
  {
    if n > 0 {
      LastValueIsLast(s, n - 1, config, isMultiAnimal, name, c);
      if Writes(config, isMultiAnimal, s[n - 1], name, c) {
        assert 0 <= n - 1 < n && Writes(config, isMultiAnimal, s[n - 1], name, c);
      } else if LastValue(s, n - 1, config, isMultiAnimal, name, c).Some? {
        var i :| 0 <= i < n - 1 && Writes(config, isMultiAnimal, s[i], name, c)
          && LastValue(s, n - 1, config, isMultiAnimal, name, c) == Some(CoordValue(s[i], c.coord))
          && forall j :: i < j < n - 1 ==> !Writes(config, isMultiAnimal, s[j], name, c);
        assert forall j :: i < j < n ==> !Writes(config, isMultiAnimal, s[j], name, c);
      }
    }
  }

  /** `LastValue` looks at the first `n` records only. */
  lemma {:induction false} LastValuePrefix(s: seq<Record>, u: seq<Record>, n: nat, config: DlcConfig, isMultiAnimal: bool, name: Option<string>, c: ColumnKey)
    requires n <= |s| && n <= |u| && s[..n] == u[..n]
    ensures LastValue(s, n, config, isMultiAnimal, name, c) == LastValue(u, n, config, isMultiAnimal, name, c)
  {
    if n > 0 {
      assert s[n - 1] == s[..n][n - 1] && u[n - 1] == u[..n][n - 1];
      assert s[..n - 1] == s[..n][..n - 1] && u[..n - 1] == u[..n][..n - 1];
      LastValuePrefix(s, u, n - 1, config, isMultiAnimal, name, c);
    }
  }

  /** Over `a + b` the last writer is in `b` if `b` has one, and otherwise in `a`. */
  lemma {:induction false} LastValueAppend(a: seq<Record>, b: seq<Record>, config: DlcConfig, isMultiAnimal: bool, name: Option<string>, c: ColumnKey)
    ensures var inB := LastValue(b, |b|, config, isMultiAnimal, name, c);
      LastValue(a + b, |a + b|, config, isMultiAnimal, name, c)
      == if inB.Some? then inB else LastValue(a, |a|, config, isMultiAnimal, name, c)
  {
    if b == [] {
      assert a + b == a;
    } else {
      var front := b[..|b| - 1];
      LastValueAppend(a, front, config, isMultiAnimal, name, c);
      assert (a + b)[..|a + front|] == a + front;
      assert (a + front)[..|a + front|] == a + front;
      LastValuePrefix(a + b, a + front, |a + front|, config, isMultiAnimal, name, c);
      assert b[..|front|] == front[..|front|];
      LastValuePrefix(b, front, |front|, config, isMultiAnimal, name, c);
      assert (a + b)[|a + b| - 1] == b[|b| - 1];
    }
  }

  /** The last writer of a cell of image `name` is found among that image's records alone. */
  lemma {:induction false} LastValueWithName(s: seq<Record>, config: DlcConfig, isMultiAnimal: bool, name: Option<string>, c: ColumnKey)
    ensures var w := WithName(s, name);
      LastValue(s, |s|, config, isMultiAnimal, name, c) == LastValue(w, |w|, config, isMultiAnimal, name, c)
  {
    if s != [] {
      var x, rest := s[0], s[1..];
      var own := if x.fileName == name then [x] else [];
      assert s == [x] + rest;
      LastValueWithName(rest, config, isMultiAnimal, name, c);
      LastValueAppend([x], rest, config, isMultiAnimal, name, c);
      WithNameCons(x, rest, name);
      LastValueAppend(own, WithName(rest, name), config, isMultiAnimal, name, c);
      assert LastValue([x], 1, config, isMultiAnimal, name, c) == LastValue(own, |own|, config, isMultiAnimal, name, c);
    }
  }

  // ---------------------------------------------------------------------------
  // The converted table
  // ---------------------------------------------------------------------------

  /** Sorting keeps the number of records and which records there are. */
  lemma SortMembers(s: seq<Record>)
    ensures |Sort(s)| == |s|
    ensures forall r :: r in Sort(s) <==> r in s
  {
    SortPermutation(s);
    assert |multiset(Sort(s))| == |multiset(s)|;
    forall r
      ensures r in Sort(s) <==> r in s
    {
      assert r in Sort(s) <==> r in multiset(Sort(s));
      assert r in s <==> r in multiset(s);
    }
  }

  /** Every record has a file name. */
  ghost predicate AllNamed(s: seq<Record>) {
    forall i :: 0 <= i < |s| ==> s[i].fileName.Some?
  }

  /** Sorted named records are grouped: a name between two equal ones is equal to them. */
  lemma SortedGrouped(s: seq<Record>)
    requires SortedByName(s) && AllNamed(s)
    ensures Grouped(s)
  {
    forall i, j, k | 0 <= i < j < k < |s| && s[i].fileName == s[k].fileName
      ensures s[j].fileName == s[i].fileName
    {
      if s[j].fileName != s[i].fileName {
        LessTotal(s[i].fileName.value, s[j].fileName.value);
      }
    }
  }

  /** What `sorted` hands to `groupby` when it does not raise: one run per name. */
  lemma SortGrouped(records: seq<Record>)
    requires Orderable(records)
    ensures Grouped(Sort(records))
    ensures |records| > 1 ==> SortedByName(Sort(records)) && AllNamed(Sort(records))
  {
    var sorted := Sort(records);
    SortMembers(records);
    if |records| > 1 {
      forall i | 0 <= i < |sorted|
        ensures sorted[i].fileName.Some?
      {
        assert sorted[i] in records;
      }
      SortSorted(records);
      SortedGrouped(sorted);
    }
  }

  /** Over sorted, grouped, named records the rows rise strictly by name. */
  lemma {:induction false} RowsAfterAscending(s: seq<Record>, n: nat)
    requires n <= |s| && SortedByName(s) && AllNamed(s) && Grouped(s)
    ensures var rows := RowsAfter(s, n);
      forall i, j :: 0 <= i < j < |rows| ==> NameLess(rows[i], rows[j])
  {
    if n > 0 {
      RowsAfterAscending(s, n - 1);
      if StartsGroup(s, n) {
        var prev := RowsAfter(s, n - 1);
        var name := s[n - 1].fileName;
        RowsAfterNames(s, n - 1);
        NewNameIsNew(s, n);
        forall i | 0 <= i < |prev|
          ensures NameLess(prev[i], name)
        {
          assert prev[i] in prev;
          var a :| 0 <= a < n - 1 && a < |s| && s[a].fileName == prev[i];
          assert !NameLess(name, s[a].fileName);
          LessTotal(s[a].fileName.value, name.value);
        }
        var rows := prev + [name];
        assert RowsAfter(s, n) == rows;
        forall i, j | 0 <= i < j < |rows|
          ensures NameLess(rows[i], rows[j])
        {
          if j < |prev| {
            assert rows[i] == prev[i] && rows[j] == prev[j];
          }
        }
      } else {
        assert RowsAfter(s, n) == RowsAfter(s, n - 1);
      }
    }
  }

  /** The table has the project's columns, each with one cell per row. */
  lemma ToDlcColumns(records: seq<Record>, config: DlcConfig, isMultiAnimal: bool)
    requires ToDlc(records, config, isMultiAnimal).Success?
    ensures var t := ToDlc(records, config, isMultiAnimal).value;
      t.columns == ColumnIndex(config, isMultiAnimal) && t.data.Keys == ColumnSet(config, isMultiAnimal) && Rectangular(t)
  {
    var sorted := Sort(records);
    FillColumns(sorted, |sorted|, ColumnIndex(config, isMultiAnimal), config, isMultiAnimal);
    FillRectangular(sorted, |sorted|, ColumnIndex(config, isMultiAnimal), config, isMultiAnimal);
  }

  /**
   * Conversion succeeds exactly when `sorted` can order the records and both
   * cells of every record are columns of the project.
   */
  lemma ToDlcSucceeds(records: seq<Record>, config: DlcConfig, isMultiAnimal: bool)
    ensures ToDlc(records, config, isMultiAnimal).Success? <==>
      Orderable(records) && forall i :: 0 <= i < |records| ==> Fits(ColumnIndex(config, isMultiAnimal), config, isMultiAnimal, records[i])
  {
    if Orderable(records) {
      var columns := ColumnIndex(config, isMultiAnimal);
      var sorted := Sort(records);
      SortMembers(records);
      FillSucceeds(sorted, |sorted|, columns, config, isMultiAnimal);
      if forall i :: 0 <= i < |records| ==> Fits(columns, config, isMultiAnimal, records[i]) {
        forall i | 0 <= i < |sorted|
          ensures Fits(columns, config, isMultiAnimal, sorted[i])
        {
          assert sorted[i] in records;
        }
      }
      if forall i :: 0 <= i < |sorted| ==> Fits(columns, config, isMultiAnimal, sorted[i]) {
        forall i | 0 <= i < |records|
          ensures Fits(columns, config, isMultiAnimal, records[i])
        {
          assert records[i] in sorted;
        }
      }
    }
  }

  /**
   * A failed conversion raises `TypeError` exactly when `sorted` cannot order
   * the records, and otherwise `KeyError` for a cell of one of the records that
   * is not a column.
   */
  lemma ToDlcErrors(records: seq<Record>, config: DlcConfig, isMultiAnimal: bool)
    requires ToDlc(records, config, isMultiAnimal).Failure?
    ensures ToDlc(records, config, isMultiAnimal).error == SortTypeError <==> !Orderable(records)
    ensures Orderable(records) ==>
      exists i, coord ::
        0 <= i < |records|
        && ToDlc(records, config, isMultiAnimal).error == ColumnKeyError(RecordKey(config, isMultiAnimal, records[i], coord))
        && RecordKey(config, isMultiAnimal, records[i], coord) !in ColumnIndex(config, isMultiAnimal)
  {
    if Orderable(records) {
      var sorted := Sort(records);
      SortMembers(records);
      FillErrorKey(sorted, |sorted|, ColumnIndex(config, isMultiAnimal), config, isMultiAnimal);
      var i, coord :| 0 <= i < |sorted|
        && ToDlc(records, config, isMultiAnimal).error == ColumnKeyError(RecordKey(config, isMultiAnimal, sorted[i], coord))
        && RecordKey(config, isMultiAnimal, sorted[i], coord) !in ColumnIndex(config, isMultiAnimal);
      assert sorted[i] in records;
    }
  }

  /**
   * In a multi-animal project a keypoint not assigned to an individual makes
   * the conversion fail: its key names no individual, and every column does.
   */
  lemma UnaffiliatedKeypointRejected(records: seq<Record>, config: DlcConfig, i: int)
    requires 0 <= i < |records| && records[i].individual.None?
    ensures ToDlc(records, config, true).Failure?
  {
    ToDlcSucceeds(records, config, true);
    ColumnIndexMembership(config, true, RecordKey(config, true, records[i], X));
  }

  /**
   * The rows are the distinct file names of the records, each once, in
   * strictly ascending order.
   */
  lemma ToDlcRows(records: seq<Record>, config: DlcConfig, isMultiAnimal: bool)
    requires ToDlc(records, config, isMultiAnimal).Success?
    ensures var rows := ToDlc(records, config, isMultiAnimal).value.rows;
      (forall name :: name in rows <==> exists i :: 0 <= i < |records| && records[i].fileName == name)
      && (forall i, j :: 0 <= i < j < |rows| ==> rows[i] != rows[j])
      && (forall i, j :: 0 <= i < j < |rows| ==> NameLess(rows[i], rows[j]))
  {
    ToDlcRowsAfter(records, config, isMultiAnimal);
    SortedRows(records);
  }

  /** A successful conversion has the rows the walk over the sorted records opens. */
  lemma ToDlcRowsAfter(records: seq<Record>, config: DlcConfig, isMultiAnimal: bool)
    requires ToDlc(records, config, isMultiAnimal).Success?
    ensures Orderable(records)
    ensures ToDlc(records, config, isMultiAnimal).value.rows == RowsAfter(Sort(records), |Sort(records)|)
  {
    var sorted := Sort(records);
    FillRowsAre(sorted, |sorted|, ColumnIndex(config, isMultiAnimal), config, isMultiAnimal);
  }

  /** The rows the walk over the sorted records opens: each file name once, in ascending order. */
  lemma SortedRows(records: seq<Record>)
    requires Orderable(records)
    ensures var rows := RowsAfter(Sort(records), |Sort(records)|);
      (forall name :: name in rows <==> exists i :: 0 <= i < |records| && records[i].fileName == name)
      && (forall i, j :: 0 <= i < j < |rows| ==> rows[i] != rows[j])
      && (forall i, j :: 0 <= i < j < |rows| ==> NameLess(rows[i], rows[j]))
  {
    var sorted := Sort(records);
    var rows := RowsAfter(sorted, |sorted|);
    SortMembers(records);
    SortGrouped(records);
    RowsAfterNames(sorted, |sorted|);
    forall name
      ensures name in rows <==> exists i :: 0 <= i < |records| && records[i].fileName == name
    {
      SortNamedBefore(records, name);
    }
    if |records| > 1 {
      RowsAfterAscending(sorted, |sorted|);
    }
  }

  /** Sorting keeps the file names present. */
  lemma SortNamedBefore(records: seq<Record>, name: Option<string>)
    ensures NamedBefore(Sort(records), |Sort(records)|, name)
        <==> exists i :: 0 <= i < |records| && records[i].fileName == name
  {
    var sorted := Sort(records);
    SortMembers(records);
    if NamedBefore(sorted, |sorted|, name) {
      var a :| 0 <= a < |sorted| && sorted[a].fileName == name;
      assert sorted[a] in records;
    }
    if exists i :: 0 <= i < |records| && records[i].fileName == name {
      var i :| 0 <= i < |records| && records[i].fileName == name;
      assert records[i] in sorted;
    }
  }

  /**
   * Each cell holds the value of the last record, in the order the records
   * came in, of its row's image that writes its column, or `None` when no
   * record does: later annotations overwrite earlier ones, and sorting does
   * not reorder the records of one image.
   */
  lemma ToDlcCells(records: seq<Record>, config: DlcConfig, isMultiAnimal: bool, c: ColumnKey, k: int)
    requires ToDlc(records, config, isMultiAnimal).Success?
    requires c in ToDlc(records, config, isMultiAnimal).value.data && 0 <= k < |ToDlc(records, config, isMultiAnimal).value.rows|
    ensures var t := ToDlc(records, config, isMultiAnimal).value;
      k < |t.data[c]| && t.data[c][k] == LastValue(records, |records|, config, isMultiAnimal, t.rows[k], c)
  {
    var t := ToDlc(records, config, isMultiAnimal).value;
    var sorted := Sort(records);
    var name := t.rows[k];
    SortGrouped(records);
    FillCells(sorted, |sorted|, t, ColumnIndex(config, isMultiAnimal), config, isMultiAnimal, c, k);
    LastValueWithName(sorted, config, isMultiAnimal, name, c);
    LastValueWithName(records, config, isMultiAnimal, name, c);
    SortStable(records, name);
  }

  // ---------------------------------------------------------------------------
  // Splitting the records by directory
  // ---------------------------------------------------------------------------

  /**
   * `file_name.split(sep)[1]`, the directory under the labelled-data root:
   * `AttributeError` on a missing name, `IndexError` when the name has no
   * separator.
   */
  function GroupOf(fileName: Option<string>, sep: char): (g: Result<string, ExportError>)
    ensures g.Success? <==> fileName.Some? && sep in fileName.value
    ensures g.Success? ==> sep !in g.value
  {
    if fileName.None? then Failure(NameAttributeError)
    else
      var parts := Split(fileName.value, sep);
      if |parts| < 2 then Failure(GroupIndexError(fileName.value)) else Success(parts[1])
  }

  /** The group of a path is its second segment; a name without a separator has none. */
  lemma GroupOfPath(parts: seq<string>, sep: char)
    requires |parts| >= 1 && forall i :: 0 <= i < |parts| ==> sep !in parts[i]
    ensures var name := Join(parts, sep);
      GroupOf(Some(name), sep) == if |parts| >= 2 then Success(parts[1]) else Failure(GroupIndexError(name))
  {
    JoinSplit(parts, sep);
  }

  /**
   * `split_annotations_by_directory` over the first items: each goes to the
   * end of the list of its group, a new group placed last; the first item
   * without a group raises.
   */
  function SplitByDirectory<T>(items: seq<T>, nameOf: T -> Option<string>, sep: char): (r: Result<Dict<string, seq<T>>, ExportError>)
    ensures r.Success? ==> Valid(r.value)
  {
    if items == [] then Success(Empty())
    else
      var last := items[|items| - 1];
      match SplitByDirectory(items[..|items| - 1], nameOf, sep)
      case Failure(e) => Failure(e)
      case Success(grouped) =>
        match GroupOf(nameOf(last), sep)
        case Failure(e) => Failure(e)
        case Success(g) => Success(AppendTo(grouped, g, last))
  }

  /** The items of group `g`, in input order. */
  function InGroup<T>(items: seq<T>, nameOf: T -> Option<string>, sep: char, g: string): seq<T> {
    if items == [] then []
    else
      var last := items[|items| - 1];
      InGroup(items[..|items| - 1], nameOf, sep, g) + (if GroupOf(nameOf(last), sep) == Success(g) then [last] else [])
  }

  /** Once a prefix fails, the split fails with the same error. */
  lemma {:induction false} SplitFailurePersists<T>(items: seq<T>, nameOf: T -> Option<string>, sep: char, j: nat)
    requires j <= |items| && SplitByDirectory(items[..j], nameOf, sep).Failure?
    ensures SplitByDirectory(items, nameOf, sep) == SplitByDirectory(items[..j], nameOf, sep)
    decreases |items| - j
  {
    if j < |items| {
      assert items[..j + 1][..j] == items[..j];
      SplitFailurePersists(items, nameOf, sep, j + 1);
    } else {
      assert items[..j] == items;
    }
  }

  /** The split succeeds exactly when every item has a group. */
  lemma {:induction false} SplitSucceeds<T>(items: seq<T>, nameOf: T -> Option<string>, sep: char)
    ensures SplitByDirectory(items, nameOf, sep).Success? <==>
      forall i :: 0 <= i < |items| ==> GroupOf(nameOf(items[i]), sep).Success?
  {
    if items != [] {
      var front := items[..|items| - 1];
      SplitSucceeds(front, nameOf, sep);
      assert forall i :: 0 <= i < |front| ==> front[i] == items[i];
    }
  }

  /** A failed split raises the error of the first item without a group. */
  lemma {:induction false} SplitFirstError<T>(items: seq<T>, nameOf: T -> Option<string>, sep: char)
    requires SplitByDirectory(items, nameOf, sep).Failure?
    ensures exists i ::
              0 <= i < |items|
              && GroupOf(nameOf(items[i]), sep) == Failure(SplitByDirectory(items, nameOf, sep).error)
              && forall j :: 0 <= j < i ==> GroupOf(nameOf(items[j]), sep).Success?
  {
    var front := items[..|items| - 1];
    var last := items[|items| - 1];
    assert forall i :: 0 <= i < |front| ==> front[i] == items[i];
    if SplitByDirectory(front, nameOf, sep).Failure? {
      SplitFirstError(front, nameOf, sep);
      var i :| 0 <= i < |front|
        && GroupOf(nameOf(front[i]), sep) == Failure(SplitByDirectory(front, nameOf, sep).error)
        && forall j :: 0 <= j < i ==> GroupOf(nameOf(front[j]), sep).Success?;
      assert GroupOf(nameOf(items[i]), sep) == Failure(SplitByDirectory(items, nameOf, sep).error);
    } else {
      SplitSucceeds(front, nameOf, sep);
      assert GroupOf(nameOf(items[|items| - 1]), sep) == Failure(SplitByDirectory(items, nameOf, sep).error);
    }
  }

  /**
   * Each group holds exactly the items of that group, in input order, and a
   * group is present exactly when it has an item.
   */
  lemma {:induction false} SplitGroups<T>(items: seq<T>, nameOf: T -> Option<string>, sep: char, g: string)
    requires SplitByDirectory(items, nameOf, sep).Success?
    ensures var grouped := SplitByDirectory(items, nameOf, sep).value;
      ListAt(grouped, g) == InGroup(items, nameOf, sep, g)
      && (g in grouped.entries <==> InGroup(items, nameOf, sep, g) != [])
  {
    if items != [] {
      var front := items[..|items| - 1];
      SplitGroups(front, nameOf, sep, g);
    }
  }

  /** Every item lands in exactly one group: the groups together are the items, rearranged. */
  lemma {:induction false} SplitPermutation<T>(items: seq<T>, nameOf: T -> Option<string>, sep: char)
    requires SplitByDirectory(items, nameOf, sep).Success?
    ensures Regroups(SplitByDirectory(items, nameOf, sep).value, items)
  {
    if items != [] {
      var front, last := items[..|items| - 1], items[|items| - 1];
      SplitSnoc(items, nameOf, sep);
      SplitPermutation(front, nameOf, sep);
      RegroupsSnoc(SplitByDirectory(items, nameOf, sep).value, SplitByDirectory(front, nameOf, sep).value,
                   GroupOf(nameOf(last), sep).value, items);
    }
  }

  /** The grouping of a non-empty sequence: the last item appended to the grouping of the others. */
  lemma SplitSnoc<T>(items: seq<T>, nameOf: T -> Option<string>, sep: char)
    requires items != [] && SplitByDirectory(items, nameOf, sep).Success?
    ensures var front, last := items[..|items| - 1], items[|items| - 1];
      && SplitByDirectory(front, nameOf, sep).Success? && GroupOf(nameOf(last), sep).Success?
      && SplitByDirectory(items, nameOf, sep).value
         == AppendTo(SplitByDirectory(front, nameOf, sep).value, GroupOf(nameOf(last), sep).value, last)
  {
  }

  /** Appending the last item to a regrouping of the others regroups all the items. */
  lemma RegroupsSnoc<T>(out: Dict<string, seq<T>>, grouped: Dict<string, seq<T>>, g: string, items: seq<T>)
    requires items != [] && Valid(grouped) && Regroups(grouped, items[..|items| - 1])
    requires out == AppendTo(grouped, g, items[|items| - 1])
    ensures Regroups(out, items)
  {
    var front, last := items[..|items| - 1], items[|items| - 1];
    AppendToPermutation(grouped, g, front, last);
    assert items == front + [last];
  }

  /** The lists of `grouped` hold exactly the items, each as often. */
  ghost predicate Regroups<T>(grouped: Dict<string, seq<T>>, items: seq<T>) {
    && (forall k :: k in grouped.keys ==> k in grouped.entries)
    && multiset(Flatten(grouped.keys, grouped.entries)) == multiset(items)
  }

  /** Appending one more item to a grouping of `front` gives a grouping of `front + [last]`. */
  lemma AppendToPermutation<T>(grouped: Dict<string, seq<T>>, g: string, front: seq<T>, last: T)
    requires Valid(grouped) && Regroups(grouped, front)
    ensures Regroups(AppendTo(grouped, g, last), front + [last])
  {
    AppendToFlatten(grouped, g, last);
    assert multiset(front + [last]) == multiset(front) + multiset{last};
  }

  /**
   * `split_annotations_by_directory`: for each item in turn, create its
   * group's list when the group is new, then append the item to it.
   */
  method SplitAnnotationsByDirectory<T>(items: seq<T>, nameOf: T -> Option<string>, sep: char)
    returns (r: Result<Dict<string, seq<T>>, ExportError>)
    ensures r == SplitByDirectory(items, nameOf, sep)
  {
    var grouped: Dict<string, seq<T>> := Empty();
    for i := 0 to |items|
      invariant SplitByDirectory(items[..i], nameOf, sep) == Success(grouped)
    {
      assert items[..i + 1][..i] == items[..i];
      var group := GroupOf(nameOf(items[i]), sep);
      if group.Failure? {
        SplitFailurePersists(items, nameOf, sep, i + 1);
        return Failure(group.error);
      }
      var g := group.value;
      ghost var expected := AppendTo(grouped, g, items[i]);
      if g !in grouped.entries {
        grouped := Put(grouped, g, []);
      }
      grouped := Put(grouped, g, grouped.entries[g] + [items[i]]);
      assert grouped == expected;
    }
    assert items[..|items|] == items;
    return Success(grouped);
  }

  // ---------------------------------------------------------------------------
  // Converting Label Studio tasks
  // ---------------------------------------------------------------------------

  /** What a conversion returns: one table, or one table per group in group order. */
  datatype Converted = Whole(table: Table) | PerGroup(tables: Dict<string, Table>)

  /** The exception that ends a conversion: one from reading the tasks, or one from building tables. */
  datatype ConvertError = ParseFailed(parseError: ParseError) | ExportFailed(exportError: ExportError)

  /** `annot['file_name']`. */
  function FileNameOf(r: Record): Option<string> {
    r.fileName
  }

  /**
   * The tables of the groups `keys` in turn, each built by `build` from the
   * group's records; the first group whose table cannot be built raises.
   */
  function GroupTables(keys: seq<string>, groups: map<string, seq<Record>>, build: seq<Record> -> Result<Table, ExportError>): (r: Result<Dict<string, Table>, ExportError>)
    requires forall k :: k in keys ==> k in groups
    ensures r.Success? ==> Valid(r.value)
  {
    if keys == [] then Success(Empty())
    else
      var last := keys[|keys| - 1];
      match GroupTables(keys[..|keys| - 1], groups, build)
      case Failure(e) => Failure(e)
      case Success(tables) =>
        match build(groups[last])
        case Failure(e) => Failure(e)
        case Success(t) => Success(Put(tables, last, t))
  }

  /** The table of one group's records. */
  function GroupTable(config: DlcConfig, isMultiAnimal: bool): seq<Record> -> Result<Table, ExportError> {
    records => ToDlc(records, config, isMultiAnimal)
  }

  /**
   * `convert_ls_annot_to_dlc` without saving: read the records of all tasks,
   * then build one table of all of them, or split them by directory and build
   * one table per group.
   */
  function Convert(tasks: seq<Task>, config: DlcConfig, isMultiAnimal: bool, split: bool, sep: char): Result<Converted, ConvertError> {
    match AllRecords(tasks)
    case Failure(e) => Failure(ParseFailed(e))
    case Success(data) =>
      if split then
        match SplitByDirectory(data, FileNameOf, sep)
        case Failure(e) => Failure(ExportFailed(e))
        case Success(grouped) =>
          match GroupTables(grouped.keys, grouped.entries, GroupTable(config, isMultiAnimal))
          case Failure(e) => Failure(ExportFailed(e))
          case Success(tables) => Success(PerGroup(tables))
      else
        match ToDlc(data, config, isMultiAnimal)
        case Failure(e) => Failure(ExportFailed(e))
        case Success(t) => Success(Whole(t))
  }

  /** Once the tables of the first groups fail, all of them fail with the same error. */
  lemma {:induction false} GroupTablesFailurePersists(keys: seq<string>, groups: map<string, seq<Record>>, build: seq<Record> -> Result<Table, ExportError>, j: nat)
    requires j <= |keys| && forall k :: k in keys ==> k in groups
    requires GroupTables(keys[..j], groups, build).Failure?
    ensures GroupTables(keys, groups, build) == GroupTables(keys[..j], groups, build)
    decreases |keys| - j
  {
    if j < |keys| {
      assert keys[..j + 1][..j] == keys[..j];
      GroupTablesFailurePersists(keys, groups, build, j + 1);
    } else {
      assert keys[..j] == keys;
    }
  }

  /** The group tables exist exactly when every group's table does. */
  lemma {:induction false} GroupTablesSucceed(keys: seq<string>, groups: map<string, seq<Record>>, build: seq<Record> -> Result<Table, ExportError>)
    requires forall k :: k in keys ==> k in groups
    ensures GroupTables(keys, groups, build).Success? <==> forall i :: 0 <= i < |keys| ==> build(groups[keys[i]]).Success?
  {
    if keys != [] {
      var front := keys[..|keys| - 1];
      assert forall i :: 0 <= i < |front| ==> front[i] == keys[i];
      GroupTablesSucceed(front, groups, build);
    }
  }

  /** Over distinct groups there is one table per group, in group order, each built from that group's records. */
  lemma {:induction false} GroupTablesAre(keys: seq<string>, groups: map<string, seq<Record>>, build: seq<Record> -> Result<Table, ExportError>)
    requires Distinct(keys) && forall k :: k in keys ==> k in groups
    requires GroupTables(keys, groups, build).Success?
    ensures var tables := GroupTables(keys, groups, build).value;
      tables.keys == keys && forall k :: k in keys ==> build(groups[k]) == Success(tables.entries[k])
  {
    if keys != [] {
      var front := keys[..|keys| - 1];
      var last := keys[|keys| - 1];
      assert keys == front + [last];
      assert Distinct(front) && last !in front;
      GroupTablesAre(front, groups, build);
    }
  }

  /** Without splitting there is one table, and its rows are the file names of all the records. */
  lemma ConvertWhole(tasks: seq<Task>, config: DlcConfig, isMultiAnimal: bool, sep: char)
    requires Convert(tasks, config, isMultiAnimal, false, sep).Success?
    ensures AllRecords(tasks).Success?
    ensures var data := AllRecords(tasks).value;
      var out := Convert(tasks, config, isMultiAnimal, false, sep).value;
      out.Whole? && ToDlc(data, config, isMultiAnimal) == Success(out.table)
      && forall name :: name in out.table.rows <==> exists i :: 0 <= i < |data| && data[i].fileName == name
  {
    ToDlcRows(AllRecords(tasks).value, config, isMultiAnimal);
  }

  /**
   * With splitting, every record has a directory, and there is one table per
   * group in group order, each built from that group's records alone.
   */
  lemma ConvertPerGroup(tasks: seq<Task>, config: DlcConfig, isMultiAnimal: bool, sep: char)
    requires Convert(tasks, config, isMultiAnimal, true, sep).Success?
    ensures AllRecords(tasks).Success? && SplitByDirectory(AllRecords(tasks).value, FileNameOf, sep).Success?
    ensures var data := AllRecords(tasks).value;
      forall i :: 0 <= i < |data| ==> data[i].fileName.Some? && sep in data[i].fileName.value
    ensures var data := AllRecords(tasks).value;
      var grouped := SplitByDirectory(data, FileNameOf, sep).value;
      var out := Convert(tasks, config, isMultiAnimal, true, sep).value;
      out.PerGroup? && out.tables.keys == grouped.keys
      && forall g :: g in out.tables.entries ==>
           ToDlc(InGroup(data, FileNameOf, sep, g), config, isMultiAnimal) == Success(out.tables.entries[g])
  {
    var data := AllRecords(tasks).value;
    var grouped := SplitByDirectory(data, FileNameOf, sep).value;
    SplitSucceeds(data, FileNameOf, sep);
    GroupTablesAre(grouped.keys, grouped.entries, GroupTable(config, isMultiAnimal));
    forall g | g in grouped.keys
      ensures grouped.entries[g] == InGroup(data, FileNameOf, sep, g)
    {
      SplitGroups(data, FileNameOf, sep, g);
    }
  }

  /** The loop of `convert_ls_annot_to_dlc` over the groups: each group's records become its table. */
  method GroupsToDlc(keys: seq<string>, groups: map<string, seq<Record>>, config: DlcConfig, isMultiAnimal: bool)
    returns (r: Result<Dict<string, Table>, ExportError>)
    requires forall k :: k in keys ==> k in groups
    ensures r == GroupTables(keys, groups, GroupTable(config, isMultiAnimal))
  {
    var build := GroupTable(config, isMultiAnimal);
    var groupedDlc: Dict<string, Table> := Empty();
    for i := 0 to |keys|
      invariant GroupTables(keys[..i], groups, build) == Success(groupedDlc)
    {
      assert keys[..i + 1][..i] == keys[..i];
      var dlc := IntermediateAnnotationsToDlc(groups[keys[i]], config, isMultiAnimal);
      assert build(groups[keys[i]]) == dlc;
      if dlc.Failure? {
        GroupTablesFailurePersists(keys, groups, build, i + 1);
        return Failure(dlc.error);
      }
      groupedDlc := Put(groupedDlc, keys[i], dlc.value);
    }
    assert keys[..|keys|] == keys;
    return Success(groupedDlc);
  }

  /** `convert_ls_annot_to_dlc` with `save=False`. */
  method ConvertLsAnnotToDlc(tasks: seq<Task>, config: DlcConfig, isMultiAnimal: bool, split: bool, sep: char)
    returns (r: Result<Converted, ConvertError>)
    ensures r == Convert(tasks, config, isMultiAnimal, split, sep)
  {
    var data := ReadAnnotations(tasks);
    if data.Failure? {
      return Failure(ParseFailed(data.error));
    }
    if split {
      var grouped := SplitAnnotationsByDirectory(data.value, FileNameOf, sep);
      if grouped.Failure? {
        return Failure(ExportFailed(grouped.error));
      }
      var tables := GroupsToDlc(grouped.value.keys, grouped.value.entries, config, isMultiAnimal);
      if tables.Failure? {
        return Failure(ExportFailed(tables.error));
      }
      return Success(PerGroup(tables.value));
    } else {
      var dlc := IntermediateAnnotationsToDlc(data.value, config, isMultiAnimal);
      if dlc.Failure? {
        return Failure(ExportFailed(dlc.error));
      }
      return Success(Whole(dlc.value));
    }
  }
}
