/**
 * Parsing Label Studio task exports into flat keypoint records.
 *
 * A task carries a list of annotations; only the first annotation's `result`
 * list is read. The result items are rectangles (one per animal, the
 * "individuals"), keypoints, and relations linking a rectangle to the keypoints
 * of that animal. Keypoints reached from a rectangle through a relation are
 * popped from the keypoint index and emitted with the rectangle's label as
 * their individual; the keypoints left over are emitted with no individual.
 */
module AnnotParser {
  import opened Common
  import opened PyDict

  /** The two region types the parser indexes: `rectanglelabels` and `keypointlabels`. */
  datatype RegionKind = RectangleLabels | KeypointLabels

  /**
   * A labelled region: its `id`, its `value.<type>` label list, its `value.x`,
   * `value.y` in percent of the image, and the image's `original_width` and
   * `original_height` in pixels.
   */
  datatype Region = Region(kind: RegionKind, id: string, labels: seq<string>,
                           x: real, y: real, originalWidth: real, originalHeight: real)

  /** One element of an annotation's `result` list. */
  datatype ResultItem =
    | RegionItem(region: Region)
    | Relation(fromId: string, toId: string)
    | OtherItem(typeName: string)

  datatype Annotation = Annotation(result: seq<ResultItem>)

  /**
   * A task as exported by Label Studio. A field that the task's JSON object does
   * not have is `None`; `meta` and `data` are the string-valued parts of those
   * objects.
   */
  datatype Task = Task(
    id: int,
    annotations: Option<seq<Annotation>>,
    completions: Option<seq<Annotation>>,
    meta: Option<map<string, string>>,
    taskPath: Option<string>,
    data: Option<map<string, string>>)

  /** One keypoint of one image; `individual == None` marks a unique bodypart. */
  datatype Record = Record(taskId: int, fileName: Option<string>, individual: Option<string>,
                           bodypart: string, x: real, y: real)

  /** The key under which a task keeps its annotations (it differs between versions). */
  datatype AnnotationKey = AnnotationsKey | CompletionsKey

  /** The exception raised inside the per-task `try` block. */
  datatype Cause =
    | NoAnnotation              // `entry[key][0]` on an empty list
    | NoRelations(id: string)   // `relations[indv_id]` for a rectangle without relations
    | KeypointNotFound(id: string)  // `keypoints.pop(rel)` for an absent or already popped id
    | NoRegionLabel(id: string) // `[...labels][0]` on an empty label list

  datatype ParseError =
    | ValueError                // no annotation data in the task
    | KeyError(key: AnnotationKey)
    | RuntimeError(taskId: int, cause: Cause)

  // ---------------------------------------------------------------------------
  // Key selection and image path
  // ---------------------------------------------------------------------------

  function AnnotationList(task: Task, key: AnnotationKey): Option<seq<Annotation>> {
    match key
    case AnnotationsKey => task.annotations
    case CompletionsKey => task.completions
  }

  /** `annotations` is preferred, `completions` is the fallback, and neither is a `ValueError`. */
  function SelectKey(task: Task): (r: Result<AnnotationKey, ParseError>)
    ensures r == Success(AnnotationsKey) <==> task.annotations.Some?
    ensures r == Success(CompletionsKey) <==> task.annotations.None? && task.completions.Some?
    ensures r.Failure? <==> task.annotations.None? && task.completions.None?
    ensures r.Failure? ==> r.error == ValueError
    ensures r.Success? ==> AnnotationList(task, r.value).Some?
  {
    if task.annotations.Some? then Success(AnnotationsKey)
    else if task.completions.Some? then Success(CompletionsKey)
    else Failure(ValueError)
  }

  function Lookup(m: Option<map<string, string>>, field: string): Option<string> {
    if m.Some? && field in m.value then Some(m.value[field]) else None
  }

  /** The image path: `meta.original_file`, else `task_path`, else `data.image`, else `data.depth_image`. */
  function GetImagePath(task: Task): (p: Option<string>)
    ensures p.None? <==> Lookup(task.meta, "original_file").None? && task.taskPath.None?
                         && Lookup(task.data, "image").None? && Lookup(task.data, "depth_image").None?
  {
    if task.meta.Some? && "original_file" in task.meta.value then Some(task.meta.value["original_file"])
    else if task.taskPath.Some? then task.taskPath
    else if task.data.Some? && "image" in task.data.value then Some(task.data.value["image"])
    else if task.data.Some? && "depth_image" in task.data.value then Some(task.data.value["depth_image"])
    else None
  }

  /** The first present value of a list of candidates. */
  function FirstPresent(candidates: seq<Option<string>>): Option<string> {
    if candidates == [] then None
    else if candidates[0].Some? then candidates[0]
    else FirstPresent(candidates[1..])
  }

  /** The lookup order of `GetImagePath`, stated as a priority list. */
  lemma GetImagePathPriority(task: Task)
    ensures GetImagePath(task) == FirstPresent([Lookup(task.meta, "original_file"), task.taskPath,
                                                Lookup(task.data, "image"), Lookup(task.data, "depth_image")])
  {
    var c := [Lookup(task.meta, "original_file"), task.taskPath,
              Lookup(task.data, "image"), Lookup(task.data, "depth_image")];
    var c1, c2, c3 := [c[1], c[2], c[3]], [c[2], c[3]], [c[3]];
    assert c[1..] == c1 && c1[1..] == c2 && c2[1..] == c3 && c3[1..] == [];
    assert FirstPresent(c3) == c[3];
    assert FirstPresent(c2) == if c[2].Some? then c[2] else c[3];
  }

  // ---------------------------------------------------------------------------
  // Indexing regions by id
  // ---------------------------------------------------------------------------

  predicate KindAt(items: seq<ResultItem>, i: int, kind: RegionKind) {
    0 <= i < |items| && items[i].RegionItem? && items[i].region.kind == kind
  }

  /** Item `i` is a region of `kind` with identifier `id`. */
  predicate HasId(items: seq<ResultItem>, i: int, kind: RegionKind, id: string) {
    KindAt(items, i, kind) && items[i].region.id == id
  }

  /**
   * `filter_and_index`: the regions of `kind`, keyed by id. A repeated id keeps
   * its first position and takes the later region as its value.
   */
  function FilterAndIndex(items: seq<ResultItem>, kind: RegionKind): (d: Dict<string, Region>)
    ensures Valid(d)
    ensures forall id :: id in d.entries ==> d.entries[id].id == id && d.entries[id].kind == kind
  {
    if items == [] then Empty()
    else
      var index := FilterAndIndex(items[..|items| - 1], kind);
      var last := items[|items| - 1];
      if last.RegionItem? && last.region.kind == kind then Put(index, last.region.id, last.region)
      else index
  }

  /** Exactly the ids of regions of `kind` are indexed, each to its last region with that id. */
  lemma {:induction false} FilterAndIndexLastWins(items: seq<ResultItem>, kind: RegionKind, id: string)
    ensures id in FilterAndIndex(items, kind).entries <==> exists i :: HasId(items, i, kind, id)
    ensures id in FilterAndIndex(items, kind).entries ==>
      exists i :: HasId(items, i, kind, id) && FilterAndIndex(items, kind).entries[id] == items[i].region
        && forall j :: i < j < |items| ==> !HasId(items, j, kind, id)
  {
    if items != [] {
      var init := items[..|items| - 1];
      var last := items[|items| - 1];
      var before := FilterAndIndex(init, kind).entries;
      var after := FilterAndIndex(items, kind).entries;
      FilterAndIndexLastWins(init, kind, id);
      FilterAndIndexSnoc(items, kind);
      if HasId(items, |items| - 1, kind, id) {
        assert after[id] == last.region;
      } else {
        assert id in after <==> id in before;
        if id in before {
          assert after[id] == before[id];
          var i :| HasId(init, i, kind, id) && before[id] == init[i].region
                   && forall j :: i < j < |init| ==> !HasId(init, j, kind, id);
          assert HasId(items, i, kind, id);
          forall j | i < j < |items|
            ensures !HasId(items, j, kind, id)
          {
            if j < |init| {
              assert !HasId(init, j, kind, id);
            }
          }
        }
        if i :| HasId(items, i, kind, id) {
          assert HasId(init, i, kind, id);
        }
      }
    }
  }

  /** One more item: a region of `kind` is put under its id, anything else changes nothing. */
  lemma FilterAndIndexSnoc(items: seq<ResultItem>, kind: RegionKind)
    requires items != []
    ensures var last := items[|items| - 1];
      FilterAndIndex(items, kind).entries
        == if KindAt(items, |items| - 1, kind)
           then FilterAndIndex(items[..|items| - 1], kind).entries[last.region.id := last.region]
           else FilterAndIndex(items[..|items| - 1], kind).entries
  {
  }

  /** A kind that no item has indexes nothing. */
  lemma {:induction false} NothingIndexed(items: seq<ResultItem>, kind: RegionKind)
    requires forall i :: 0 <= i < |items| ==> !KindAt(items, i, kind)
    ensures FilterAndIndex(items, kind).keys == []
  {
    if items != [] {
      var init := items[..|items| - 1];
      assert forall i :: 0 <= i < |init| ==> !KindAt(init, i, kind) by {
        forall i | 0 <= i < |init| ensures !KindAt(init, i, kind) {
          assert !KindAt(items, i, kind);
        }
      }
      NothingIndexed(init, kind);
      assert !KindAt(items, |items| - 1, kind);
    }
  }

  /** The first occurrence of `a` comes before every occurrence of `b`. */
  ghost predicate OccursBefore(items: seq<ResultItem>, kind: RegionKind, a: string, b: string) {
    exists i :: HasId(items, i, kind, a) && forall j :: 0 <= j <= i ==> !HasId(items, j, kind, b)
  }

  /** An order already seen in a prefix stays true when one more item follows. */
  lemma OccursBeforeSnoc(items: seq<ResultItem>, kind: RegionKind, a: string, b: string)
    requires items != [] && OccursBefore(items[..|items| - 1], kind, a, b)
    ensures OccursBefore(items, kind, a, b)
  {
    var init := items[..|items| - 1];
    var i :| HasId(init, i, kind, a) && forall j :: 0 <= j <= i ==> !HasId(init, j, kind, b);
    assert HasId(items, i, kind, a);
    forall j | 0 <= j <= i ensures !HasId(items, j, kind, b) {
      assert !HasId(init, j, kind, b);
    }
  }

  /** An id indexed by a prefix occurs before an id the prefix never indexed. */
  lemma OccursBeforeNew(items: seq<ResultItem>, kind: RegionKind, a: string, b: string)
    requires items != []
    requires a in FilterAndIndex(items[..|items| - 1], kind).entries
    requires b !in FilterAndIndex(items[..|items| - 1], kind).entries
    ensures OccursBefore(items, kind, a, b)
  {
    var init := items[..|items| - 1];
    FilterAndIndexLastWins(init, kind, a);
    FilterAndIndexLastWins(init, kind, b);
    var i :| HasId(init, i, kind, a);
    assert HasId(items, i, kind, a);
    forall j | 0 <= j <= i ensures !HasId(items, j, kind, b) {
      assert !HasId(init, j, kind, b);
    }
  }

  /** Ids are listed in the order of their first occurrence. */
  lemma {:induction false} FilterAndIndexOrder(items: seq<ResultItem>, kind: RegionKind)
    ensures forall p, q :: 0 <= p < q < |FilterAndIndex(items, kind).keys| ==>
      OccursBefore(items, kind, FilterAndIndex(items, kind).keys[p], FilterAndIndex(items, kind).keys[q])
  {
    if items != [] {
      var init := items[..|items| - 1];
      var d0 := FilterAndIndex(init, kind);
      var d := FilterAndIndex(items, kind);
      FilterAndIndexOrder(init, kind);
      forall p, q | 0 <= p < q < |d.keys|
        ensures OccursBefore(items, kind, d.keys[p], d.keys[q])
      {
        if q < |d0.keys| {
          assert d.keys[p] == d0.keys[p] && d.keys[q] == d0.keys[q];
          OccursBeforeSnoc(items, kind, d.keys[p], d.keys[q]);
        } else {
          // the last item's id was new and is listed last
          assert d.keys[p] in d0.keys && d.keys[q] !in d0.keys;
          OccursBeforeNew(items, kind, d.keys[p], d.keys[q]);
        }
      }
    }
  }

  // ---------------------------------------------------------------------------
  // The two-way relation map
  // ---------------------------------------------------------------------------

  /** `build_relation_map`: each relation lists `to` under `from` and `from` under `to`. */
  function RelationMap(items: seq<ResultItem>): (m: Dict<string, seq<string>>)
    ensures Valid(m)
  {
    if items == [] then Empty()
    else
      var m0 := RelationMap(items[..|items| - 1]);
      var last := items[|items| - 1];
      if last.Relation? then AppendTo(AppendTo(m0, last.fromId, last.toId), last.toId, last.fromId)
      else m0
  }

  /** `if k not in relmap: relmap[k] = []` followed by `relmap[k].append(v)`. */
  method AddNeighbor(relmap: Dict<string, seq<string>>, k: string, v: string) returns (r: Dict<string, seq<string>>)
    requires Valid(relmap)
    ensures r == AppendTo(relmap, k, v)
  {
    r := relmap;
    if k !in r.entries {
      r := Put(r, k, []);
    }
    r := Put(r, k, r.entries[k] + [v]);
  }

  method BuildRelationMap(items: seq<ResultItem>) returns (relmap: Dict<string, seq<string>>)
    ensures relmap == RelationMap(items)
  {
    relmap := Empty();
    var i := 0;
    while i < |items|
      invariant 0 <= i <= |items|
      invariant relmap == RelationMap(items[..i])
    {
      assert items[..i + 1][..i] == items[..i];
      var rel := items[i];
      if rel.Relation? {
        relmap := AddNeighbor(relmap, rel.fromId, rel.toId);
        relmap := AddNeighbor(relmap, rel.toId, rel.fromId);
      }
      i := i + 1;
    }
    assert items[..i] == items;
  }

  /** `item` is a relation between `a` and `b`, in one direction or the other. */
  predicate Joins(item: ResultItem, a: string, b: string) {
    item.Relation? && ((item.fromId == a && item.toId == b) || (item.fromId == b && item.toId == a))
  }

  /** One more item changes the list under `a` only by the relation's other end. */
  lemma RelationMapStep(items: seq<ResultItem>, a: string)
    requires items != []
    ensures var last := items[|items| - 1];
      ListAt(RelationMap(items), a)
        == ListAt(RelationMap(items[..|items| - 1]), a)
           + (if last.Relation? && a == last.fromId then [last.toId] else [])
           + (if last.Relation? && a == last.toId then [last.fromId] else [])
  {
    var last := items[|items| - 1];
    var m0 := RelationMap(items[..|items| - 1]);
    if last.Relation? {
      var m1 := AppendTo(m0, last.fromId, last.toId);
      assert ListAt(m1, a) == ListAt(m0, a) + (if a == last.fromId then [last.toId] else []);
    }
  }

  lemma RelationMapStepMember(items: seq<ResultItem>, a: string, b: string)
    requires items != []
    ensures b in ListAt(RelationMap(items), a)
        <==> b in ListAt(RelationMap(items[..|items| - 1]), a) || Joins(items[|items| - 1], a, b)
  {
    RelationMapStep(items, a);
    ListStepMember(ListAt(RelationMap(items), a), ListAt(RelationMap(items[..|items| - 1]), a), items[|items| - 1], a, b);
  }

  /** Membership in a list extended by the ends of one relation. */
  lemma ListStepMember(l: seq<string>, l0: seq<string>, last: ResultItem, a: string, b: string)
    requires l == l0 + (if last.Relation? && a == last.fromId then [last.toId] else [])
                     + (if last.Relation? && a == last.toId then [last.fromId] else [])
    ensures b in l <==> b in l0 || Joins(last, a, b)
  {
    var e1: seq<string> := if last.Relation? && a == last.fromId then [last.toId] else [];
    var e2: seq<string> := if last.Relation? && a == last.toId then [last.fromId] else [];
    InConcat3(l0, e1, e2, b);
  }

  lemma InConcat3<T>(s0: seq<T>, s1: seq<T>, s2: seq<T>, x: T)
    ensures x in s0 + s1 + s2 <==> x in s0 || x in s1 || x in s2
  {
  }

  /** `b` is listed under `a` exactly when some relation joins `a` and `b`, in either direction. */
  lemma {:induction false} RelationMapSymmetric(items: seq<ResultItem>, a: string, b: string)
    ensures b in ListAt(RelationMap(items), a) <==> exists i :: 0 <= i < |items| && Joins(items[i], a, b)
  {
    if items != [] {
      var init := items[..|items| - 1];
      var last := items[|items| - 1];
      RelationMapSymmetric(init, a, b);
      RelationMapStepMember(items, a, b);
      if exists i :: 0 <= i < |items| && Joins(items[i], a, b) {
        var i :| 0 <= i < |items| && Joins(items[i], a, b);
        if i < |init| {
          assert Joins(init[i], a, b);
        }
      }
      if exists i :: 0 <= i < |init| && Joins(init[i], a, b) {
        var i :| 0 <= i < |init| && Joins(init[i], a, b);
        assert Joins(items[i], a, b);
      }
    }
  }

  /** The number of relation items. */
  function RelationCount(items: seq<ResultItem>): nat {
    if items == [] then 0
    else RelationCount(items[..|items| - 1]) + (if items[|items| - 1].Relation? then 1 else 0)
  }

  /** The adjacency lists hold two entries per relation item. */
  lemma {:induction false} RelationMapTotal(items: seq<ResultItem>)
    ensures |Flatten(RelationMap(items).keys, RelationMap(items).entries)| == 2 * RelationCount(items)
  {
    if items != [] {
      var init := items[..|items| - 1];
      var last := items[|items| - 1];
      RelationMapTotal(init);
      if last.Relation? {
        var m0 := RelationMap(init);
        var m1 := AppendTo(m0, last.fromId, last.toId);
        AppendToFlatten(m0, last.fromId, last.toId);
        AppendToFlatten(m1, last.toId, last.fromId);
        assert |multiset(Flatten(RelationMap(items).keys, RelationMap(items).entries))|
            == |multiset(Flatten(m0.keys, m0.entries))| + 2;
      }
    }
  }

  /** The relation items alone, in order. */
  function RelationsOnly(items: seq<ResultItem>): (r: seq<ResultItem>)
    ensures forall x :: x in r ==> x.Relation?
  {
    if items == [] then []
    else
      var last := items[|items| - 1];
      RelationsOnly(items[..|items| - 1]) + (if last.Relation? then [last] else [])
  }

  /** Items of any other type do not affect the relation map. */
  lemma {:induction false} RelationMapIgnoresOthers(items: seq<ResultItem>)
    ensures RelationMap(items) == RelationMap(RelationsOnly(items))
  {
    if items != [] {
      var init := items[..|items| - 1];
      var last := items[|items| - 1];
      RelationMapIgnoresOthers(init);
      var r := RelationsOnly(items);
      if last.Relation? {
        assert r == RelationsOnly(init) + [last];
        assert r[..|r| - 1] == RelationsOnly(init);
      } else {
        assert r == RelationsOnly(init);
      }
    }
  }

  // ---------------------------------------------------------------------------
  // Consuming keypoints
  // ---------------------------------------------------------------------------

  /** The record written for keypoint `kpt`; the percent coordinates become pixels. */
  function KeypointRecord(taskId: int, fileName: Option<string>, individual: Option<string>, kpt: Region): Record
    requires kpt.labels != []
  {
    Record(taskId, fileName, individual, kpt.labels[0],
           kpt.x * kpt.originalWidth / 100.0, kpt.y * kpt.originalHeight / 100.0)
  }

  /** The records written so far and the keypoint index not yet popped. */
  datatype Progress = Progress(out: seq<Record>, keypoints: Dict<string, Region>)

  /** Every record carries this task's id and file name. */
  ghost predicate Tagged(rs: seq<Record>, taskId: int, fileName: Option<string>) {
    forall i :: 0 <= i < |rs| ==> rs[i].taskId == taskId && rs[i].fileName == fileName
  }

  /**
   * The inner loop for one rectangle `indv`: pop each related id from the
   * keypoint index and write its record under the rectangle's label.
   */
  function ConsumeRelated(taskId: int, fileName: Option<string>, indv: Region, rels: seq<string>, p: Progress)
    : (r: Result<Progress, Cause>)
    requires Valid(p.keypoints)
    ensures r.Success? ==> Valid(r.value.keypoints)
    decreases |rels|
  {
    if rels == [] then Success(p)
    else if rels[0] !in p.keypoints.entries then Failure(KeypointNotFound(rels[0]))
    else
      var kpt := p.keypoints.entries[rels[0]];
      var rest := Pop(p.keypoints, rels[0]);
      if indv.labels == [] then Failure(NoRegionLabel(indv.id))
      else if kpt.labels == [] then Failure(NoRegionLabel(rels[0]))
      else ConsumeRelated(taskId, fileName, indv, rels[1..],
                          Progress(p.out + [KeypointRecord(taskId, fileName, Some(indv.labels[0]), kpt)], rest))
  }

  /** One step of a rectangle's pass: the first related keypoint is popped and its record written. */
  lemma ConsumeRelatedStep(taskId: int, fileName: Option<string>, indv: Region, rels: seq<string>, p: Progress)
    requires Valid(p.keypoints) && rels != []
    requires ConsumeRelated(taskId, fileName, indv, rels, p).Success?
    ensures rels[0] in p.keypoints.entries && indv.labels != [] && p.keypoints.entries[rels[0]].labels != []
    ensures ConsumeRelated(taskId, fileName, indv, rels, p)
         == ConsumeRelated(taskId, fileName, indv, rels[1..],
              Progress(p.out + [KeypointRecord(taskId, fileName, Some(indv.labels[0]), p.keypoints.entries[rels[0]])],
                       Pop(p.keypoints, rels[0])))
  {
  }

  /**
   * A rectangle's pass succeeds only if its related ids are distinct keypoints
   * still in the index, and exactly those leave the index.
   */
  lemma {:induction false} ConsumeRelatedClaims(taskId: int, fileName: Option<string>, indv: Region, rels: seq<string>, p: Progress)
    requires Valid(p.keypoints)
    requires ConsumeRelated(taskId, fileName, indv, rels, p).Success?
    ensures Distinct(rels) && forall x :: x in rels ==> x in p.keypoints.entries
    ensures ConsumeRelated(taskId, fileName, indv, rels, p).value.keypoints.entries
         == p.keypoints.entries - (set x | x in rels)
    ensures |ConsumeRelated(taskId, fileName, indv, rels, p).value.keypoints.keys| == |p.keypoints.keys| - |rels|
    decreases |rels|
  {
    if rels != [] {
      ConsumeRelatedStep(taskId, fileName, indv, rels, p);
      var kpt := p.keypoints.entries[rels[0]];
      var rec := KeypointRecord(taskId, fileName, Some(indv.labels[0]), kpt);
      var p' := Progress(p.out + [rec], Pop(p.keypoints, rels[0]));
      ConsumeRelatedClaims(taskId, fileName, indv, rels[1..], p');
      assert p'.keypoints.entries == p.keypoints.entries - {rels[0]};
      assert rels[0] !in rels[1..];
      DistinctCons(rels);
      SetOfCons(rels);
    }
  }

  /** A sequence whose tail is distinct and does not hold its head is distinct. */
  lemma DistinctCons<T>(s: seq<T>)
    requires s != [] && Distinct(s[1..]) && s[0] !in s[1..]
    ensures Distinct(s)
  {
    forall i, j | 0 <= i < j < |s| ensures s[i] != s[j] {
      if i > 0 {
        assert s[i] == s[1..][i - 1] && s[j] == s[1..][j - 1];
      } else {
        assert s[j] in s[1..];
      }
    }
  }

  /** Two distinct sequences with no element in common concatenate to a distinct sequence. */
  lemma DistinctConcat<T>(a: seq<T>, b: seq<T>)
    requires Distinct(a) && Distinct(b) && forall x :: x in b ==> x !in a
    ensures Distinct(a + b)
  {
    var all := a + b;
    forall i, j | 0 <= i < j < |all| ensures all[i] != all[j] {
      if j < |a| {
        assert all[i] == a[i] && all[j] == a[j];
      } else if i >= |a| {
        assert all[i] == b[i - |a|] && all[j] == b[j - |a|];
      } else {
        assert all[i] == a[i] && all[j] == b[j - |a|];
        assert b[j - |a|] in b;
      }
    }
  }

  /** The elements of a concatenation: those of both parts. */
  lemma SetOfConcat<T>(a: seq<T>, b: seq<T>)
    ensures (set x | x in a + b) == (set x | x in a) + (set x | x in b)
  {
  }

  /** The elements of a non-empty sequence: its head and those of its tail. */
  lemma SetOfCons<T>(s: seq<T>)
    requires s != []
    ensures (set x | x in s) == {s[0]} + (set x | x in s[1..])
  {
  }

  /**
   * `out` is `prefix` followed by one record per id of `rels`, in order, each
   * read from the keypoint `kps` holds for that id, under `indv`'s label.
   */
  ghost predicate WritesRelated(out: seq<Record>, prefix: seq<Record>, taskId: int, fileName: Option<string>,
                                indv: Region, rels: seq<string>, kps: map<string, Region>) {
    && |out| == |prefix| + |rels| && out[..|prefix|] == prefix
    && forall k :: 0 <= k < |rels| ==>
         rels[k] in kps && indv.labels != [] && kps[rels[k]].labels != [] &&
         out[|prefix| + k] == KeypointRecord(taskId, fileName, Some(indv.labels[0]), kps[rels[k]])
  }

  /** Writing the head's record, then the tail's records from the index without the head, writes them all. */
  lemma WritesRelatedCons(out: seq<Record>, prefix: seq<Record>, taskId: int, fileName: Option<string>,
                          indv: Region, rels: seq<string>, kps: map<string, Region>)
    requires rels != [] && rels[0] in kps && indv.labels != [] && kps[rels[0]].labels != []
    requires WritesRelated(out, prefix + [KeypointRecord(taskId, fileName, Some(indv.labels[0]), kps[rels[0]])],
                           taskId, fileName, indv, rels[1..], kps - {rels[0]})
    ensures WritesRelated(out, prefix, taskId, fileName, indv, rels, kps)
  {
    var rec := KeypointRecord(taskId, fileName, Some(indv.labels[0]), kps[rels[0]]);
    var prefix' := prefix + [rec];
    assert out[..|prefix|] == out[..|prefix'|][..|prefix|];
    forall k | 0 <= k < |rels|
      ensures rels[k] in kps && kps[rels[k]].labels != []
      ensures out[|prefix| + k] == KeypointRecord(taskId, fileName, Some(indv.labels[0]), kps[rels[k]])
    {
      if k == 0 {
        assert out[|prefix|] == out[..|prefix'|][|prefix|];
      } else {
        assert rels[k] == rels[1..][k - 1];
        assert |prefix'| + (k - 1) == |prefix| + k;
      }
    }
  }

  /**
   * A successful rectangle pass appends one record per related keypoint, in
   * relation order, under the rectangle's label; earlier records are kept.
   */
  lemma {:induction false} ConsumeRelatedOutput(taskId: int, fileName: Option<string>, indv: Region, rels: seq<string>, p: Progress)
    requires Valid(p.keypoints)
    requires ConsumeRelated(taskId, fileName, indv, rels, p).Success?
    ensures WritesRelated(ConsumeRelated(taskId, fileName, indv, rels, p).value.out, p.out, taskId, fileName, indv, rels,
                          p.keypoints.entries)
    decreases |rels|
  {
    if rels == [] {
      assert p.out[..|p.out|] == p.out;
    } else {
      ConsumeRelatedStep(taskId, fileName, indv, rels, p);
      var kpt := p.keypoints.entries[rels[0]];
      var rec := KeypointRecord(taskId, fileName, Some(indv.labels[0]), kpt);
      var p' := Progress(p.out + [rec], Pop(p.keypoints, rels[0]));
      ConsumeRelatedOutput(taskId, fileName, indv, rels[1..], p');
      WritesRelatedCons(ConsumeRelated(taskId, fileName, indv, rels, p).value.out, p.out, taskId, fileName, indv, rels,
                        p.keypoints.entries);
    }
  }

  /**
   * The outer loop over the rectangles `ids` (in index order): each needs an
   * entry in the relation map, and then consumes its related keypoints.
   */
  function ConsumeIndividuals(taskId: int, fileName: Option<string>, ids: seq<string>, regions: map<string, Region>,
                              relmap: Dict<string, seq<string>>, p: Progress)
    : (r: Result<Progress, Cause>)
    requires forall id :: id in ids ==> id in regions
    requires Valid(p.keypoints)
    ensures r.Success? ==> Valid(r.value.keypoints)
    decreases |ids|
  {
    if ids == [] then Success(p)
    else if ids[0] !in relmap.entries then Failure(NoRelations(ids[0]))
    else
      match ConsumeRelated(taskId, fileName, regions[ids[0]], relmap.entries[ids[0]], p)
      case Failure(c) => Failure(c)
      case Success(q) => ConsumeIndividuals(taskId, fileName, ids[1..], regions, relmap, q)
  }

  /** The related lists of the rectangles, concatenated in rectangle order. */
  function Claimed(ids: seq<string>, relmap: Dict<string, seq<string>>): seq<string> {
    if ids == [] then [] else ListAt(relmap, ids[0]) + Claimed(ids[1..], relmap)
  }

  /**
   * The rectangles' pass succeeds only if every rectangle has relations and
   * no keypoint is claimed twice or is missing from the index; the claimed
   * keypoints are exactly the ones that leave the index.
   */
  lemma {:induction false} ConsumeIndividualsClaims(taskId: int, fileName: Option<string>, ids: seq<string>,
                                                    regions: map<string, Region>, relmap: Dict<string, seq<string>>, p: Progress)
    requires forall id :: id in ids ==> id in regions
    requires Valid(p.keypoints)
    requires ConsumeIndividuals(taskId, fileName, ids, regions, relmap, p).Success?
    ensures forall id :: id in ids ==> id in relmap.entries
    ensures Distinct(Claimed(ids, relmap))
    ensures forall x :: x in Claimed(ids, relmap) ==> x in p.keypoints.entries
    ensures ConsumeIndividuals(taskId, fileName, ids, regions, relmap, p).value.keypoints.entries
         == p.keypoints.entries - (set x | x in Claimed(ids, relmap))
    ensures |ConsumeIndividuals(taskId, fileName, ids, regions, relmap, p).value.keypoints.keys|
         == |p.keypoints.keys| - |Claimed(ids, relmap)|
    decreases |ids|
  {
    if ids != [] {
      var rels := relmap.entries[ids[0]];
      var q := ConsumeRelated(taskId, fileName, regions[ids[0]], rels, p).value;
      ConsumeRelatedClaims(taskId, fileName, regions[ids[0]], rels, p);
      ConsumeIndividualsClaims(taskId, fileName, ids[1..], regions, relmap, q);
      var rest := Claimed(ids[1..], relmap);
      assert Claimed(ids, relmap) == rels + rest;
      var r := ConsumeIndividuals(taskId, fileName, ids, regions, relmap, p).value;
      assert r == ConsumeIndividuals(taskId, fileName, ids[1..], regions, relmap, q).value;
      ClaimsCompose(p.keypoints, q.keypoints, r.keypoints, rels, rest);
    }
  }

  /** `after` is `before` with exactly the distinct keys `taken` popped. */
  ghost predicate Claims<K, V>(before: Dict<K, V>, after: Dict<K, V>, taken: seq<K>) {
    && Distinct(taken)
    && (forall x :: x in taken ==> x in before.entries)
    && after.entries == before.entries - (set x | x in taken)
    && |after.keys| == |before.keys| - |taken|
  }

  /** Popping `a` and then `b` pops `a + b`. */
  lemma ClaimsCompose<K, V>(p: Dict<K, V>, q: Dict<K, V>, r: Dict<K, V>, a: seq<K>, b: seq<K>)
    requires Claims(p, q, a) && Claims(q, r, b)
    ensures Claims(p, r, a + b)
  {
    var sa, sb := set x | x in a, set x | x in b;
    assert forall x :: x in b ==> x !in a by {
      forall x | x in b ensures x !in a {
        assert x in q.entries;
      }
    }
    DistinctConcat(a, b);
    SetOfConcat(a, b);
    assert r.entries == p.entries - (sa + sb);
  }

  /** The records from position `from` on carry this task's id and file name and an individual. */
  ghost predicate IndividualRecords(out: seq<Record>, from: nat, taskId: int, fileName: Option<string>) {
    forall k :: from <= k < |out| ==>
      out[k].taskId == taskId && out[k].fileName == fileName && out[k].individual.Some?
  }

  lemma ConsumeRelatedTagged(taskId: int, fileName: Option<string>, indv: Region, rels: seq<string>, p: Progress)
    requires Valid(p.keypoints)
    requires ConsumeRelated(taskId, fileName, indv, rels, p).Success?
    ensures IndividualRecords(ConsumeRelated(taskId, fileName, indv, rels, p).value.out, |p.out|, taskId, fileName)
  {
    var q := ConsumeRelated(taskId, fileName, indv, rels, p).value;
    ConsumeRelatedOutput(taskId, fileName, indv, rels, p);
    forall k | |p.out| <= k < |q.out|
      ensures q.out[k].taskId == taskId && q.out[k].fileName == fileName && q.out[k].individual.Some?
    {
      var j := k - |p.out|;
      assert q.out[k] == q.out[|p.out| + j];
      assert q.out[k] == KeypointRecord(taskId, fileName, Some(indv.labels[0]), p.keypoints.entries[rels[j]]);
    }
  }

  /**
   * A successful rectangles' pass keeps the records written before it and adds
   * one record per claimed keypoint, each with an individual and this task's
   * id and file name.
   */
  lemma {:induction false} ConsumeIndividualsOutput(taskId: int, fileName: Option<string>, ids: seq<string>,
                                                    regions: map<string, Region>, relmap: Dict<string, seq<string>>, p: Progress)
    requires forall id :: id in ids ==> id in regions
    requires Valid(p.keypoints)
    requires ConsumeIndividuals(taskId, fileName, ids, regions, relmap, p).Success?
    ensures |ConsumeIndividuals(taskId, fileName, ids, regions, relmap, p).value.out| == |p.out| + |Claimed(ids, relmap)|
    ensures ConsumeIndividuals(taskId, fileName, ids, regions, relmap, p).value.out[..|p.out|] == p.out
    ensures IndividualRecords(ConsumeIndividuals(taskId, fileName, ids, regions, relmap, p).value.out, |p.out|, taskId, fileName)
    decreases |ids|
  {
    if ids != [] {
      var rels := relmap.entries[ids[0]];
      var q := ConsumeRelated(taskId, fileName, regions[ids[0]], rels, p).value;
      var r := ConsumeIndividuals(taskId, fileName, ids, regions, relmap, p).value;
      ConsumeRelatedOutput(taskId, fileName, regions[ids[0]], rels, p);
      ConsumeRelatedTagged(taskId, fileName, regions[ids[0]], rels, p);
      ConsumeIndividualsOutput(taskId, fileName, ids[1..], regions, relmap, q);
      assert r.out[..|p.out|] == r.out[..|q.out|][..|p.out|];
      forall k | |p.out| <= k < |q.out| ensures r.out[k] == q.out[k] {
        assert r.out[k] == r.out[..|q.out|][k];
      }
    }
  }

  /** The last loop: every keypoint still indexed is written with no individual. */
  function EmitLeftover(taskId: int, fileName: Option<string>, keys: seq<string>, entries: map<string, Region>,
                        acc: seq<Record>)
    : (r: Result<seq<Record>, Cause>)
    requires forall k :: k in keys ==> k in entries
    ensures r.Success? <==> forall k :: k in keys ==> entries[k].labels != []
    ensures r.Success? ==> |r.value| == |acc| + |keys| && r.value[..|acc|] == acc
    ensures r.Success? ==> forall i :: 0 <= i < |keys| ==>
      r.value[|acc| + i] == KeypointRecord(taskId, fileName, None, entries[keys[i]])
    ensures r.Success? && Tagged(acc, taskId, fileName) ==> Tagged(r.value, taskId, fileName)
    decreases |keys|
  {
    if keys == [] then Success(acc)
    else
      var kpt := entries[keys[0]];
      if kpt.labels == [] then Failure(NoRegionLabel(keys[0]))
      else
        var acc' := acc + [KeypointRecord(taskId, fileName, None, kpt)];
        var r := EmitLeftover(taskId, fileName, keys[1..], entries, acc');
        assert forall k :: k in keys <==> k == keys[0] || k in keys[1..];
        assert r.Success? ==> r.value[..|acc'|][..|acc|] == r.value[..|acc|];
        assert r.Success? ==> forall i :: 1 <= i < |keys| ==> keys[i] == keys[1..][i - 1];
        assert r.Success? ==> r.value[|acc|] == r.value[..|acc'|][|acc|];
        r
  }

  /** The records of one annotation's result list, or the cause of the failure. */
  function ParseResult(taskId: int, fileName: Option<string>, items: seq<ResultItem>): Result<seq<Record>, Cause> {
    var individuals := FilterAndIndex(items, RectangleLabels);
    var keypoints := FilterAndIndex(items, KeypointLabels);
    var relations := RelationMap(items);
    var start := Progress([], keypoints);
    var consumed :=
      if |individuals.keys| > 0
      then ConsumeIndividuals(taskId, fileName, individuals.keys, individuals.entries, relations, start)
      else Success(start);
    match consumed
    case Failure(c) => Failure(c)
    case Success(p) => EmitLeftover(taskId, fileName, p.keypoints.keys, p.keypoints.entries, p.out)
  }

  /**
   * `get_annotation_from_entry` on the list found under the task's key: any
   * failure inside becomes a `RuntimeError` carrying the task id.
   */
  function EntryRecords(task: Task, key: AnnotationKey): (r: Result<seq<Record>, ParseError>)
    ensures AnnotationList(task, key).None? ==> r == Failure(KeyError(key))
    ensures r.Failure? && AnnotationList(task, key).Some? ==> r.error.RuntimeError? && r.error.taskId == task.id
  {
    match AnnotationList(task, key)
    case None => Failure(KeyError(key))
    case Some(annotations) =>
      if annotations == [] then Failure(RuntimeError(task.id, NoAnnotation))
      else
        match ParseResult(task.id, GetImagePath(task), annotations[0].result)
        case Failure(c) => Failure(RuntimeError(task.id, c))
        case Success(rs) => Success(rs)
  }

  method GetAnnotationFromEntry(task: Task, key: AnnotationKey) returns (r: Result<seq<Record>, ParseError>)
    ensures r == EntryRecords(task, key)
  {
    var annotations;
    match AnnotationList(task, key) {
      case None => return Failure(KeyError(key));
      case Some(a) => annotations := a;
    }
    if |annotations| == 0 {
      return Failure(RuntimeError(task.id, NoAnnotation));
    }
    var toParse := annotations[0].result;
    var fileName := GetImagePath(task);
    var individuals := FilterAndIndex(toParse, RectangleLabels);
    var keypoints := FilterAndIndex(toParse, KeypointLabels);
    var relations := BuildRelationMap(toParse);
    var progress := Progress([], keypoints);
    if |individuals.keys| > 0 {
      var consumed := ConsumeIndividualsLoop(task.id, fileName, individuals, relations, keypoints);
      if consumed.Failure? {
        return Failure(RuntimeError(task.id, consumed.error));
      }
      progress := consumed.value;
    }
    var out := EmitLeftoverLoop(task.id, fileName, progress);
    if out.Failure? {
      return Failure(RuntimeError(task.id, out.error));
    }
    return Success(out.value);
  }

  /** The outer `for indv_id, indv in individuals.items()` loop. */
  method ConsumeIndividualsLoop(taskId: int, fileName: Option<string>, individuals: Dict<string, Region>,
                                relations: Dict<string, seq<string>>, keypoints0: Dict<string, Region>)
    returns (r: Result<Progress, Cause>)
    requires Valid(individuals) && Valid(keypoints0)
    ensures r == ConsumeIndividuals(taskId, fileName, individuals.keys, individuals.entries, relations,
                                    Progress([], keypoints0))
  {
    var out := [];
    var keypoints := keypoints0;
    var ids := individuals.keys;
    var i := 0;
    while i < |ids|
      invariant 0 <= i <= |ids|
      invariant Valid(keypoints)
      invariant ConsumeIndividuals(taskId, fileName, ids[i..], individuals.entries, relations, Progress(out, keypoints))
             == ConsumeIndividuals(taskId, fileName, ids, individuals.entries, relations, Progress([], keypoints0))
    {
      var indvId := ids[i];
      assert ids[i..][1..] == ids[i + 1..];
      if indvId !in relations.entries {
        return Failure(NoRelations(indvId));
      }
      var consumed := PopRelated(taskId, fileName, individuals.entries[indvId], relations.entries[indvId],
                                 Progress(out, keypoints));
      if consumed.Failure? {
        return Failure(consumed.error);
      }
      out, keypoints := consumed.value.out, consumed.value.keypoints;
      i := i + 1;
    }
    return Success(Progress(out, keypoints));
  }

  /** The inner `for rel in relations[indv_id]` loop: pop each related keypoint and write its record. */
  method PopRelated(taskId: int, fileName: Option<string>, indv: Region, rels: seq<string>, p: Progress)
    returns (r: Result<Progress, Cause>)
    requires Valid(p.keypoints)
    ensures r == ConsumeRelated(taskId, fileName, indv, rels, p)
  {
    var out, keypoints := p.out, p.keypoints;
    var j := 0;
    while j < |rels|
      invariant 0 <= j <= |rels|
      invariant Valid(keypoints)
      invariant ConsumeRelated(taskId, fileName, indv, rels[j..], Progress(out, keypoints))
             == ConsumeRelated(taskId, fileName, indv, rels, p)
    {
      var rel := rels[j];
      assert rels[j..][1..] == rels[j + 1..];
      if rel !in keypoints.entries {
        return Failure(KeypointNotFound(rel));
      }
      var kpt := keypoints.entries[rel];
      keypoints := Pop(keypoints, rel);
      if |indv.labels| == 0 {
        return Failure(NoRegionLabel(indv.id));
      }
      if |kpt.labels| == 0 {
        return Failure(NoRegionLabel(rel));
      }
      out := out + [KeypointRecord(taskId, fileName, Some(indv.labels[0]), kpt)];
      j := j + 1;
    }
    return Success(Progress(out, keypoints));
  }

  /** The final `for _, kpt in keypoints.items()` loop over the keypoints not popped. */
  method EmitLeftoverLoop(taskId: int, fileName: Option<string>, p: Progress) returns (r: Result<seq<Record>, Cause>)
    requires Valid(p.keypoints)
    ensures r == EmitLeftover(taskId, fileName, p.keypoints.keys, p.keypoints.entries, p.out)
  {
    var out := p.out;
    var leftover := p.keypoints.keys;
    var k := 0;
    while k < |leftover|
      invariant 0 <= k <= |leftover|
      invariant EmitLeftover(taskId, fileName, leftover[k..], p.keypoints.entries, out)
             == EmitLeftover(taskId, fileName, leftover, p.keypoints.entries, p.out)
    {
      EmitLeftoverStep(taskId, fileName, leftover[k..], p.keypoints.entries, out);
      assert leftover[k..][1..] == leftover[k + 1..];
      var kpt := p.keypoints.entries[leftover[k]];
      if |kpt.labels| == 0 {
        return Failure(NoRegionLabel(leftover[k]));
      }
      out := out + [KeypointRecord(taskId, fileName, None, kpt)];
      k := k + 1;
    }
    assert leftover[k..] == [];
    return Success(out);
  }

  /** One pass of the last loop: the first leftover keypoint needs a label, and its record is written. */
  lemma EmitLeftoverStep(taskId: int, fileName: Option<string>, keys: seq<string>, entries: map<string, Region>,
                         acc: seq<Record>)
    requires keys != [] && forall k :: k in keys ==> k in entries
    ensures EmitLeftover(taskId, fileName, keys, entries, acc)
         == if entries[keys[0]].labels == [] then Failure(NoRegionLabel(keys[0]))
            else EmitLeftover(taskId, fileName, keys[1..], entries, acc + [KeypointRecord(taskId, fileName, None, entries[keys[0]])])
  {
  }

  // ---------------------------------------------------------------------------
  // Properties of one entry
  // ---------------------------------------------------------------------------

  /**
   * Only the first annotation is parsed: two tasks with the same id and image
   * path whose lists under `key` start with the same annotation give the same
   * outcome, whatever follows it.
   */
  lemma OnlyFirstAnnotation(t1: Task, t2: Task, key: AnnotationKey)
    requires t1.id == t2.id && GetImagePath(t1) == GetImagePath(t2)
    requires AnnotationList(t1, key).Some? && AnnotationList(t2, key).Some?
    requires AnnotationList(t1, key).value != [] && AnnotationList(t2, key).value != []
    requires AnnotationList(t1, key).value[0] == AnnotationList(t2, key).value[0]
    ensures EntryRecords(t1, key) == EntryRecords(t2, key)
  {
  }

  /**
   * With no rectangles, every indexed keypoint yields exactly one record with no
   * individual, in index order.
   */
  lemma NoRectanglesAllUnique(taskId: int, fileName: Option<string>, items: seq<ResultItem>)
    requires forall i :: 0 <= i < |items| ==> !KindAt(items, i, RectangleLabels)
    ensures var kps := FilterAndIndex(items, KeypointLabels);
      var r := ParseResult(taskId, fileName, items);
      && (r.Success? <==> forall k :: k in kps.entries ==> kps.entries[k].labels != [])
      && (r.Success? ==> |r.value| == |kps.keys| && forall i :: 0 <= i < |kps.keys| ==>
            r.value[i] == KeypointRecord(taskId, fileName, None, kps.entries[kps.keys[i]]))
  {
    ParseResultNoRectangles(taskId, fileName, items);
    LeftoverOnly(taskId, fileName, FilterAndIndex(items, KeypointLabels));
  }

  /** With no rectangles, the parse is the last loop alone, over every indexed keypoint. */
  lemma ParseResultNoRectangles(taskId: int, fileName: Option<string>, items: seq<ResultItem>)
    requires forall i :: 0 <= i < |items| ==> !KindAt(items, i, RectangleLabels)
    ensures var kps := FilterAndIndex(items, KeypointLabels);
      ParseResult(taskId, fileName, items) == EmitLeftover(taskId, fileName, kps.keys, kps.entries, [])
  {
    NothingIndexed(items, RectangleLabels);
  }

  /** Emitting every indexed keypoint from scratch: one record each, in index order, unless one has no label. */
  lemma LeftoverOnly(taskId: int, fileName: Option<string>, kps: Dict<string, Region>)
    requires Valid(kps)
    ensures var r := EmitLeftover(taskId, fileName, kps.keys, kps.entries, []);
      && (r.Success? <==> forall k :: k in kps.entries ==> kps.entries[k].labels != [])
      && (r.Success? ==> |r.value| == |kps.keys| && forall i :: 0 <= i < |kps.keys| ==>
            r.value[i] == KeypointRecord(taskId, fileName, None, kps.entries[kps.keys[i]]))
  {
    var none: seq<Record> := [];
    var e := EmitLeftover(taskId, fileName, kps.keys, kps.entries, none);
    if e.Success? {
      forall i | 0 <= i < |kps.keys|
        ensures e.value[i] == KeypointRecord(taskId, fileName, None, kps.entries[kps.keys[i]])
      {
        assert |none| + i == i;
      }
    }
  }

  /**
   * A successful parse writes one record per indexed keypoint, none lost and
   * none written twice, all with the task's id and file name.
   */
  lemma ParseResultShape(taskId: int, fileName: Option<string>, items: seq<ResultItem>)
    requires ParseResult(taskId, fileName, items).Success?
    ensures |ParseResult(taskId, fileName, items).value| == |FilterAndIndex(items, KeypointLabels).keys|
    ensures Tagged(ParseResult(taskId, fileName, items).value, taskId, fileName)
  {
    var individuals := FilterAndIndex(items, RectangleLabels);
    var keypoints := FilterAndIndex(items, KeypointLabels);
    var relations := RelationMap(items);
    var start := Progress([], keypoints);
    if |individuals.keys| > 0 {
      ConsumeIndividualsClaims(taskId, fileName, individuals.keys, individuals.entries, relations, start);
      ConsumeIndividualsOutput(taskId, fileName, individuals.keys, individuals.entries, relations, start);
    }
  }

  /** A successful entry has one record per indexed keypoint of its first annotation. */
  lemma RecordCountIsKeypointCount(task: Task, key: AnnotationKey)
    requires EntryRecords(task, key).Success?
    ensures var items := AnnotationList(task, key).value[0].result;
      |EntryRecords(task, key).value| == |FilterAndIndex(items, KeypointLabels).keys|
  {
    ParseResultShape(task.id, GetImagePath(task), AnnotationList(task, key).value[0].result);
  }

  /**
   * A successful entry with rectangles had a relation entry for every rectangle,
   * and the keypoints they claim are distinct and present in the keypoint index.
   * So a rectangle with no relations, or a relation to an id that is not (or no
   * longer) an indexed keypoint, makes the entry fail.
   */
  lemma SuccessNeedsWellFormedGraph(taskId: int, fileName: Option<string>, items: seq<ResultItem>)
    requires ParseResult(taskId, fileName, items).Success?
    ensures var individuals := FilterAndIndex(items, RectangleLabels);
      var relations := RelationMap(items);
      var keypoints := FilterAndIndex(items, KeypointLabels);
      && (forall id :: id in individuals.entries ==> id in relations.entries)
      && Distinct(Claimed(individuals.keys, relations))
      && (forall x :: x in Claimed(individuals.keys, relations) ==> x in keypoints.entries)
  {
    var individuals := FilterAndIndex(items, RectangleLabels);
    var relations := RelationMap(items);
    var keypoints := FilterAndIndex(items, KeypointLabels);
    if |individuals.keys| > 0 {
      ConsumeIndividualsClaims(taskId, fileName, individuals.keys, individuals.entries, relations,
                               Progress([], keypoints));
    }
  }

  /** A rectangle without relations makes the entry raise `RuntimeError` with the task's id. */
  lemma RectangleWithoutRelationFails(task: Task, key: AnnotationKey, id: string)
    requires AnnotationList(task, key).Some? && AnnotationList(task, key).value != []
    requires var items := AnnotationList(task, key).value[0].result;
      id in FilterAndIndex(items, RectangleLabels).entries && id !in RelationMap(items).entries
    ensures EntryRecords(task, key).Failure?
    ensures EntryRecords(task, key).error.RuntimeError? && EntryRecords(task, key).error.taskId == task.id
  {
    var items := AnnotationList(task, key).value[0].result;
    if ParseResult(task.id, GetImagePath(task), items).Success? {
      SuccessNeedsWellFormedGraph(task.id, GetImagePath(task), items);
    }
  }

  /** Two rectangles related to one keypoint make the entry fail: the second `pop` finds it gone. */
  lemma SharedKeypointFails(task: Task, key: AnnotationKey)
    requires AnnotationList(task, key).Some? && AnnotationList(task, key).value != []
    requires var items := AnnotationList(task, key).value[0].result;
      !Distinct(Claimed(FilterAndIndex(items, RectangleLabels).keys, RelationMap(items)))
    ensures EntryRecords(task, key).Failure?
    ensures EntryRecords(task, key).error.RuntimeError? && EntryRecords(task, key).error.taskId == task.id
  {
    var items := AnnotationList(task, key).value[0].result;
    if ParseResult(task.id, GetImagePath(task), items).Success? {
      SuccessNeedsWellFormedGraph(task.id, GetImagePath(task), items);
    }
  }

  // ---------------------------------------------------------------------------
  // All tasks
  // ---------------------------------------------------------------------------

  /** The records of one task: its key is selected first, a missing key is a `ValueError`. */
  function TaskRecords(task: Task): (r: Result<seq<Record>, ParseError>)
    ensures task.annotations.None? && task.completions.None? ==> r == Failure(ValueError)
    ensures r.Failure? ==> r.error == ValueError || (r.error.RuntimeError? && r.error.taskId == task.id)
  {
    match SelectKey(task)
    case Failure(e) => Failure(e)
    case Success(key) => EntryRecords(task, key)
  }

  /** All records of one task carry its id and its image path. */
  lemma TaskRecordsTagged(task: Task)
    requires TaskRecords(task).Success?
    ensures Tagged(TaskRecords(task).value, task.id, GetImagePath(task))
  {
    var key := SelectKey(task).value;
    ParseResultShape(task.id, GetImagePath(task), AnnotationList(task, key).value[0].result);
  }

  /** Records `acc` placed before the outcome `r`; a failure stays a failure. */
  function Prepend(acc: seq<Record>, r: Result<seq<Record>, ParseError>): Result<seq<Record>, ParseError> {
    match r
    case Failure(e) => Failure(e)
    case Success(rs) => Success(acc + rs)
  }

  /** `read_annotations`: the tasks' records concatenated in order; the first failure is raised. */
  function AllRecords(tasks: seq<Task>): Result<seq<Record>, ParseError> {
    if tasks == [] then Success([])
    else
      match TaskRecords(tasks[0])
      case Failure(e) => Failure(e)
      case Success(rs) => Prepend(rs, AllRecords(tasks[1..]))
  }

  /** One pass of `read_annotations`' loop: choose the task's key, then parse its entry. */
  method ReadTask(entry: Task) returns (r: Result<seq<Record>, ParseError>)
    ensures r == TaskRecords(entry)
  {
    var key;
    if entry.annotations.Some? {
      key := AnnotationsKey;
    } else if entry.completions.Some? {
      key := CompletionsKey;
    } else {
      return Failure(ValueError);
    }
    r := GetAnnotationFromEntry(entry, key);
  }

  method ReadAnnotations(tasks: seq<Task>) returns (r: Result<seq<Record>, ParseError>)
    ensures r == AllRecords(tasks)
  {
    var completions := [];
    var i := 0;
    assert tasks[i..] == tasks;
    if AllRecords(tasks).Success? {
      assert [] + AllRecords(tasks).value == AllRecords(tasks).value;
    }
    while i < |tasks|
      invariant 0 <= i <= |tasks|
      invariant AllRecords(tasks) == Prepend(completions, AllRecords(tasks[i..]))
    {
      AllRecordsFrom(tasks, i);
      var entryData := ReadTask(tasks[i]);
      if entryData.Failure? {
        return Failure(entryData.error);
      }
      PrependAssoc(completions, entryData.value, AllRecords(tasks[i + 1..]));
      completions := completions + entryData.value;
      i := i + 1;
    }
    assert tasks[i..] == [];
    assert completions + [] == completions;
    return Success(completions);
  }

  /** The records from task `i` on: task `i`'s records, then the rest. */
  lemma AllRecordsFrom(tasks: seq<Task>, i: nat)
    requires i < |tasks|
    ensures AllRecords(tasks[i..]) == match TaskRecords(tasks[i])
      case Failure(e) => Failure(e)
      case Success(rs) => Prepend(rs, AllRecords(tasks[i + 1..]))
  {
    assert tasks[i..][1..] == tasks[i + 1..];
  }

  lemma PrependAssoc(a: seq<Record>, b: seq<Record>, r: Result<seq<Record>, ParseError>)
    ensures Prepend(a, Prepend(b, r)) == Prepend(a + b, r)
  {
    if r.Success? {
      assert a + (b + r.value) == (a + b) + r.value;
    }
  }

  /** Reading fails as soon as one task fails. */
  lemma {:induction false} ReadAnnotationsFailsIfTaskFails(tasks: seq<Task>, i: int)
    requires 0 <= i < |tasks| && TaskRecords(tasks[i]).Failure?
    ensures AllRecords(tasks).Failure?
  {
    AllRecordsFails(tasks);
    if i > 0 {
      assert tasks[1..][i - 1] == tasks[i];
      ReadAnnotationsFailsIfTaskFails(tasks[1..], i - 1);
    }
  }

  /** Reading fails with the first task's error, or else exactly when the rest fails, with its error. */
  lemma AllRecordsFails(tasks: seq<Task>)
    requires tasks != []
    ensures TaskRecords(tasks[0]).Failure? ==> AllRecords(tasks) == Failure(TaskRecords(tasks[0]).error)
    ensures TaskRecords(tasks[0]).Success? ==>
      (AllRecords(tasks).Failure? <==> AllRecords(tasks[1..]).Failure?)
      && (AllRecords(tasks).Failure? ==> AllRecords(tasks).error == AllRecords(tasks[1..]).error)
  {
  }

  /** A failed read raises the error of the first failing task; the tasks before it succeed. */
  lemma {:induction false} ReadAnnotationsFirstError(tasks: seq<Task>)
    requires AllRecords(tasks).Failure?
    ensures exists i :: FirstFailureAt(tasks, i, AllRecords(tasks).error)
  {
    assert tasks != [];
    AllRecordsFails(tasks);
    if TaskRecords(tasks[0]).Failure? {
      assert FirstFailureAt(tasks, 0, AllRecords(tasks).error);
    } else {
      var rest := tasks[1..];
      ReadAnnotationsFirstError(rest);
      var i :| FirstFailureAt(rest, i, AllRecords(rest).error);
      FirstFailureAtCons(tasks, i, AllRecords(rest).error);
    }
  }

  /** Task `i` fails with `e` and every task before it succeeds. */
  ghost predicate FirstFailureAt(tasks: seq<Task>, i: int, e: ParseError) {
    && 0 <= i < |tasks|
    && TaskRecords(tasks[i]) == Failure(e)
    && forall j :: 0 <= j < i ==> TaskRecords(tasks[j]).Success?
  }

  lemma FirstFailureAtCons(tasks: seq<Task>, i: int, e: ParseError)
    requires tasks != [] && TaskRecords(tasks[0]).Success? && FirstFailureAt(tasks[1..], i, e)
    ensures FirstFailureAt(tasks, i + 1, e)
  {
    forall j | 0 <= j < i + 1 ensures TaskRecords(tasks[j]).Success? {
      if j > 0 {
        assert tasks[j] == tasks[1..][j - 1];
      }
    }
  }

  /** Reading two task lists one after the other gives the concatenation of their records. */
  lemma {:induction false} ReadAnnotationsAppend(a: seq<Task>, b: seq<Task>)
    ensures AllRecords(a + b) == match AllRecords(a)
                                 case Failure(e) => Failure(e)
                                 case Success(rs) => Prepend(rs, AllRecords(b))
  {
    if a == [] {
      assert a + b == b;
      if AllRecords(b).Success? {
        assert [] + AllRecords(b).value == AllRecords(b).value;
      }
    } else {
      assert (a + b)[0] == a[0] && (a + b)[1..] == a[1..] + b;
      ReadAnnotationsAppend(a[1..], b);
      if TaskRecords(a[0]).Success? && AllRecords(a[1..]).Success? {
        PrependAssoc(TaskRecords(a[0]).value, AllRecords(a[1..]).value, AllRecords(b));
      }
    }
  }

  /** `rec` carries the id and the image path of one of the tasks. */
  ghost predicate FromSomeTask(rec: Record, tasks: seq<Task>) {
    exists i :: 0 <= i < |tasks| && rec.taskId == tasks[i].id && rec.fileName == GetImagePath(tasks[i])
  }

  lemma FromLaterTask(rec: Record, tasks: seq<Task>)
    requires tasks != [] && FromSomeTask(rec, tasks[1..])
    ensures FromSomeTask(rec, tasks)
  {
    var i :| 0 <= i < |tasks[1..]| && rec.taskId == tasks[1..][i].id && rec.fileName == GetImagePath(tasks[1..][i]);
    assert tasks[1..][i] == tasks[i + 1];
  }

  lemma ConcatFromTasks(head: seq<Record>, tail: seq<Record>, tasks: seq<Task>)
    requires tasks != [] && Tagged(head, tasks[0].id, GetImagePath(tasks[0]))
    requires forall k :: 0 <= k < |tail| ==> FromSomeTask(tail[k], tasks[1..])
    ensures forall k :: 0 <= k < |head + tail| ==> FromSomeTask((head + tail)[k], tasks)
  {
    forall k | 0 <= k < |head + tail| ensures FromSomeTask((head + tail)[k], tasks) {
      if k < |head| {
        assert (head + tail)[k] == head[k];
        assert head[k].taskId == tasks[0].id && head[k].fileName == GetImagePath(tasks[0]);
      } else {
        assert (head + tail)[k] == tail[k - |head|];
        FromLaterTask(tail[k - |head|], tasks);
      }
    }
  }

  /** Every record comes from some task and carries that task's id and image path. */
  lemma {:induction false} RecordsCarryTheirTask(tasks: seq<Task>)
    requires AllRecords(tasks).Success?
    ensures forall k :: 0 <= k < |AllRecords(tasks).value| ==> FromSomeTask(AllRecords(tasks).value[k], tasks)
  {
    if tasks != [] {
      assert TaskRecords(tasks[0]).Success? && AllRecords(tasks[1..]).Success?;
      RecordsCarryTheirTask(tasks[1..]);
      TaskRecordsTagged(tasks[0]);
      ConcatFromTasks(TaskRecords(tasks[0]).value, AllRecords(tasks[1..]).value, tasks);
    }
  }

  /** `pick_filenames_from_tasks`: the file name of every record, in record order. */
  function PickFilenamesFromTasks(tasks: seq<Task>): (r: Result<seq<Option<string>>, ParseError>)
    ensures r.Success? <==> AllRecords(tasks).Success?
    ensures r.Failure? ==> r.error == AllRecords(tasks).error
    ensures r.Success? ==> |r.value| == |AllRecords(tasks).value|
    ensures r.Success? ==> forall i :: 0 <= i < |r.value| ==> r.value[i] == AllRecords(tasks).value[i].fileName
  {
    match AllRecords(tasks)
    case Failure(e) => Failure(e)
    case Success(rs) => Success(seq(|rs|, i requires 0 <= i < |rs| => rs[i].fileName))
  }

  /** Every picked name is the image path of some task. */
  lemma PickedNamesAreImagePaths(tasks: seq<Task>)
    requires PickFilenamesFromTasks(tasks).Success?
    ensures forall k :: 0 <= k < |PickFilenamesFromTasks(tasks).value| ==>
      exists i :: 0 <= i < |tasks| && PickFilenamesFromTasks(tasks).value[k] == GetImagePath(tasks[i])
  {
    var names := PickFilenamesFromTasks(tasks).value;
    var rs := AllRecords(tasks).value;
    RecordsCarryTheirTask(tasks);
    forall k | 0 <= k < |names| ensures exists i :: 0 <= i < |tasks| && names[k] == GetImagePath(tasks[i]) {
      assert names[k] == rs[k].fileName && FromSomeTask(rs[k], tasks);
    }
  }
}
