/**
 * Python's `dict` as the model needs it: a map from keys to values together
 * with the order in which the keys were first inserted, which is the order in
 * which `for k, v in d.items()` visits them.
 */
module PyDict {

  datatype Dict<K, V> = Dict(keys: seq<K>, entries: map<K, V>)

  ghost predicate Distinct<K>(s: seq<K>) {
    forall i, j :: 0 <= i < j < |s| ==> s[i] != s[j]
  }

  /** The keys are listed once each, and exactly the keys of the map are listed. */
  ghost predicate Valid<K(!new), V>(d: Dict<K, V>) {
    && Distinct(d.keys)
    && (forall k :: k in d.entries <==> k in d.keys)
  }

  function Empty<K(==, !new), V>(): (d: Dict<K, V>)
    ensures Valid(d) && d.keys == [] && d.entries == map[]
  {
    Dict([], map[])
  }

  /** `d[k] = v`: a new key is placed last, a key already present keeps its place. */
  function Put<K(==, !new), V>(d: Dict<K, V>, k: K, v: V): (r: Dict<K, V>)
    requires Valid(d)
    ensures Valid(r)
    ensures r.entries == d.entries[k := v]
    ensures k in d.entries ==> r.keys == d.keys
    ensures k !in d.entries ==> r.keys == d.keys + [k]
  {
    if k in d.entries then Dict(d.keys, d.entries[k := v])
    else Dict(d.keys + [k], d.entries[k := v])
  }

  /** The sequence `s` with every occurrence of `k` taken out, the rest in order. */
  function RemoveKey<K(==, !new)>(s: seq<K>, k: K): (r: seq<K>)
    ensures forall x :: x in r <==> x in s && x != k
    ensures Distinct(s) ==> Distinct(r)
    ensures Distinct(s) && k in s ==> |r| == |s| - 1
    ensures k !in s ==> r == s
  {
    if s == [] then []
    else
      var rest := RemoveKey(s[1..], k);
      assert Distinct(s) ==> Distinct(s[1..]) && s[0] !in s[1..];
      if s[0] == k then rest else [s[0]] + rest
  }

  /** `d.pop(k)` on a key that is present: the dict without `k`, the others in their order. */
  function Pop<K(==, !new), V>(d: Dict<K, V>, k: K): (r: Dict<K, V>)
    requires Valid(d) && k in d.entries
    ensures Valid(r)
    ensures r.entries == d.entries - {k}
    ensures r.keys == RemoveKey(d.keys, k)
    ensures |r.keys| == |d.keys| - 1
  {
    Dict(RemoveKey(d.keys, k), d.entries - {k})
  }

  /** The list stored under `k`, or the empty list when `k` is absent. */
  function ListAt<K(==, !new), W>(d: Dict<K, seq<W>>, k: K): seq<W> {
    if k in d.entries then d.entries[k] else []
  }

  /**
   * `if k not in d: d[k] = []` followed by `d[k].append(w)`: the list under `k`
   * grows by `w` at its end, every other entry and the key order stay as they were
   * apart from `k` being placed last when it is new.
   */
  function AppendTo<K(==, !new), W>(d: Dict<K, seq<W>>, k: K, w: W): (r: Dict<K, seq<W>>)
    requires Valid(d)
    ensures Valid(r)
    ensures k in r.entries && r.entries[k] == ListAt(d, k) + [w]
    ensures forall j :: j != k ==> ListAt(r, j) == ListAt(d, j)
  {
    Put(d, k, ListAt(d, k) + [w])
  }

  /** The lists stored under `keys`, concatenated in that order. */
  function Flatten<K(==, !new), W>(keys: seq<K>, entries: map<K, seq<W>>): seq<W>
    requires forall k :: k in keys ==> k in entries
  {
    if keys == [] then [] else entries[keys[0]] + Flatten(keys[1..], entries)
  }

  /** Appending `w` under one listed key adds exactly `w` to the flattened contents. */
  lemma {:induction false} FlattenAppend<K(!new), W>(keys: seq<K>, entries: map<K, seq<W>>, k: K, w: W)
    requires Distinct(keys) && k in keys
    requires forall j :: j in keys ==> j in entries
    ensures forall j :: j in keys ==> j in entries[k := entries[k] + [w]]
    ensures multiset(Flatten(keys, entries[k := entries[k] + [w]]))
         == multiset(Flatten(keys, entries)) + multiset{w}
  {
    var e' := entries[k := entries[k] + [w]];
    if keys[0] == k {
      assert k !in keys[1..];
      FlattenSame(keys[1..], entries, e');
    } else {
      assert Distinct(keys[1..]);
      FlattenAppend(keys[1..], entries, k, w);
    }
  }

  /** Flattening reads only the entries of the listed keys. */
  lemma {:induction false} FlattenSame<K(!new), W>(keys: seq<K>, e1: map<K, seq<W>>, e2: map<K, seq<W>>)
    requires forall j :: j in keys ==> j in e1 && j in e2 && e1[j] == e2[j]
    ensures Flatten(keys, e1) == Flatten(keys, e2)
  {
    if keys != [] {
      FlattenSame(keys[1..], e1, e2);
    }
  }

  /** The flattened contents after `AppendTo` are those before, plus the appended item. */
  lemma AppendToFlatten<K(!new), W>(d: Dict<K, seq<W>>, k: K, w: W)
    requires Valid(d)
    ensures multiset(Flatten(AppendTo(d, k, w).keys, AppendTo(d, k, w).entries))
         == multiset(Flatten(d.keys, d.entries)) + multiset{w}
  {
    var r := AppendTo(d, k, w);
    if k in d.entries {
      FlattenAppend(d.keys, d.entries, k, w);
    } else {
      FlattenSnoc(d.keys, k, d.entries, r.entries);
    }
  }

  /** Flattening after a new key placed last adds that key's list at the end. */
  lemma {:induction false} FlattenSnoc<K(!new), W>(keys: seq<K>, k: K, e1: map<K, seq<W>>, e2: map<K, seq<W>>)
    requires k !in keys && k in e2
    requires forall j :: j in keys ==> j in e1 && j in e2 && e1[j] == e2[j]
    ensures forall j :: j in keys + [k] ==> j in e2
    ensures Flatten(keys + [k], e2) == Flatten(keys, e1) + e2[k]
  {
    if keys == [] {
      assert [k][1..] == [];
    } else {
      assert (keys + [k])[1..] == keys[1..] + [k];
      FlattenSnoc(keys[1..], k, e1, e2);
    }
  }
}
