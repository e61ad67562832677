/**
 * Selecting the dataset items to import: keep the file names that match at
 * least one of the user's glob filters. Glob matching (`fnmatch`) is passed in
 * as the relation `matches(item, pattern)`.
 */
module DlcData {

  /** `item` matches at least one of the filters. */
  predicate MatchesAny(item: string, filters: seq<string>, matches: (string, string) -> bool) {
    exists k :: 0 <= k < |filters| && matches(item, filters[k])
  }

  /** The items of `dataset` that match some filter, in dataset order. */
  function Filtered(dataset: seq<string>, filters: seq<string>, matches: (string, string) -> bool): seq<string> {
    if dataset == [] then []
    else
      var last := dataset[|dataset| - 1];
      Filtered(dataset[..|dataset| - 1], filters, matches)
        + (if MatchesAny(last, filters, matches) then [last] else [])
  }

  /**
   * `filter_dataset`: for each item, try the filters in order and keep the item
   * at the first one it matches (the `break` keeps it only once).
   */
  method FilterDataset(dataset: seq<string>, filters: seq<string>, matches: (string, string) -> bool)
    returns (out: seq<string>)
    ensures out == Filtered(dataset, filters, matches)
  {
    out := [];
    var i := 0;
    while i < |dataset|
      invariant 0 <= i <= |dataset|
      invariant out == Filtered(dataset[..i], filters, matches)
    {
      var item := dataset[i];
      assert dataset[..i + 1][..i] == dataset[..i];
      var j := 0;
      while j < |filters|
        invariant 0 <= j <= |filters|
        invariant out == Filtered(dataset[..i], filters, matches)
        invariant forall k :: 0 <= k < j ==> !matches(item, filters[k])
      {
        if matches(item, filters[j]) {
          out := out + [item];
          break;
        }
        j := j + 1;
      }
      i := i + 1;
    }
    assert dataset[..i] == dataset;
  }

  /** An item is kept exactly when it is in the dataset and matches some filter. */
  lemma {:induction false} FilteredMembership(dataset: seq<string>, filters: seq<string>, matches: (string, string) -> bool, x: string)
    ensures x in Filtered(dataset, filters, matches) <==> x in dataset && MatchesAny(x, filters, matches)
  {
    if dataset != [] {
      var init := dataset[..|dataset| - 1];
      assert dataset == init + [dataset[|dataset| - 1]];
      FilteredMembership(init, filters, matches, x);
    }
  }

  /** `a` is `b` with some elements left out, the rest in order. */
  ghost predicate SubsequenceOf<T>(a: seq<T>, b: seq<T>)
    decreases |b|
  {
    if a == [] then true
    else if b == [] then false
    else if a[|a| - 1] == b[|b| - 1] then SubsequenceOf(a[..|a| - 1], b[..|b| - 1])
    else SubsequenceOf(a, b[..|b| - 1])
  }

  /** Appending to the longer sequence keeps a subsequence one. */
  lemma {:induction false} SubsequenceExtend<T>(a: seq<T>, b: seq<T>, x: T)
    requires SubsequenceOf(a, b)
    ensures SubsequenceOf(a, b + [x])
    decreases |b|, 1
  {
    assert (b + [x])[..|b|] == b;
    if a != [] && a[|a| - 1] == x {
      SubsequenceDropLast(a, b);
    }
  }

  lemma {:induction false} SubsequenceDropLast<T>(a: seq<T>, b: seq<T>)
    requires a != [] && SubsequenceOf(a, b)
    ensures SubsequenceOf(a[..|a| - 1], b)
    decreases |b|, 0
  {
    assert b != [];
    var a', b' := a[..|a| - 1], b[..|b| - 1];
    if a[|a| - 1] == b[|b| - 1] {
      assert SubsequenceOf(a', b');
    } else {
      assert SubsequenceOf(a, b');
      SubsequenceDropLast(a, b');
    }
    assert b' + [b[|b| - 1]] == b;
    SubsequenceExtend(a', b', b[|b| - 1]);
  }

  /** The output keeps dataset order and takes each dataset occurrence at most once. */
  lemma {:induction false} FilteredIsSubsequence(dataset: seq<string>, filters: seq<string>, matches: (string, string) -> bool)
    ensures SubsequenceOf(Filtered(dataset, filters, matches), dataset)
  {
    if dataset != [] {
      var init := dataset[..|dataset| - 1];
      var last := dataset[|dataset| - 1];
      assert dataset == init + [last];
      var kept := Filtered(init, filters, matches);
      FilteredIsSubsequence(init, filters, matches);
      if MatchesAny(last, filters, matches) {
        var a := kept + [last];
        assert Filtered(dataset, filters, matches) == a;
        assert a[..|a| - 1] == kept && a[|a| - 1] == last;
        assert SubsequenceOf(a, dataset);
      } else {
        assert Filtered(dataset, filters, matches) == kept;
        SubsequenceExtend(kept, init, last);
      }
    }
  }

  /** No element occurs more often in the output than in the input; the output is no longer. */
  lemma {:induction false} FilteredCounts(dataset: seq<string>, filters: seq<string>, matches: (string, string) -> bool)
    ensures multiset(Filtered(dataset, filters, matches)) <= multiset(dataset)
    ensures |Filtered(dataset, filters, matches)| <= |dataset|
  {
    if dataset != [] {
      var init := dataset[..|dataset| - 1];
      assert dataset == init + [dataset[|dataset| - 1]];
      FilteredCounts(init, filters, matches);
    }
  }

  /** With no filters nothing is kept. */
  lemma {:induction false} NoFiltersKeepNothing(dataset: seq<string>, matches: (string, string) -> bool)
    ensures Filtered(dataset, [], matches) == []
  {
    if dataset != [] {
      NoFiltersKeepNothing(dataset[..|dataset| - 1], matches);
    }
  }

  /** Every kept item matches, so filtering again changes nothing. */
  lemma {:induction false} FilteredIdempotent(dataset: seq<string>, filters: seq<string>, matches: (string, string) -> bool)
    ensures Filtered(Filtered(dataset, filters, matches), filters, matches) == Filtered(dataset, filters, matches)
  {
    if dataset != [] {
      var init := dataset[..|dataset| - 1];
      var last := dataset[|dataset| - 1];
      var once := Filtered(init, filters, matches);
      FilteredIdempotent(init, filters, matches);
      if MatchesAny(last, filters, matches) {
        var a := once + [last];
        assert Filtered(dataset, filters, matches) == a;
        assert a[..|a| - 1] == once && a[|a| - 1] == last;
        assert Filtered(a, filters, matches) == Filtered(once, filters, matches) + [last];
      } else {
        assert Filtered(dataset, filters, matches) == once;
      }
    }
  }
}
