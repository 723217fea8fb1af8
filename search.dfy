/**
 * Why the source's sentinel search finds what `Interpolate` says: after the
 * `'unknown'` item is appended and the items are stable-sorted by value, the
 * sentinel sits just after every entry whose value is at most the query and
 * just before every entry above it, and its two neighbours are the entries
 * `PrevIndex` and `NextIndex` choose.
 */
module Search {
  import opened Dataset
  import opened Sorting
  import opened Interpolation

  /** The position `list(...).index("unknown")` finds: the first sentinel. */
  function IndexOfUnknown(s: seq<DictItem>): (i: nat)
    requires exists j :: 0 <= j < |s| && s[j].Unknown?
    ensures i < |s| && s[i].Unknown?
    ensures forall j :: 0 <= j < i ==> s[j].Tested?
  {
    if s[0].Unknown? then 0
    else
      assert forall j :: 0 <= j < |s| - 1 ==> s[1..][j] == s[j + 1];
      1 + IndexOfUnknown(s[1..])
  }

  /** A sentinel preceded only by tested items is the one `index` finds. */
  lemma {:induction false} FirstUnknown(s: seq<DictItem>, i: nat)
    requires i < |s| && s[i].Unknown?
    requires forall j :: 0 <= j < i ==> s[j].Tested?
    ensures IndexOfUnknown(s) == i
  {
    if i > 0 {
      assert s[1..][i - 1] == s[i];
      FirstUnknown(s[1..], i - 1);
    }
  }

  /** Every item of a sort of the entries at most q is a tested entry with
      value at most q. */
  lemma SortedAtMostBounded(d: seq<Entry>, q: real)
    ensures var t := SortByValue(AtMost(d, q));
            forall i :: 0 <= i < |t| ==> t[i].Tested? && t[i].val <= q
  {
    var t := SortByValue(AtMost(d, q));
    SortMembers(AtMost(d, q));
    assert forall i :: 0 <= i < |t| ==> t[i] in t;
  }

  /** Every item of a sort of the entries above q is a tested entry with
      value above q. */
  lemma SortedAboveBounded(d: seq<Entry>, q: real)
    ensures var t := SortByValue(Above(d, q));
            forall i :: 0 <= i < |t| ==> t[i].Tested? && q < t[i].val
  {
    var t := SortByValue(Above(d, q));
    SortMembers(Above(d, q));
    assert forall i :: 0 <= i < |t| ==> t[i] in t;
  }

  /** Sorting the entries at most q puts the source's `previousVal` last. */
  lemma {:induction false} LastOfSortedAtMost(d: seq<Entry>, q: real)
    requires SomeAtMost(d, q)
    ensures LastHolds(d, q)
  {
    var d', x := d[..|d| - 1], d[|d| - 1];
    assert forall i :: 0 <= i < |d'| ==> d'[i] == d[i];
    if !SomeAtMost(d', q) {
      assert AtMost(d', q) == [];
      assert AtMost(d, q) == [x];
      SortSnoc([], x);
    } else {
      LastOfSortedAtMost(d', q);
      if q < x.val {
        LastSkipsLarger(d, q);
      } else if d[PrevIndex(d', q)].val <= x.val {
        LastTakesNew(d, q);
      } else {
        LastKeepsOld(d, q);
      }
    }
  }

  /** The induction hypothesis of `LastOfSortedAtMost` for all but the last entry. */
  ghost predicate LastHolds(d: seq<Entry>, q: real)
  {
    SomeAtMost(d, q)
    && var t := SortByValue(AtMost(d, q));
       |t| > 0 && t[|t| - 1] == d[PrevIndex(d, q)]
  }

  /** A last entry above q changes nothing. */
  lemma LastSkipsLarger(d: seq<Entry>, q: real)
    requires d != [] && LastHolds(d[..|d| - 1], q) && q < d[|d| - 1].val
    ensures LastHolds(d, q)
  {
    var d' := d[..|d| - 1];
    var k := PrevIndex(d', q);
    assert d'[k] == d[k];
    assert SomeAtMost(d, q) by { assert d[k].val <= q; }
    assert AtMost(d, q) == AtMost(d', q) + [];
    assert AtMost(d', q) + [] == AtMost(d', q);
    assert PrevIndex(d, q) == k;
  }

  /** A last entry at most q and at least the previous choice is the new
      last of the sort. */
  lemma LastTakesNew(d: seq<Entry>, q: real)
    requires d != [] && LastHolds(d[..|d| - 1], q)
    requires d[|d| - 1].val <= q && d[PrevIndex(d[..|d| - 1], q)].val <= d[|d| - 1].val
    ensures LastHolds(d, q)
  {
    var d', x := d[..|d| - 1], d[|d| - 1];
    var a' := AtMost(d', q);
    var k := PrevIndex(d', q);
    assert d'[k] == d[k];
    assert AtMost(d, q) == a' + [x];
    assert PrevIndex(d, q) == |d| - 1;
    SortSnoc(a', x);
    InsertLargest(SortByValue(a'), x);
  }

  /** A last entry at most q but below the previous choice leaves that choice
      last. */
  lemma LastKeepsOld(d: seq<Entry>, q: real)
    requires d != [] && LastHolds(d[..|d| - 1], q)
    requires d[|d| - 1].val <= q && d[|d| - 1].val < d[PrevIndex(d[..|d| - 1], q)].val
    ensures LastHolds(d, q)
  {
    var d', x := d[..|d| - 1], d[|d| - 1];
    var a' := AtMost(d', q);
    var k := PrevIndex(d', q);
    assert d'[k] == d[k];
    assert AtMost(d, q) == a' + [x];
    assert PrevIndex(d, q) == k;
    SortSnoc(a', x);
    InsertKeepsLast(SortByValue(a'), x);
  }

  /** Sorting the entries above q puts the source's `nextVal` first. */
  lemma {:induction false} FirstOfSortedAbove(d: seq<Entry>, q: real)
    requires SomeAbove(d, q)
    ensures FirstHolds(d, q)
  {
    var d', x := d[..|d| - 1], d[|d| - 1];
    assert forall i :: 0 <= i < |d'| ==> d'[i] == d[i];
    if !SomeAbove(d', q) {
      assert Above(d', q) == [];
      assert Above(d, q) == [x];
      SortSnoc([], x);
    } else {
      FirstOfSortedAbove(d', q);
      if x.val <= q {
        FirstSkipsSmaller(d, q);
      } else {
        FirstInsertsNew(d, q);
      }
    }
  }

  /** The first of the sorted entries above q is the entry `NextIndex` chooses. */
  ghost predicate FirstHolds(d: seq<Entry>, q: real)
  {
    SomeAbove(d, q)
    && var t := SortByValue(Above(d, q));
       |t| > 0 && t[0] == d[NextIndex(d, q)]
  }

  /** A last entry at most q changes nothing. */
  lemma FirstSkipsSmaller(d: seq<Entry>, q: real)
    requires d != [] && FirstHolds(d[..|d| - 1], q) && d[|d| - 1].val <= q
    ensures FirstHolds(d, q)
  {
    var d' := d[..|d| - 1];
    var k := NextIndex(d', q);
    assert d'[k] == d[k];
    assert SomeAbove(d, q) by { assert q < d[k].val; }
    assert Above(d, q) == Above(d', q) + [];
    assert Above(d', q) + [] == Above(d', q);
    assert NextIndex(d, q) == k;
  }

  /** A last entry above q goes first exactly when it is smaller than the
      previous choice. */
  lemma FirstInsertsNew(d: seq<Entry>, q: real)
    requires d != [] && FirstHolds(d[..|d| - 1], q) && q < d[|d| - 1].val
    ensures FirstHolds(d, q)
  {
    var d', x := d[..|d| - 1], d[|d| - 1];
    var b' := Above(d', q);
    var k := NextIndex(d', q);
    assert d'[k] == d[k];
    assert Above(d, q) == b' + [x];
    SortSnoc(b', x);
    InsertHead(SortByValue(b'), x);
  }

  /** Sorting a dataset is sorting its entries at most q, then those above. */
  lemma {:induction false} SortSplits(d: seq<Entry>, q: real)
    ensures SortByValue(d) == SortByValue(AtMost(d, q)) + SortByValue(Above(d, q))
  {
    if d != [] {
      SortSplits(d[..|d| - 1], q);
      SortSplitsStep(d, q);
    }
  }

  lemma SortSplitsStep(d: seq<Entry>, q: real)
    requires d != []
    requires var d' := d[..|d| - 1];
             SortByValue(d') == SortByValue(AtMost(d', q)) + SortByValue(Above(d', q))
    ensures SortByValue(d) == SortByValue(AtMost(d, q)) + SortByValue(Above(d, q))
  {
    var d', x := d[..|d| - 1], d[|d| - 1];
    var a := AtMost(d', q);
    var b := Above(d', q);
    assert SortByValue(d) == Insert(SortByValue(d'), x);
    assert AtMost(d, q) == a + (if x.val <= q then [x] else []);
    assert Above(d, q) == b + (if q < x.val then [x] else []);
    SortedAtMostBounded(d', q);
    SortedAboveBounded(d', q);
    if x.val <= q {
      assert b + [] == b;
      SortSnoc(a, x);
      InsertBefore(SortByValue(a), SortByValue(b), x);
    } else {
      assert a + [] == a;
      SortSnoc(b, x);
      InsertPast(SortByValue(a), SortByValue(b), x);
    }
  }

  /** The sentinel lands after every entry at most q and before every entry
      above it. */
  lemma QuerySortsBetween(d: seq<Entry>, q: real)
    ensures SortByValue(d + [Unknown(q)])
            == SortByValue(AtMost(d, q)) + [Unknown(q)] + SortByValue(Above(d, q))
  {
    var u := Unknown(q);
    SortSnoc(d, u);
    SortSplits(d, q);
    SortedAtMostBounded(d, q);
    SortedAboveBounded(d, q);
    InsertBetween(SortByValue(AtMost(d, q)), SortByValue(Above(d, q)), u);
  }

  /** The sentinel is found just after the entries at most q. */
  lemma SentinelPosition(d: seq<Entry>, q: real)
    ensures var s := SortByValue(d + [Unknown(q)]);
            && (exists j :: 0 <= j < |s| && s[j].Unknown?)
            && IndexOfUnknown(s) == |AtMost(d, q)|
            && |s| == |AtMost(d, q)| + 1 + |Above(d, q)|
  {
    QuerySortsBetween(d, q);
    var ta := SortByValue(AtMost(d, q));
    var s := SortByValue(d + [Unknown(q)]);
    assert s[|ta|].Unknown?;
    SortedAtMostBounded(d, q);
    assert forall j :: 0 <= j < |ta| ==> s[j] == ta[j];
    FirstUnknown(s, |ta|);
  }

  /**
   * The sort-and-search against the direct characterisation: where the
   * sentinel lands decides the outcome, and its neighbours are the entries
   * `PrevIndex` and `NextIndex` choose, with values on either side of q.
   */
  lemma SentinelSearch(d: seq<Entry>, q: real)
    ensures var s := SortByValue(d + [Unknown(q)]);
            exists j :: 0 <= j < |s| && s[j].Unknown?
    ensures var s := SortByValue(d + [Unknown(q)]);
            && IndexOfUnknown(s) == |AtMost(d, q)|
            && |s| == |AtMost(d, q)| + 1 + |Above(d, q)|
    ensures var s := SortByValue(d + [Unknown(q)]);
            var loc := IndexOfUnknown(s);
            && (loc == 0 && |s| < 2 ==> Interpolate(d, q) == Other)
            && (loc == 0 && 2 <= |s| ==> Interpolate(d, q) == BelowRange)
            && (loc != 0 && |s| <= loc + 1 ==> Interpolate(d, q) == AboveRange)
            && (loc != 0 && loc + 1 < |s| ==>
                  && s[loc - 1] == d[PrevIndex(d, q)]
                  && s[loc + 1] == d[NextIndex(d, q)]
                  && s[loc - 1].val <= q < s[loc + 1].val
                  && Interpolate(d, q) == Value(Lerp(d[PrevIndex(d, q)], d[NextIndex(d, q)], q)))
  {
    SentinelPosition(d, q);
    QuerySortsBetween(d, q);
    var ta := SortByValue(AtMost(d, q));
    var tb := SortByValue(Above(d, q));
    var s := SortByValue(d + [Unknown(q)]);
    if |ta| > 0 && |tb| > 0 {
      LastOfSortedAtMost(d, q);
      FirstOfSortedAbove(d, q);
      assert LastHolds(d, q) && FirstHolds(d, q);
      assert s[|ta| - 1] == ta[|ta| - 1];
      assert s[|ta| + 1] == tb[0];
    }
  }
}
