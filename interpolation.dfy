/**
 * What calculateArea / calculateAmp answer for a dataset, stated directly:
 * the bracketing entries are chosen by their values, with no sentinel and no
 * sort, and the answer is the source's linear interpolation between them.
 */
module Interpolation {
  import opened Dataset

  /** The result of a query: an interpolated value or one of the conditions
      the source signals with a negative number. */
  datatype Outcome = Value(r: real) | AboveRange | BelowRange | NotFound | Other

  /** The number the source returns: the value itself, or -1 above the tested
      range, -2 below it, -3 when there is no file, -99 for any other failure. */
  function LegacyCode(o: Outcome): (code: real)
    ensures o.Value? ==> code == o.r
    ensures !o.Value? ==> code <= -1.0
  {
    match o
    case Value(r) => r
    case AboveRange => -1.0
    case BelowRange => -2.0
    case NotFound => -3.0
    case Other => -99.0
  }

  /** The four failure codes are distinct. */
  lemma LegacyCodesDistinct(o1: Outcome, o2: Outcome)
    requires !o1.Value? && !o2.Value? && LegacyCode(o1) == LegacyCode(o2)
    ensures o1 == o2
  {
  }

  predicate SomeAtMost(d: seq<Entry>, q: real) {
    exists i :: 0 <= i < |d| && d[i].val <= q
  }

  predicate SomeAbove(d: seq<Entry>, q: real) {
    exists i :: 0 <= i < |d| && q < d[i].val
  }

  /** The entries whose value does not exceed q, in dictionary order. */
  function AtMost(d: seq<Entry>, q: real): (r: seq<Entry>)
    ensures forall i :: 0 <= i < |r| ==> r[i].val <= q
    ensures r == [] <==> !SomeAtMost(d, q)
  {
    if d == [] then []
    else
      var n := |d| - 1;
      assert forall i :: 0 <= i < n ==> d[..n][i] == d[i];
      AtMost(d[..n], q) + (if d[n].val <= q then [d[n]] else [])
  }

  /** The entries whose value exceeds q, in dictionary order. */
  function Above(d: seq<Entry>, q: real): (r: seq<Entry>)
    ensures forall i :: 0 <= i < |r| ==> q < r[i].val
    ensures r == [] <==> !SomeAbove(d, q)
  {
    if d == [] then []
    else
      var n := |d| - 1;
      assert forall i :: 0 <= i < n ==> d[..n][i] == d[i];
      Above(d[..n], q) + (if q < d[n].val then [d[n]] else [])
  }

  /** The position of the entry the source calls `previousVal`: among the
      entries whose value does not exceed q, one with the largest value, and
      the last in dictionary order among those that share it. */
  function PrevIndex(d: seq<Entry>, q: real): (k: nat)
    requires SomeAtMost(d, q)
    ensures k < |d| && d[k].val <= q
    ensures forall i :: 0 <= i < |d| && d[i].val <= q ==> d[i].val <= d[k].val
    ensures forall i :: k < i < |d| ==> d[i].val != d[k].val
  {
    var n := |d| - 1;
    assert forall i :: 0 <= i < n ==> d[..n][i] == d[i];
    if SomeAtMost(d[..n], q) then
      var k := PrevIndex(d[..n], q);
      if d[n].val <= q && d[k].val <= d[n].val then n else k
    else n
  }

  /** The position of the entry the source calls `nextVal`: among the entries
      whose value exceeds q, one with the smallest value, and the first in
      dictionary order among those that share it. */
  function NextIndex(d: seq<Entry>, q: real): (k: nat)
    requires SomeAbove(d, q)
    ensures k < |d| && q < d[k].val
    ensures forall i :: 0 <= i < |d| && q < d[i].val ==> d[k].val <= d[i].val
    ensures forall i :: 0 <= i < k ==> d[i].val != d[k].val
  {
    var n := |d| - 1;
    assert forall i :: 0 <= i < n ==> d[..n][i] == d[i];
    if SomeAbove(d[..n], q) then
      var k := NextIndex(d[..n], q);
      if q < d[n].val && d[n].val < d[k].val then n else k
    else n
  }

  predicate Between(r: real, a: real, b: real) {
    (a <= r <= b) || (b <= r <= a)
  }

  /** The source's interpolation, `part1 * (q - prev.val) + prev.key` with
      `part1 = (next.key - prev.key) / (next.val - prev.val)`. */
  function Lerp(prev: Entry, next: Entry, q: real): (r: real)
    requires prev.val < next.val
    ensures q == prev.val ==> r == prev.key
  {
    var part1 := (next.key - prev.key) / (next.val - prev.val);
    part1 * (q - prev.val) + prev.key
  }

  /** The interpolation is the textbook linear interpolation formula. */
  lemma LerpFormula(prev: Entry, next: Entry, q: real)
    requires prev.val < next.val
    ensures Lerp(prev, next, q)
            == prev.key + (next.key - prev.key) * (q - prev.val) / (next.val - prev.val)
  {
  }

  lemma DivideStrictly(a: real, b: real, w: real)
    requires a < b && 0.0 < w
    ensures a / w < b / w
  {
  }

  /** Between its two entries, the interpolated value lies between their keys. */
  lemma LerpBetween(prev: Entry, next: Entry, q: real)
    requires prev.val <= q < next.val
    ensures Between(Lerp(prev, next, q), prev.key, next.key)
  {
    var w := next.val - prev.val;
    var t := (q - prev.val) / w;
    assert t * w == q - prev.val;
    assert 0.0 <= t;
    DivideStrictly(q - prev.val, w, w);
    assert w / w == 1.0;
    assert t < 1.0;
    var delta := next.key - prev.key;
    assert Lerp(prev, next, q) == prev.key + delta * t;
    assert delta - delta * t == delta * (1.0 - t);
    if delta >= 0.0 {
      assert 0.0 <= delta * (1.0 - t);
      assert 0.0 <= delta * t;
    } else {
      assert delta * (1.0 - t) <= 0.0;
      assert delta * t <= 0.0;
    }
  }

  /** The answer for dataset d (keys are the column returned, values the
      column compared with q) and query q. */
  function Interpolate(d: seq<Entry>, q: real): (o: Outcome)
    ensures o != NotFound
  {
    if d == [] then Other
    else if !SomeAtMost(d, q) then BelowRange
    else if !SomeAbove(d, q) then AboveRange
    else Value(Lerp(d[PrevIndex(d, q)], d[NextIndex(d, q)], q))
  }

  /** Only an empty dataset gives the catch-all failure. */
  lemma OtherExactly(d: seq<Entry>, q: real)
    ensures Interpolate(d, q) == Other <==> d == []
  {
  }

  /** A query smaller than every tested value is below the range. */
  lemma BelowRangeExactly(d: seq<Entry>, q: real)
    ensures Interpolate(d, q) == BelowRange <==>
              d != [] && forall i :: 0 <= i < |d| ==> q < d[i].val
  {
  }

  /** A query at least as large as every tested value is above the range:
      the largest tested value itself is reported as out of range. */
  lemma AboveRangeExactly(d: seq<Entry>, q: real)
    ensures Interpolate(d, q) == AboveRange <==>
              d != [] && (forall i :: 0 <= i < |d| ==> d[i].val <= q)
  {
    if d != [] && forall i :: 0 <= i < |d| ==> d[i].val <= q {
      assert SomeAtMost(d, q) by { assert d[0].val <= q; }
    }
  }

  /** A value is produced exactly when some tested value is at most q and
      some tested value exceeds it. */
  lemma ValueExactly(d: seq<Entry>, q: real)
    ensures Interpolate(d, q).Value? <==> SomeAtMost(d, q) && SomeAbove(d, q)
  {
  }

  /** The value is interpolated between the greatest tested value at most q
      and the least tested value above it: no tested value lies strictly
      between them, and the divisor is positive. */
  lemma ValueBrackets(d: seq<Entry>, q: real)
    requires SomeAtMost(d, q) && SomeAbove(d, q)
    ensures var p := d[PrevIndex(d, q)];
            var n := d[NextIndex(d, q)];
            && p.val <= q < n.val
            && (forall i :: 0 <= i < |d| ==> d[i].val <= p.val || n.val <= d[i].val)
            && Interpolate(d, q) == Value(Lerp(p, n, q))
  {
  }

  /** An interpolated answer lies between the keys of its two neighbours. */
  lemma InterpolatedBetween(d: seq<Entry>, q: real)
    requires Interpolate(d, q).Value?
    ensures Between(Interpolate(d, q).r, d[PrevIndex(d, q)].key, d[NextIndex(d, q)].key)
  {
    LerpBetween(d[PrevIndex(d, q)], d[NextIndex(d, q)], q);
  }

  /** With positive data an interpolated answer is positive, so it can never
      be mistaken for one of the negative failure codes. */
  lemma PositiveDataPositiveValue(d: seq<Entry>, q: real)
    requires forall i :: 0 <= i < |d| ==> 0.0 < d[i].key
    requires Interpolate(d, q).Value?
    ensures 0.0 < LegacyCode(Interpolate(d, q))
  {
    InterpolatedBetween(d, q);
  }

  /** A query equal to a tested value that is not the largest returns that
      entry's key exactly (the last entry in dictionary order carrying it). */
  lemma ExactHit(d: seq<Entry>, i: nat)
    requires i < |d|
    requires forall j :: i < j < |d| ==> d[j].val != d[i].val
    requires SomeAbove(d, d[i].val)
    ensures Interpolate(d, d[i].val) == Value(d[i].key)
  {
    var q := d[i].val;
    assert SomeAtMost(d, q);
    var k := PrevIndex(d, q);
    assert d[k].val == q;
    if k < i {
      assert false;
    } else if i < k {
      assert false;
    }
  }

  /** The smallest tested value is answered exactly, not as below range. */
  lemma LowestTestedValueIsExactHit(d: seq<Entry>, i: nat)
    requires i < |d|
    requires forall j :: 0 <= j < |d| ==> d[i].val <= d[j].val
    requires forall j :: i < j < |d| ==> d[j].val != d[i].val
    requires SomeAbove(d, d[i].val)
    ensures Interpolate(d, d[i].val) == Value(d[i].key)
  {
    ExactHit(d, i);
  }

  /** The largest tested value is reported as above range. */
  lemma HighestTestedValueIsAbove(d: seq<Entry>, i: nat)
    requires i < |d|
    requires forall j :: 0 <= j < |d| ==> d[j].val <= d[i].val
    ensures Interpolate(d, d[i].val) == AboveRange
  {
    AboveRangeExactly(d, d[i].val);
  }
}
