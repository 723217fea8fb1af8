/**
 * `sorted(xAreaAmpDict.items(), key=lambda x: x[1])`: Python's sort is
 * stable, so its result is that of an insertion sort that places each item
 * after every earlier item whose value is not larger.
 */
module Sorting {
  import opened Dataset

  /** Each item's value is at most the next one's. */
  ghost predicate SortedByValue(s: seq<DictItem>) {
    |s| <= 1 || (s[0].val <= s[1].val && SortedByValue(s[1..]))
  }

  /** In a sorted sequence every earlier item has a value at most that of every later one. */
  lemma {:induction false} SortedIsOrdered(s: seq<DictItem>, i: int, j: int)
    requires SortedByValue(s) && 0 <= i <= j < |s|
    ensures s[i].val <= s[j].val
  {
    if i < j {
      if 0 < i {
        SortedIsOrdered(s[1..], i - 1, j - 1);
      } else {
        SortedIsOrdered(s[1..], 0, j - 1);
      }
    }
  }

  /** Places x after the leading items whose value does not exceed its own. */
  function Insert(t: seq<DictItem>, x: DictItem): (r: seq<DictItem>)
    ensures |r| == |t| + 1
  {
    if t == [] then [x]
    else if t[0].val <= x.val then
      assert t == [t[0]] + t[1..];
      [t[0]] + Insert(t[1..], x)
    else [x] + t
  }

  lemma {:induction false} InsertSorted(t: seq<DictItem>, x: DictItem)
    requires SortedByValue(t)
    ensures SortedByValue(Insert(t, x))
  {
    if t != [] && t[0].val <= x.val {
      var rest := Insert(t[1..], x);
      InsertSorted(t[1..], x);
      assert Insert(t, x) == [t[0]] + rest;
      assert ([t[0]] + rest)[1..] == rest;
      if |t| > 1 && t[1].val <= x.val {
        assert rest[0] == t[1];
      } else {
        assert rest[0] == x;
      }
    } else if t != [] {
      assert ([x] + t)[1..] == t;
    }
  }

  /** The items in ascending order of value, equal values in their original order. */
  function SortByValue(s: seq<DictItem>): (r: seq<DictItem>)
    ensures |r| == |s|
    ensures SortedByValue(r)
  {
    if s == [] then []
    else
      assert s == s[..|s| - 1] + [s[|s| - 1]];
      InsertSorted(SortByValue(s[..|s| - 1]), s[|s| - 1]);
      Insert(SortByValue(s[..|s| - 1]), s[|s| - 1])
  }

  lemma {:induction false} InsertPermutes(t: seq<DictItem>, x: DictItem)
    ensures multiset(Insert(t, x)) == multiset(t) + multiset{x}
  {
    if t != [] && t[0].val <= x.val {
      InsertPermutes(t[1..], x);
      assert t == [t[0]] + t[1..];
    }
  }

  /** The sort is a permutation: it neither loses nor adds an item. */
  lemma {:induction false} SortPermutes(s: seq<DictItem>)
    ensures multiset(SortByValue(s)) == multiset(s)
  {
    if s != [] {
      var n := |s| - 1;
      SortPermutes(s[..n]);
      InsertPermutes(SortByValue(s[..n]), s[n]);
      assert s == s[..n] + [s[n]];
    }
  }

  lemma SortMembers(s: seq<DictItem>)
    ensures forall y :: y in SortByValue(s) <==> y in s
  {
    SortPermutes(s);
    forall y ensures y in SortByValue(s) <==> y in s {
      assert y in SortByValue(s) <==> y in multiset(SortByValue(s));
      assert y in s <==> y in multiset(s);
    }
  }

  /** The items of s that have value v, in their order in s. */
  function WithValue(s: seq<DictItem>, v: real): seq<DictItem> {
    if s == [] then []
    else (if s[0].val == v then [s[0]] else []) + WithValue(s[1..], v)
  }

  lemma {:induction false} WithValueAppend(a: seq<DictItem>, b: seq<DictItem>, v: real)
    ensures WithValue(a + b, v) == WithValue(a, v) + WithValue(b, v)
  {
    if a != [] {
      assert (a + b)[0] == a[0];
      assert (a + b)[1..] == a[1..] + b;
      WithValueAppend(a[1..], b, v);
    } else {
      assert a + b == b;
    }
  }

  lemma {:induction false} WithValueNone(s: seq<DictItem>, v: real)
    requires forall i :: 0 <= i < |s| ==> s[i].val != v
    ensures WithValue(s, v) == []
  {
    if s != [] {
      WithValueNone(s[1..], v);
    }
  }

  lemma {:induction false} WithValueCons(x: DictItem, s: seq<DictItem>, v: real)
    ensures WithValue([x] + s, v) == (if x.val == v then [x] else []) + WithValue(s, v)
  {
    assert ([x] + s)[0] == x;
    assert ([x] + s)[1..] == s;
  }

  /** Inserting into a sorted sequence puts x behind every item of equal value. */
  lemma {:induction false} InsertKeepsTies(t: seq<DictItem>, x: DictItem, v: real)
    requires SortedByValue(t)
    ensures WithValue(Insert(t, x), v) == WithValue(t, v) + (if x.val == v then [x] else [])
  {
    if t == [] {
      WithValueCons(x, [], v);
      assert [x] + [] == [x];
    } else if t[0].val <= x.val {
      InsertKeepsTies(t[1..], x, v);
      InsertLargerKeepsTies(t, x, v);
    } else {
      InsertSmallestKeepsTies(t, x, v);
    }
  }

  lemma InsertLargerKeepsTies(t: seq<DictItem>, x: DictItem, v: real)
    requires t != [] && t[0].val <= x.val
    requires WithValue(Insert(t[1..], x), v)
             == WithValue(t[1..], v) + (if x.val == v then [x] else [])
    ensures WithValue(Insert(t, x), v) == WithValue(t, v) + (if x.val == v then [x] else [])
  {
    var h, t' := t[0], t[1..];
    var head := if h.val == v then [h] else [];
    var tail := if x.val == v then [x] else [];
    assert Insert(t, x) == [h] + Insert(t', x);
    WithValueCons(h, Insert(t', x), v);
    assert WithValue(t, v) == head + WithValue(t', v);
    assert head + (WithValue(t', v) + tail) == (head + WithValue(t', v)) + tail;
  }

  lemma InsertSmallestKeepsTies(t: seq<DictItem>, x: DictItem, v: real)
    requires SortedByValue(t) && t != [] && x.val < t[0].val
    ensures WithValue(Insert(t, x), v) == WithValue(t, v) + (if x.val == v then [x] else [])
  {
    assert Insert(t, x) == [x] + t;
    WithValueCons(x, t, v);
    if x.val == v {
      forall i | 0 <= i < |t| ensures t[i].val != v {
        SortedIsOrdered(t, 0, i);
      }
      WithValueNone(t, v);
      assert [x] + [] == [] + [x];
    } else {
      assert [] + WithValue(t, v) == WithValue(t, v) + [];
    }
  }

  /** Stability: for every value, the items with that value come out in the
      order they went in. */
  lemma {:induction false} SortIsStable(s: seq<DictItem>, v: real)
    ensures WithValue(SortByValue(s), v) == WithValue(s, v)
  {
    if s != [] {
      var n := |s| - 1;
      var tail := if s[n].val == v then [s[n]] else [];
      assert SortByValue(s) == Insert(SortByValue(s[..n]), s[n]);
      SortIsStable(s[..n], v);
      InsertKeepsTies(SortByValue(s[..n]), s[n], v);
      assert s == s[..n] + [s[n]];
      WithValueAppend(s[..n], [s[n]], v);
      WithValueCons(s[n], [], v);
      assert [s[n]] + [] == [s[n]];
    }
  }

  /** An item that does not exceed x stays in front of it. */
  lemma InsertCons(h: DictItem, s: seq<DictItem>, x: DictItem)
    requires h.val <= x.val
    ensures Insert([h] + s, x) == [h] + Insert(s, x)
  {
    assert ([h] + s)[1..] == s;
  }

  /** Items that do not exceed x stay in front of it. */
  lemma {:induction false} InsertPast(a: seq<DictItem>, b: seq<DictItem>, x: DictItem)
    requires forall i :: 0 <= i < |a| ==> a[i].val <= x.val
    ensures Insert(a + b, x) == a + Insert(b, x)
  {
    if a == [] {
      assert a + b == b;
    } else {
      var h, a' := a[0], a[1..];
      assert a + b == [h] + (a' + b);
      InsertCons(h, a' + b, x);
      InsertPast(a', b, x);
      assert a + Insert(b, x) == [h] + (a' + Insert(b, x));
    }
  }

  /** Items that exceed x stay behind it. */
  lemma {:induction false} InsertBefore(a: seq<DictItem>, b: seq<DictItem>, x: DictItem)
    requires forall i :: 0 <= i < |b| ==> b[i].val > x.val
    ensures Insert(a + b, x) == Insert(a, x) + b
  {
    if a == [] {
      assert a + b == b;
      assert Insert(a, x) == [x];
    } else {
      var h, a' := a[0], a[1..];
      assert a + b == [h] + (a' + b);
      if h.val <= x.val {
        assert a == [h] + a';
        InsertCons(h, a' + b, x);
        InsertCons(h, a', x);
        InsertBefore(a', b, x);
        assert [h] + (Insert(a', x) + b) == ([h] + Insert(a', x)) + b;
      } else {
        assert [x] + (a + b) == ([x] + a) + b;
      }
    }
  }

  /** Sorting one more item inserts it into the sort of the others. */
  lemma SortSnoc(s: seq<DictItem>, x: DictItem)
    ensures SortByValue(s + [x]) == Insert(SortByValue(s), x)
  {
    assert (s + [x])[..|s|] == s;
  }

  /** The first item after an insertion. */
  lemma InsertHead(t: seq<DictItem>, x: DictItem)
    requires |t| > 0
    ensures Insert(t, x)[0] == if t[0].val <= x.val then t[0] else x
  {
  }

  /** An item smaller than everything goes to the front. */
  lemma InsertAtFront(t: seq<DictItem>, x: DictItem)
    requires forall i :: 0 <= i < |t| ==> t[i].val > x.val
    ensures Insert(t, x) == [x] + t
  {
    if t == [] {
      assert [x] + [] == [x];
    }
  }

  /** Inserting an item smaller than the last keeps the last in place. */
  lemma {:induction false} InsertKeepsLast(t: seq<DictItem>, x: DictItem)
    requires |t| > 0 && x.val < t[|t| - 1].val
    ensures Insert(t, x)[|t|] == t[|t| - 1]
  {
    if t[0].val <= x.val {
      assert |t| > 1;
      InsertKeepsLast(t[1..], x);
    }
  }

  /** Inserting an item at least as large as a sorted sequence's last
      appends it. */
  lemma InsertLargest(t: seq<DictItem>, x: DictItem)
    requires SortedByValue(t)
    requires |t| > 0 ==> t[|t| - 1].val <= x.val
    ensures Insert(t, x) == t + [x]
  {
    forall i | 0 <= i < |t| ensures t[i].val <= x.val {
      SortedIsOrdered(t, i, |t| - 1);
    }
    InsertPast(t, [], x);
    assert t + [] == t;
  }

  /** An item no smaller than the first part and smaller than the second is
      inserted between them. */
  lemma InsertBetween(a: seq<DictItem>, b: seq<DictItem>, x: DictItem)
    requires forall i :: 0 <= i < |a| ==> a[i].val <= x.val
    requires forall i :: 0 <= i < |b| ==> b[i].val > x.val
    ensures Insert(a + b, x) == a + [x] + b
  {
    InsertPast(a, b, x);
    InsertAtFront(b, x);
    assert a + ([x] + b) == a + [x] + b;
  }
}
