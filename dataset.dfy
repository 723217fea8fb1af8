/**
 * The empirical dataset of one busbar geometry: the CSV rows of
 * `busbar-data-{folds}folds-{bends}bends.csv`, and the dictionary that
 * calculateArea / calculateAmp build from them.
 */
module Dataset {
  import opened Wrappers

  /** One CSV line after `float()` has been applied to its first two fields:
      the area (m²) and the ampacity (A), or a line that `float()` rejects
      or that has fewer than two fields. */
  datatype Row = Numeric(area: real, amp: real) | Malformed

  /** The column a query is expressed in: calculateArea asks by ampacity,
      calculateAmp by area. */
  datatype Axis = ByAmpacity | ByArea

  /** An item of the source's dictionary: a tested sample whose key is the
      column handed back to the caller and whose value is the column that is
      sorted and compared with the query, or the query itself, stored under
      the key 'unknown'. */
  datatype DictItem = Tested(key: real, val: real) | Unknown(val: real)

  /** A dictionary item that comes from the CSV file. */
  type Entry = it: DictItem | it.Tested? witness Tested(0.0, 0.0)

  predicate AllNumeric(rows: seq<Row>) {
    forall i :: 0 <= i < |rows| ==> rows[i].Numeric?
  }

  /** The dictionary item a row contributes: `xAreaAmpDict[area] = amp` when
      the query is an ampacity, `xAreaAmpDict[amp] = area` when it is an area. */
  function Project(row: Row, axis: Axis): Entry
    requires row.Numeric?
  {
    match axis
    case ByAmpacity => Tested(row.area, row.amp)
    case ByArea => Tested(row.amp, row.area)
  }

  /** calculateAmp's item for a row is calculateArea's with key and value
      exchanged. */
  lemma ProjectSwapsColumns(row: Row)
    requires row.Numeric?
    ensures Project(row, ByArea).key == Project(row, ByAmpacity).val
    ensures Project(row, ByArea).val == Project(row, ByAmpacity).key
  {
  }

  predicate HasKey(d: seq<Entry>, k: real) {
    exists i :: 0 <= i < |d| && d[i].key == k
  }

  /** A dictionary never holds the same key twice. */
  ghost predicate UniqueKeys(d: seq<Entry>) {
    forall i, j :: 0 <= i < j < |d| ==> d[i].key != d[j].key
  }

  /** The position of key k among the dictionary's items, or -1. */
  function KeyIndex(d: seq<Entry>, k: real): (i: int)
    ensures -1 <= i < |d|
    ensures i >= 0 ==> d[i].key == k
    ensures i == -1 <==> !HasKey(d, k)
  {
    if d == [] then -1
    else if d[|d| - 1].key == k then |d| - 1
    else KeyIndex(d[..|d| - 1], k)
  }

  /** Dictionary assignment `dict[e.key] = e.val` on the dictionary's items
      in insertion order: a new key goes to the end, an existing key keeps
      its position and takes the new value. */
  function Put(d: seq<Entry>, e: Entry): (r: seq<Entry>)
    requires UniqueKeys(d)
    ensures |r| == if HasKey(d, e.key) then |d| else |d| + 1
    ensures forall i :: 0 <= i < |d| ==> r[i] == if d[i].key == e.key then e else d[i]
    ensures !HasKey(d, e.key) ==> r[|d|] == e
    ensures UniqueKeys(r)
  {
    var i := KeyIndex(d, e.key);
    if i < 0 then d + [e] else d[i := e]
  }

  /** After `dict[e.key] = e.val` the dictionary holds e and every earlier
      item with another key. */
  lemma PutMembers(d: seq<Entry>, e: Entry)
    requires UniqueKeys(d)
    ensures forall x :: x in Put(d, e) <==> x == e || (x in d && x.key != e.key)
  {
    var r := Put(d, e);
    forall x | x in r ensures x == e || (x in d && x.key != e.key) {
      var i :| 0 <= i < |r| && r[i] == x;
      if i < |d| && d[i].key != e.key {
        assert x == d[i];
      }
    }
    forall x | x == e || (x in d && x.key != e.key) ensures x in r {
      if x == e {
        if HasKey(d, e.key) {
          var i := KeyIndex(d, e.key);
          assert r[i] == e;
        } else {
          assert r[|d|] == e;
        }
      } else {
        var i :| 0 <= i < |d| && d[i] == x;
        assert r[i] == x;
      }
    }
  }

  /** The rows after the header row, which the source skips whatever it holds. */
  function DataRows(rows: seq<Row>): seq<Row> {
    if |rows| == 0 then [] else rows[1..]
  }

  /** Whatever the header row holds, even a line `float()` rejects, the file
      reads the same. */
  lemma HeaderIgnored(h: Row, h': Row, rest: seq<Row>, axis: Axis)
    ensures Collect(DataRows([h] + rest), axis) == Collect(DataRows([h'] + rest), axis)
  {
    assert ([h] + rest)[1..] == rest;
    assert ([h'] + rest)[1..] == rest;
  }

  /** The dictionary the source builds from data rows that all parse, one
      assignment per row. */
  function Build(rows: seq<Row>, axis: Axis): (d: seq<Entry>)
    requires AllNumeric(rows)
    ensures UniqueKeys(d) && |d| <= |rows|
  {
    if rows == [] then []
    else Put(Build(rows[..|rows| - 1], axis), Project(rows[|rows| - 1], axis))
  }

  /** The dictionary the source builds from the data rows, or None when a row
      makes `float()` or the field access raise. */
  function Collect(rows: seq<Row>, axis: Axis): (r: Option<seq<Entry>>)
    ensures r.Some? <==> AllNumeric(rows)
  {
    if AllNumeric(rows) then Some(Build(rows, axis)) else None
  }

  /** Reading one more row writes its entry into the dictionary so far. */
  lemma BuildSnoc(rows: seq<Row>, r: Row, axis: Axis)
    requires AllNumeric(rows) && r.Numeric?
    ensures AllNumeric(rows + [r])
            && Build(rows + [r], axis) == Put(Build(rows, axis), Project(r, axis))
  {
    assert forall i :: 0 <= i < |rows| ==> rows[i] == (rows + [r])[i];
    assert (rows + [r])[..|rows|] == rows;
  }

  /** After the header, each row read is one more data row. */
  lemma DataRowsSnoc(rows: seq<Row>, i: nat)
    requires 0 < i < |rows|
    ensures DataRows(rows[..i + 1]) == DataRows(rows[..i]) + [rows[i]]
  {
    assert rows[..i + 1][1..] == rows[1..i + 1];
    assert rows[..i][1..] == rows[1..i];
    assert rows[1..i + 1] == rows[1..i] + [rows[i]];
  }

  /** Row i is the last data row that writes its key. */
  ghost predicate FinalRow(rows: seq<Row>, axis: Axis, i: int)
    requires AllNumeric(rows) && 0 <= i < |rows|
  {
    forall k :: i < k < |rows| ==> Project(rows[k], axis).key != Project(rows[i], axis).key
  }

  lemma FinalInPrefix(rows: seq<Row>, axis: Axis, i: int)
    requires AllNumeric(rows) && 0 <= i < |rows| - 1 && FinalRow(rows, axis, i)
    ensures FinalRow(rows[..|rows| - 1], axis, i)
  {
    var prefix := rows[..|rows| - 1];
    forall k | i < k < |prefix| ensures Project(prefix[k], axis).key != Project(prefix[i], axis).key {
      assert prefix[k] == rows[k];
    }
  }

  /** The item of a row that no later row overwrites is in the dictionary. */
  lemma {:induction false} FinalRowKept(rows: seq<Row>, axis: Axis, d: seq<Entry>, i: int)
    requires AllNumeric(rows) && d == Build(rows, axis)
    requires 0 <= i < |rows| && FinalRow(rows, axis, i)
    ensures Project(rows[i], axis) in d
  {
    var n := |rows| - 1;
    var prefix := rows[..n];
    var d' := Build(prefix, axis);
    PutMembers(d', Project(rows[n], axis));
    if i < n {
      FinalInPrefix(rows, axis, i);
      assert prefix[i] == rows[i];
      FinalRowKept(prefix, axis, d', i);
      assert Project(rows[n], axis).key != Project(rows[i], axis).key;
    }
  }

  /** Every item of the dictionary is that of a row no later row overwrites. */
  lemma {:induction false} KeptRowIsFinal(rows: seq<Row>, axis: Axis, d: seq<Entry>, e: Entry)
    requires AllNumeric(rows) && d == Build(rows, axis)
    requires e in d
    ensures exists i :: 0 <= i < |rows| && FinalRow(rows, axis, i) && Project(rows[i], axis) == e
  {
    var n := |rows| - 1;
    var prefix := rows[..n];
    var d' := Build(prefix, axis);
    var x := Project(rows[n], axis);
    PutMembers(d', x);
    if e == x {
      assert FinalRow(rows, axis, n);
    } else {
      KeptRowIsFinal(prefix, axis, d', e);
      var i :| 0 <= i < n && FinalRow(prefix, axis, i) && Project(prefix[i], axis) == e;
      assert prefix[i] == rows[i];
      assert FinalRow(rows, axis, i) by {
        forall k | i < k < |rows| ensures Project(rows[k], axis).key != e.key {
          if k < n {
            assert prefix[k] == rows[k];
          }
        }
      }
    }
  }

  /** A later row with the same key overwrites an earlier one: the dictionary
      holds exactly the items of the rows that are the last to write their key. */
  lemma CollectKeepsFinalRows(rows: seq<Row>, axis: Axis, d: seq<Entry>)
    requires Collect(rows, axis) == Some(d)
    ensures forall e :: e in d <==>
      exists i :: 0 <= i < |rows| && FinalRow(rows, axis, i) && Project(rows[i], axis) == e
  {
    forall e | e in d
      ensures exists i :: 0 <= i < |rows| && FinalRow(rows, axis, i) && Project(rows[i], axis) == e
    {
      KeptRowIsFinal(rows, axis, d, e);
    }
    forall i | 0 <= i < |rows| && FinalRow(rows, axis, i)
      ensures Project(rows[i], axis) in d
    {
      FinalRowKept(rows, axis, d, i);
    }
  }

  /** Python's `str(n)` for an integer without a sign. */
  function NatToDecimal(n: nat): (s: string)
    ensures |s| >= 1 && forall i :: 0 <= i < |s| ==> '0' <= s[i] <= '9'
  {
    if n < 10 then [('0' as int + n) as char]
    else NatToDecimal(n / 10) + [('0' as int + n % 10) as char]
  }

  /** Python's `str(n)` for any integer. */
  function IntToDecimal(n: int): (s: string)
    ensures |s| >= 1 && '-' !in s[1..] && 'f' !in s && 'b' !in s
  {
    if n < 0 then "-" + NatToDecimal(-n) else NatToDecimal(n)
  }

  /** The value of a string of decimal digits. */
  function DecimalValue(s: string): nat
    requires forall i :: 0 <= i < |s| ==> '0' <= s[i] <= '9'
  {
    if s == [] then 0
    else DecimalValue(s[..|s| - 1]) * 10 + (s[|s| - 1] as int - '0' as int)
  }

  /** The value of a string IntToDecimal produced. */
  function IntValue(s: string): int
    requires |s| >= 1
    requires forall i :: (if s[0] == '-' then 1 else 0) <= i < |s| ==> '0' <= s[i] <= '9'
  {
    if s[0] == '-' then -(DecimalValue(s[1..]) as int) else DecimalValue(s)
  }

  lemma {:induction false} DecimalRoundTrip(n: nat)
    ensures DecimalValue(NatToDecimal(n)) == n
  {
    if n >= 10 {
      var s := NatToDecimal(n);
      assert s[..|s| - 1] == NatToDecimal(n / 10);
      DecimalRoundTrip(n / 10);
    }
  }

  /** Reading back the digits `format` wrote gives the number. */
  lemma IntRoundTrip(n: int)
    ensures IntValue(IntToDecimal(n)) == n
  {
    if n < 0 {
      assert IntToDecimal(n)[1..] == NatToDecimal(-n);
      DecimalRoundTrip(-n);
    } else {
      DecimalRoundTrip(n);
    }
  }

  /** The file that holds the dataset of a geometry,
      `"busbar-data-{0}folds-{1}bends.csv".format(folds, bends)`. */
  function FileName(folds: int, bends: int): string {
    "busbar-data-" + (IntToDecimal(folds) + ("folds-" + (IntToDecimal(bends) + "bends.csv")))
  }

  lemma CancelPrefix(p: string, u: string, v: string)
    requires p + u == p + v
    ensures u == v
  {
    assert u == (p + u)[|p|..];
    assert v == (p + v)[|p|..];
  }

  lemma MarkerPosition(a: string, x: string, b: string, y: string)
    requires a + x == b + y && |a| < |b| && |x| > 0
    ensures b[|a|] == x[0]
  {
    assert b[|a|] == (b + y)[|a|];
    assert x[0] == (a + x)[|a|];
  }

  /** Two strings free of a marker character, each followed by a text that
      starts with the marker, are told apart by where the marker first occurs. */
  lemma SplitAtMarker(a: string, x: string, b: string, y: string, c: char)
    requires c !in a && c !in b && |x| > 0 && |y| > 0 && x[0] == c && y[0] == c
    requires a + x == b + y
    ensures a == b && x == y
  {
    if |a| < |b| {
      MarkerPosition(a, x, b, y);
      assert false;
    } else if |b| < |a| {
      MarkerPosition(b, y, a, x);
      assert false;
    }
    assert a == (a + x)[..|a|];
    assert b == (b + y)[..|b|];
    assert x == (a + x)[|a|..];
    assert y == (b + y)[|b|..];
  }

  /** Every geometry names its own file: different (folds, bends) pairs
      never read the same dataset. */
  lemma {:induction false} FileNameInjective(folds1: int, bends1: int, folds2: int, bends2: int)
    requires FileName(folds1, bends1) == FileName(folds2, bends2)
    ensures folds1 == folds2 && bends1 == bends2
  {
    var f1, f2 := IntToDecimal(folds1), IntToDecimal(folds2);
    var b1, b2 := IntToDecimal(bends1), IntToDecimal(bends2);
    CancelPrefix("busbar-data-", f1 + ("folds-" + (b1 + "bends.csv")), f2 + ("folds-" + (b2 + "bends.csv")));
    SplitAtMarker(f1, "folds-" + (b1 + "bends.csv"), f2, "folds-" + (b2 + "bends.csv"), 'f');
    CancelPrefix("folds-", b1 + "bends.csv", b2 + "bends.csv");
    SplitAtMarker(b1, "bends.csv", b2, "bends.csv", 'b');
    IntRoundTrip(folds1);
    IntRoundTrip(folds2);
    IntRoundTrip(bends1);
    IntRoundTrip(bends2);
  }
}
