/**
 * calculateArea and calculateAmp: read the geometry's data file row by row
 * into a dictionary, add the query as the `'unknown'` sentinel, stable-sort
 * by value, find the sentinel and interpolate between its neighbours.  The
 * two source functions are one algorithm with the columns swapped, so both
 * are thin wrappers over `Calculate`, which takes the axis as a parameter.
 */
module Calculator {
  import opened Wrappers
  import opened Dataset
  import opened Sorting
  import opened Interpolation
  import opened Search

  /** The file system as the calculator sees it: the rows of every file that
      exists, by name. */
  type Files = map<string, seq<Row>>

  /** What a query against the files answers, stated without the sentinel
      and the sort. */
  function Lookup(files: Files, query: real, bends: int, folds: int, axis: Axis): (o: Outcome)
  {
    var name := FileName(folds, bends);
    if name !in files then NotFound
    else
      match Collect(DataRows(files[name]), axis)
      case None => Other
      case Some(d) => Interpolate(d, query)
  }

  /** A missing file, and only a missing file, gives NotFound (code -3). */
  lemma NotFoundExactly(files: Files, query: real, bends: int, folds: int, axis: Axis)
    ensures Lookup(files, query, bends, folds, axis) == NotFound
            <==> FileName(folds, bends) !in files
  {
  }

  /** A file with a malformed data row, or with no data rows, gives Other
      (code -99); nothing else does. */
  lemma OtherExactly(files: Files, query: real, bends: int, folds: int, axis: Axis)
    ensures Lookup(files, query, bends, folds, axis) == Other
            <==> var name := FileName(folds, bends);
                 name in files
                 && (!AllNumeric(DataRows(files[name])) || DataRows(files[name]) == [])
  {
    var name := FileName(folds, bends);
    if name in files {
      match Collect(DataRows(files[name]), axis)
      case None =>
      case Some(d) =>
        Interpolation.OtherExactly(d, query);
    }
  }

  /** A malformed data row makes the whole file unreadable. */
  lemma MalformedRowFails(rows: seq<Row>, i: nat, axis: Axis)
    requires 0 < i < |rows| && rows[i].Malformed?
    ensures Collect(DataRows(rows), axis) == None
  {
    assert DataRows(rows)[i - 1] == rows[i];
  }

  /** Reading one more data row puts its entry into the dictionary. */
  lemma ReadRow(rows: seq<Row>, i: nat, axis: Axis)
    requires 0 < i < |rows| && rows[i].Numeric?
    requires AllNumeric(DataRows(rows[..i]))
    ensures AllNumeric(DataRows(rows[..i + 1]))
    ensures Build(DataRows(rows[..i + 1]), axis)
            == Put(Build(DataRows(rows[..i]), axis), Project(rows[i], axis))
  {
    DataRowsSnoc(rows, i);
    BuildSnoc(DataRows(rows[..i]), rows[i], axis);
  }

  /**
   * The reading loop: walk the rows with a row counter, skip the first
   * (header) row, and write each data row into the dictionary.  A row that
   * does not parse raises, which the source's catch-all turns into -99; here
   * it is `None`.
   */
  method ReadDictionary(rows: seq<Row>, axis: Axis) returns (dict: Option<seq<Entry>>)
    ensures dict == Collect(DataRows(rows), axis)
  {
    var rowCount := 0;
    var xAreaAmpDict: seq<Entry> := [];
    while rowCount < |rows|
      invariant 0 <= rowCount <= |rows|
      invariant AllNumeric(DataRows(rows[..rowCount]))
      invariant xAreaAmpDict == Build(DataRows(rows[..rowCount]), axis)
    {
      var row := rows[rowCount];
      if rowCount > 0 {
        if row.Malformed? {
          MalformedRowFails(rows, rowCount, axis);
          return None;
        }
        ReadRow(rows, rowCount, axis);
        xAreaAmpDict := Put(xAreaAmpDict, Project(row, axis));
      } else {
        assert DataRows(rows[..1]) == [];
      }
      rowCount := rowCount + 1;
    }
    assert rows[..rowCount] == rows;
    return Some(xAreaAmpDict);
  }

  /**
   * The source's procedure: open the geometry's file, read it into the
   * dictionary, then search and interpolate.  It answers what `Lookup` says.
   */
  method Calculate(files: Files, query: real, bends: int, folds: int, axis: Axis)
    returns (o: Outcome)
    ensures o == Lookup(files, query, bends, folds, axis)
  {
    var csvFile := FileName(folds, bends);
    if csvFile !in files {
      return NotFound;
    }
    var dict := ReadDictionary(files[csvFile], axis);
    if dict.None? {
      return Other;
    }
    o := SearchAndInterpolate(dict.value, query);
  }

  /** The source's two-step computation is the interpolation.  Kept apart
      so that the division is reasoned about outside the search. */
  lemma LerpSteps(prev: Entry, next: Entry, q: real, part1: real)
    requires prev.val < next.val
    requires part1 == (next.key - prev.key) / (next.val - prev.val)
    ensures part1 * (q - prev.val) + prev.key == Lerp(prev, next, q)
  {
  }

  /**
   * The second half of the source's procedure: add the query as the
   * `'unknown'` sentinel, stable-sort by value, find the sentinel and answer
   * from its neighbours.  It answers what the direct characterisation says,
   * and its division never has a zero divisor.
   */
  method SearchAndInterpolate(dict: seq<Entry>, query: real) returns (o: Outcome)
    ensures o == Interpolate(dict, query)
  {
    var sortedDict := SortByValue(dict + [Unknown(query)]);
    SentinelSearch(dict, query);
    var location := IndexOfUnknown(sortedDict);
    if location != 0 {
      if location + 1 >= |sortedDict| {
        // No entry follows the sentinel: above every tested value.
        return AboveRange;
      }
      var previousVal := sortedDict[location - 1];
      var nextVal := sortedDict[location + 1];
      var part1 := (nextVal.key - previousVal.key) / (nextVal.val - previousVal.val);
      LerpSteps(previousVal, nextVal, query, part1);
      return Value(part1 * (query - previousVal.val) + previousVal.key);
    } else {
      if |sortedDict| < 2 {
        // `dictList[location+1]` fails with no data rows.
        return Other;
      }
      return BelowRange;
    }
  }

  /** calculateArea: ampacity in, cross-sectional area out, as a legacy code. */
  method CalculateArea(files: Files, inputAmp: real, bends: int, folds: int)
    returns (outputArea: real)
    ensures outputArea == LegacyCode(Lookup(files, inputAmp, bends, folds, ByAmpacity))
  {
    var o := Calculate(files, inputAmp, bends, folds, ByAmpacity);
    outputArea := LegacyCode(o);
  }

  /** calculateAmp: cross-sectional area in, ampacity out, as a legacy code. */
  method CalculateAmp(files: Files, inputArea: real, bends: int, folds: int)
    returns (outputAmp: real)
    ensures outputAmp == LegacyCode(Lookup(files, inputArea, bends, folds, ByArea))
  {
    var o := Calculate(files, inputArea, bends, folds, ByArea);
    outputAmp := LegacyCode(o);
  }
}
