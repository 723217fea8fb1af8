/**
 * Worked cases: a two-row dataset for the geometry with no folds and no
 * bends, queried through both axes, and a file whose duplicate keys collapse
 * differently depending on which column is the key.
 */
module Samples {
  import opened Wrappers
  import opened Dataset
  import opened Interpolation
  import opened Calculator

  /** A header that does not parse as numbers, then two tested bars. */
  function SampleRows(): seq<Row> {
    [Malformed, Numeric(0.00005, 100.0), Numeric(0.0001, 150.0)]
  }

  function SampleFiles(): Files {
    map[FileName(0, 0) := SampleRows()]
  }

  /** Reading a key not yet present appends its entry. */
  lemma PutFresh(d: seq<Entry>, e: Entry)
    requires UniqueKeys(d) && !HasKey(d, e.key)
    ensures Put(d, e) == d + [e]
  {
  }

  /** The first data row gives a one-entry dictionary. */
  lemma OneRow(r: Row, axis: Axis)
    requires r.Numeric?
    ensures Build([r], axis) == [Project(r, axis)]
  {
    BuildSnoc([], r, axis);
    assert [] + [r] == [r];
    PutFresh([], Project(r, axis));
    assert [] + [Project(r, axis)] == [Project(r, axis)];
  }

  /** A second key joins a one-entry dictionary behind the first. */
  lemma PutSecond(e1: Entry, e2: Entry)
    requires e1.key != e2.key
    ensures Put([e1], e2) == [e1, e2]
  {
    assert !HasKey([e1], e2.key);
    PutFresh([e1], e2);
    assert [e1] + [e2] == [e1, e2];
  }

  /** A third key joins a two-entry dictionary at the end. */
  lemma PutThird(e1: Entry, e2: Entry, e3: Entry)
    requires e1.key != e2.key && e3.key != e1.key && e3.key != e2.key
    ensures Put([e1, e2], e3) == [e1, e2, e3]
  {
    assert !HasKey([e1, e2], e3.key);
    PutFresh([e1, e2], e3);
    assert [e1, e2] + [e3] == [e1, e2, e3];
  }

  /** Two rows with different keys give two entries in file order. */
  lemma TwoRows(r1: Row, r2: Row, axis: Axis)
    requires r1.Numeric? && r2.Numeric? && Project(r1, axis).key != Project(r2, axis).key
    ensures Build([r1, r2], axis) == [Project(r1, axis), Project(r2, axis)]
  {
    OneRow(r1, axis);
    BuildSnoc([r1], r2, axis);
    assert [r1] + [r2] == [r1, r2];
    PutSecond(Project(r1, axis), Project(r2, axis));
  }

  /** The sample file reads as its two bars, in file order. */
  lemma SampleRead(axis: Axis)
    ensures Collect(DataRows(SampleRows()), axis)
            == Some([Project(Numeric(0.00005, 100.0), axis),
                     Project(Numeric(0.0001, 150.0), axis)])
  {
    var r1, r2 := Numeric(0.00005, 100.0), Numeric(0.0001, 150.0);
    assert DataRows(SampleRows()) == [r1, r2];
    TwoRows(r1, r2, axis);
  }

  /** The sample file answers as interpolation over its two bars. */
  lemma SampleLookup(q: real, axis: Axis)
    ensures Lookup(SampleFiles(), q, 0, 0, axis)
            == Interpolate([Project(Numeric(0.00005, 100.0), axis),
                            Project(Numeric(0.0001, 150.0), axis)], q)
  {
    assert FileName(0, 0) in SampleFiles();
    assert SampleFiles()[FileName(0, 0)] == SampleRows();
    SampleRead(axis);
  }

  /** With two entries, a query from the first value up to (not including)
      the second interpolates between them. */
  lemma BetweenTwo(e1: Entry, e2: Entry, q: real)
    requires e1.val <= q < e2.val
    ensures Interpolate([e1, e2], q) == Value(Lerp(e1, e2, q))
  {
    var d := [e1, e2];
    assert SomeAtMost(d, q) by { assert d[0].val <= q; }
    assert SomeAbove(d, q) by { assert q < d[1].val; }
    assert PrevIndex(d, q) == 0;
    assert NextIndex(d, q) == 1;
  }

  /** With two entries, a query no smaller than both values is above range. */
  lemma AboveTwo(e1: Entry, e2: Entry, q: real)
    requires e1.val <= q && e2.val <= q
    ensures Interpolate([e1, e2], q) == AboveRange
  {
    var d := [e1, e2];
    assert forall i :: 0 <= i < |d| ==> d[i].val <= q;
    AboveRangeExactly(d, q);
  }

  /** calculateAmp halfway between the two tested areas gives the midpoint
      ampacity. */
  lemma MidpointAmpacity()
    ensures Lookup(SampleFiles(), 0.000075, 0, 0, ByArea) == Value(125.0)
  {
    SampleLookup(0.000075, ByArea);
    BetweenTwo(Tested(100.0, 0.00005), Tested(150.0, 0.0001), 0.000075);
    MidpointLerp();
  }

  /** Halfway in area is halfway in ampacity. */
  lemma MidpointLerp()
    ensures Lerp(Tested(100.0, 0.00005), Tested(150.0, 0.0001), 0.000075) == 125.0
  {
    var part1 := (150.0 - 100.0) / (0.0001 - 0.00005);
    assert part1 == 1000000.0;
  }

  /** calculateArea below the lowest tested ampacity is below range (-2). */
  lemma BelowLowestAmpacity()
    ensures Lookup(SampleFiles(), 50.0, 0, 0, ByAmpacity) == BelowRange
  {
    SampleLookup(50.0, ByAmpacity);
    BelowRangeExactly([Tested(0.00005, 100.0), Tested(0.0001, 150.0)], 50.0);
  }

  /** calculateArea at the lowest tested ampacity returns that bar's area. */
  lemma LowestAmpacityIsExact()
    ensures Lookup(SampleFiles(), 100.0, 0, 0, ByAmpacity) == Value(0.00005)
  {
    SampleLookup(100.0, ByAmpacity);
    BetweenTwo(Tested(0.00005, 100.0), Tested(0.0001, 150.0), 100.0);
  }

  /** calculateArea at the highest tested ampacity is above range (-1). */
  lemma HighestAmpacityIsAbove()
    ensures Lookup(SampleFiles(), 150.0, 0, 0, ByAmpacity) == AboveRange
  {
    SampleLookup(150.0, ByAmpacity);
    AboveTwo(Tested(0.00005, 100.0), Tested(0.0001, 150.0), 150.0);
  }

  /** Another geometry's file is not there (-3). */
  lemma OtherGeometryNotFound(q: real, axis: Axis)
    ensures Lookup(SampleFiles(), q, 1, 0, axis) == NotFound
  {
    if FileName(0, 1) == FileName(0, 0) {
      FileNameInjective(0, 1, 0, 0);
    }
  }

  /** A key written again after another key keeps its first position. */
  lemma PutReplacesFirst(e1: Entry, e2: Entry, e3: Entry)
    requires e1.key != e2.key && e3.key == e1.key
    ensures Put([e1, e2], e3) == [e3, e2]
  {
    assert HasKey([e1, e2], e3.key) by { assert [e1, e2][0].key == e3.key; }
  }

  /** Three rows whose first and third share their key: the third row's item
      takes the first row's place, in front of the second row's. */
  lemma ThreeRowsOverwriteInPlace(r1: Row, r2: Row, r3: Row, axis: Axis)
    requires r1.Numeric? && r2.Numeric? && r3.Numeric?
    requires Project(r1, axis).key != Project(r2, axis).key
    requires Project(r3, axis).key == Project(r1, axis).key
    ensures Build([r1, r2, r3], axis) == [Project(r3, axis), Project(r2, axis)]
  {
    TwoRows(r1, r2, axis);
    BuildSnoc([r1, r2], r3, axis);
    assert [r1, r2] + [r3] == [r1, r2, r3];
    PutReplacesFirst(Project(r1, axis), Project(r2, axis), Project(r3, axis));
  }

  /** Three rows with three different keys give three entries in file order. */
  lemma ThreeRowsDistinct(r1: Row, r2: Row, r3: Row, axis: Axis)
    requires r1.Numeric? && r2.Numeric? && r3.Numeric?
    requires Project(r1, axis).key != Project(r2, axis).key
    requires Project(r3, axis).key != Project(r1, axis).key
    requires Project(r3, axis).key != Project(r2, axis).key
    ensures Build([r1, r2, r3], axis) == [Project(r1, axis), Project(r2, axis), Project(r3, axis)]
  {
    TwoRows(r1, r2, axis);
    BuildSnoc([r1, r2], r3, axis);
    assert [r1, r2] + [r3] == [r1, r2, r3];
    PutThird(Project(r1, axis), Project(r2, axis), Project(r3, axis));
  }

  /** Reading the header and three data rows. */
  lemma FourLines(r1: Row, r2: Row, r3: Row, axis: Axis)
    requires r1.Numeric? && r2.Numeric? && r3.Numeric?
    ensures Collect(DataRows([Malformed, r1, r2, r3]), axis) == Some(Build([r1, r2, r3], axis))
  {
    assert DataRows([Malformed, r1, r2, r3]) == [r1, r2, r3];
  }

  /** Two bars with the same area but different ampacities, another bar
      between them: keyed by area (calculateArea) the later row overwrites the
      earlier one in its place, keyed by ampacity (calculateAmp) all three
      stay. */
  lemma CollapseDependsOnAxis()
    ensures var rows := [Malformed, Numeric(1.0, 100.0), Numeric(2.0, 200.0), Numeric(1.0, 300.0)];
            && Collect(DataRows(rows), ByAmpacity)
               == Some([Tested(1.0, 300.0), Tested(2.0, 200.0)])
            && Collect(DataRows(rows), ByArea)
               == Some([Tested(100.0, 1.0), Tested(200.0, 2.0), Tested(300.0, 1.0)])
  {
    var r1, r2, r3 := Numeric(1.0, 100.0), Numeric(2.0, 200.0), Numeric(1.0, 300.0);
    FourLines(r1, r2, r3, ByAmpacity);
    FourLines(r1, r2, r3, ByArea);
    ThreeRowsOverwriteInPlace(r1, r2, r3, ByAmpacity);
    ThreeRowsDistinct(r1, r2, r3, ByArea);
  }
}
