# Busbar sizing: interpolation engine and unit table

This project models the calculation core of the Hyster-Yale busbar sizing
program, `hysterYaleEquations.py`:

- `calculateArea(inputAmp, bends, folds)` reads the dataset file of one busbar
  geometry, `busbar-data-{folds}folds-{bends}bends.csv`. It builds a
  dictionary keyed by cross-sectional area with ampacity as the value. It
  appends the query as the `'unknown'` item, stable-sorts the items by value,
  finds the sentinel, and linearly interpolates an area between the sentinel's
  two neighbours.
- `calculateAmp(inputArea, bends, folds)` is the same procedure with the two
  columns swapped.
- Both return -1 above the tested range, -2 below it, -3 when the file is
  missing and -99 for any other failure.
- `convertUnits(inputUnits, inputValue, outputUnits)` is the table of length
  and area conversions, with the source's literal factors.

Modules:

- `Wrappers` (wrappers.dfy): `Option`.
- `Dataset` (dataset.dfy):
  - CSV rows after `float()`;
  - the dictionary the reading loop builds, with Python's insertion-ordered
    dict assignment;
  - the file name of a geometry.
- `Sorting` (sorting.dfy): Python's stable `sorted` by value, as an insertion
  sort, with its permutation and stability properties.
- `Interpolation` (interpolation.dfy): the direct characterisation of the
  answer, with no sentinel and no sort.
  - `previousVal` is the entry with the largest value at most the query;
    among equal values it is the last in dictionary order.
  - `nextVal` is the entry with the smallest value above the query; among
    equal values it is the first.
  - Also holds the outcome datatype and the legacy codes.
- `Search` (search.dfy): proves that the sentinel insert, sort and
  `index("unknown")` find exactly the entries the direct characterisation
  chooses.
- `Calculator` (calculator.dfy): the source's imperative procedure.
  - The row-counting loop fills the dictionary.
  - The sort-and-search step has early returns.
  - Each step is proved to compute the direct characterisation.
- `Units` (units.dfy): `convertUnits` as written, and a corrected version.
- `Samples` (samples.dfy): worked queries on a two-row dataset, and a file
  whose duplicate keys collapse differently depending on the key column.

Boundary queries:

- The sentinel is appended after the data rows and the sort is stable, so a
  query equal to a tested value sorts after that entry.
- When some tested value is higher, a query equal to the lowest tested value
  is therefore an exact hit, not -2. It returns the key of the last entry,
  in dictionary order, with that value (`Interpolation.LowestTestedValueIsExactHit`,
  `Samples.LowestAmpacityIsExact`).
- When every tested value is the same, as in a file with one bar, such a
  query has no entry after the sentinel and gives -1.
- A query equal to the highest tested value has no entry after the sentinel
  and gives -1 (`Interpolation.HighestTestedValueIsAbove`).

## Model

| member | source | states |
|---|---|---|
| Dataset.Project | hysterYaleEquations.py:40 | the item a row contributes: keyed by area for calculateArea and by ampacity for calculateAmp (line 105); `ProjectSwapsColumns` relates the two |
| Dataset.ProjectSwapsColumns | hysterYaleEquations.py:40 | calculateAmp's dictionary item for a row (line 105) is calculateArea's (line 40) with key and value exchanged |
| Dataset.KeyIndex | hysterYaleEquations.py:40 | the position of a key in the dictionary is an index holding that key, and -1 exactly when the key is absent |
| Dataset.Put | hysterYaleEquations.py:40 | dictionary assignment: a new key is appended; an existing key keeps its position and takes the new value; nothing else changes; keys stay unique |
| Dataset.PutMembers | hysterYaleEquations.py:40 | after the assignment the dictionary holds the new item and exactly the earlier items with other keys |
| Dataset.DataRows | hysterYaleEquations.py:39 | the rows after the first; `HeaderIgnored` and `Calculator.ReadDictionary`'s ensures fix it |
| Dataset.HeaderIgnored | hysterYaleEquations.py:38-41 | the first row's contents never matter, even a row `float()` would reject: the file reads the same whatever its header holds |
| Dataset.Build | hysterYaleEquations.py:38-41 | the dictionary of the data rows has unique keys and at most one item per row |
| Dataset.Collect | hysterYaleEquations.py:38-41 | a dictionary is produced exactly when every data row parses |
| Dataset.BuildSnoc | hysterYaleEquations.py:38-41 | reading one more row assigns its item into the dictionary built so far |
| Dataset.DataRowsSnoc | hysterYaleEquations.py:38-41 | each row after the header that the loop reads adds one data row |
| Dataset.FinalRowKept | hysterYaleEquations.py:38-41 | the item of a row that no later row overwrites is in the dictionary |
| Dataset.KeptRowIsFinal | hysterYaleEquations.py:38-41 | every dictionary item comes from a row that no later row overwrites |
| Dataset.CollectKeepsFinalRows | hysterYaleEquations.py:38-41 | later duplicate keys overwrite earlier ones: the dictionary holds exactly the items of the rows that are the last to write their key |
| Dataset.NatToDecimal | hysterYaleEquations.py:30 | a non-negative number formats as a non-empty string of decimal digits |
| Dataset.IntToDecimal | hysterYaleEquations.py:30 | a formatted integer contains no `f`, no `b` and no minus sign after its first character |
| Dataset.DecimalRoundTrip | hysterYaleEquations.py:30 | reading back the digits of a formatted natural number gives the number |
| Dataset.IntRoundTrip | hysterYaleEquations.py:30 | reading back a formatted integer gives the integer |
| Dataset.FileName | hysterYaleEquations.py:30 | the file name of a geometry; `FileNameInjective` proves that no two geometries share one |
| Dataset.FileNameInjective | hysterYaleEquations.py:30 | different (folds, bends) pairs name different dataset files |
| Sorting.SortedIsOrdered | hysterYaleEquations.py:47 | in the sorted items every earlier value is at most every later value |
| Sorting.Insert | hysterYaleEquations.py:47 | inserting an item lengthens the sequence by one |
| Sorting.InsertSorted | hysterYaleEquations.py:47 | insertion keeps a sequence sorted by value |
| Sorting.SortByValue | hysterYaleEquations.py:47 | the sort keeps the number of items and sorts them by value |
| Sorting.InsertPermutes | hysterYaleEquations.py:47 | insertion adds exactly the inserted item to the multiset of items |
| Sorting.SortPermutes | hysterYaleEquations.py:47 | the sort is a permutation of the dictionary items |
| Sorting.SortMembers | hysterYaleEquations.py:47 | an item is in the sorted list exactly when it is among the dictionary items |
| Sorting.WithValueAppend | hysterYaleEquations.py:47 | the items with one value in a concatenation are those of each part in order |
| Sorting.InsertKeepsTies | hysterYaleEquations.py:47 | insertion places the new item after every item of equal value |
| Sorting.SortIsStable | hysterYaleEquations.py:47 | the sort is stable: items of equal value keep their dictionary order |
| Sorting.InsertPast | hysterYaleEquations.py:47 | items whose value does not exceed the inserted item's stay before it |
| Sorting.InsertBefore | hysterYaleEquations.py:47 | items whose value exceeds the inserted item's stay after it |
| Sorting.SortSnoc | hysterYaleEquations.py:44-47 | sorting the dictionary with the appended sentinel is inserting the sentinel into the sorted entries |
| Sorting.InsertKeepsLast | hysterYaleEquations.py:47 | inserting an item smaller than the last item keeps that last item at the end |
| Sorting.InsertLargest | hysterYaleEquations.py:47 | an item at least as large as every sorted item is appended |
| Sorting.InsertBetween | hysterYaleEquations.py:44-47 | an item at least every value of the first part and below every value of the second lands between them |
| Interpolation.LegacyCode | hysterYaleEquations.py:7-16 | a value is returned as itself; every failure becomes a code of -1 or below |
| Interpolation.LegacyCodesDistinct | hysterYaleEquations.py:7-16 | the four failure codes -1, -2, -3 and -99 tell the failures apart |
| Interpolation.AtMost | hysterYaleEquations.py:47-51 | the entries that sort before the sentinel all have values at most the query; there are none exactly when no tested value is at most the query |
| Interpolation.Above | hysterYaleEquations.py:47-51 | the entries that sort after the sentinel all have values above the query; there are none exactly when no tested value exceeds it |
| Interpolation.PrevIndex | hysterYaleEquations.py:58 | `previousVal` has the largest value at most the query and is the last entry carrying that value |
| Interpolation.NextIndex | hysterYaleEquations.py:59 | `nextVal` has the smallest value above the query and is the first entry carrying that value |
| Interpolation.Lerp | hysterYaleEquations.py:77-78 | the interpolation returns the previous key when the query equals the previous value |
| Interpolation.LerpFormula | hysterYaleEquations.py:76-79 | the two-step computation is the textbook linear interpolation formula |
| Interpolation.LerpBetween | hysterYaleEquations.py:76-79 | between two bracketing entries the interpolated value lies between their keys |
| Interpolation.Interpolate | hysterYaleEquations.py:44-79 | the search never reports a missing file |
| Interpolation.OtherExactly | hysterYaleEquations.py:67-69 | with no data rows, `dictList[location+1]` fails and the catch-all answers; this is the only dataset that does so |
| Interpolation.BelowRangeExactly | hysterYaleEquations.py:67-72 | -2 exactly when the dataset is non-empty and the query is below every tested value |
| Interpolation.AboveRangeExactly | hysterYaleEquations.py:56-65 | -1 exactly when the dataset is non-empty and the query is at least every tested value |
| Interpolation.ValueExactly | hysterYaleEquations.py:76-79 | a value is produced exactly when some tested value is at most the query and some exceeds it |
| Interpolation.ValueBrackets | hysterYaleEquations.py:56-79 | the two neighbours bracket the query with no tested value strictly between them, so the divisor is positive |
| Interpolation.InterpolatedBetween | hysterYaleEquations.py:76-79 | an interpolated answer lies between the keys of its two neighbours |
| Interpolation.PositiveDataPositiveValue | hysterYaleEquations.py:7-16 | with positive data an interpolated answer is positive, so it is never mistaken for a failure code |
| Interpolation.ExactHit | hysterYaleEquations.py:44-79 | a query equal to a tested value below the maximum returns the key of the last entry, in dictionary order, with that value |
| Interpolation.LowestTestedValueIsExactHit | hysterYaleEquations.py:44-72 | when some tested value is higher, a query equal to the lowest tested value is an exact hit, not -2: it returns the key of the last entry, in dictionary order, with that value |
| Interpolation.HighestTestedValueIsAbove | hysterYaleEquations.py:56-65 | a query equal to the highest tested value is -1 |
| Search.IndexOfUnknown | hysterYaleEquations.py:51 | `index("unknown")` finds a sentinel with only tested items before it |
| Search.FirstUnknown | hysterYaleEquations.py:51 | a sentinel preceded only by tested items is the one `index` finds |
| Search.SortedAtMostBounded | hysterYaleEquations.py:47 | the sorted entries at most the query are tested entries with values at most the query |
| Search.SortedAboveBounded | hysterYaleEquations.py:47 | the sorted entries above the query are tested entries with values above it |
| Search.LastOfSortedAtMost | hysterYaleEquations.py:47-58 | the last of the sorted entries at most the query is the entry `PrevIndex` chooses |
| Search.FirstOfSortedAbove | hysterYaleEquations.py:47-59 | the first of the sorted entries above the query is the entry `NextIndex` chooses |
| Search.SortSplits | hysterYaleEquations.py:47 | sorting the dataset sorts its entries at most the query, then those above it |
| Search.QuerySortsBetween | hysterYaleEquations.py:44-47 | the appended sentinel sorts after every entry at most the query and before every entry above it |
| Search.SentinelPosition | hysterYaleEquations.py:44-51 | the sentinel is found at the number of entries at most the query |
| Search.SentinelSearch | hysterYaleEquations.py:44-79 | where the sentinel lands decides the outcome; its neighbours are `previousVal` and `nextVal` of the direct characterisation |
| Calculator.Lookup | hysterYaleEquations.py:27-84 | the answer stated without the reading loop, the sentinel or the sort; `NotFoundExactly` and `OtherExactly` fix its failure cases, the `Interpolation` lemmas its values, and `Calculate` is proved to compute it |
| Calculator.NotFoundExactly | hysterYaleEquations.py:30-32 | -3 exactly when the geometry's file does not exist |
| Calculator.OtherExactly | hysterYaleEquations.py:80-84 | -99 exactly when the file exists but a data row does not parse or there are no data rows |
| Calculator.MalformedRowFails | hysterYaleEquations.py:40 | a data row that `float()` rejects makes the whole file fail |
| Calculator.ReadRow | hysterYaleEquations.py:38-41 | one loop iteration on a data row assigns its item into the dictionary read so far |
| Calculator.ReadDictionary | hysterYaleEquations.py:34-41 | the row-counting loop skips the header row (`rowCount > 0`) and builds exactly the dictionary of the remaining rows, or fails on a malformed row |
| Calculator.LerpSteps | hysterYaleEquations.py:77-78 | the source's `part1` and result lines compute the interpolation |
| Calculator.SearchAndInterpolate | hysterYaleEquations.py:44-79 | the sentinel insert, sort, index search and early returns answer what the direct characterisation says |
| Calculator.Calculate | hysterYaleEquations.py:27-84 | the whole procedure answers what `Lookup` says: missing file, unreadable file, or interpolation of the dictionary |
| Calculator.CalculateArea | hysterYaleEquations.py:27-84 | calculateArea returns the legacy code of the lookup keyed by area and compared by ampacity |
| Calculator.CalculateAmp | hysterYaleEquations.py:92-150 | calculateAmp returns the legacy code of the lookup keyed by ampacity and compared by area |
| Units.ParseUnit | hysterYaleEquations.py:159-245 | a recognised unit string is that unit's symbol |
| Units.ParseSymbol | hysterYaleEquations.py:159-245 | every unit is recognised by its own symbol, so the eight symbols are distinct |
| Units.ConvertUnits | hysterYaleEquations.py:156-247 | converting a unit to itself returns the value, for all eight units (lines 161, 174, 187, 200, 206, 219, 232, 245) |
| Units.ConvertScales | hysterYaleEquations.py:156-247 | every same-family conversion multiplies by a fixed positive factor |
| Units.ConvertLinear | hysterYaleEquations.py:156-247 | conversion is linear in the value |
| Units.ConvertMonotonic | hysterYaleEquations.py:156-247 | conversion keeps order, equality and zero, so it keeps signs |
| Units.RoundTrip | hysterYaleEquations.py:156-247 | converting there and back returns the value for every same-family pair except square metres and square centimetres |
| Units.SquareMetreRoundTripShrinks | hysterYaleEquations.py:221 | between square metres and square centimetres (lines 221 and 230) both directions divide, so the round trip divides by 10^8 |
| Units.SquareMetreToCentimetreAsWritten | hysterYaleEquations.py:230 | one square metre comes out as 0.0001 cm², and the round trip does not return 1 m² |
| Units.ConvertUnitsCorrected | hysterYaleEquations.py:230 | the corrected table differs from the source only for square metres to square centimetres |
| Units.CorrectedRoundTrip | hysterYaleEquations.py:156-247 | with the correction every same-family round trip returns the value |
| Units.CorrectedSquareCentimetresConsistent | hysterYaleEquations.py:228-230 | corrected, m² to cm² directly equals going through mm²; as written the two differ for every non-zero value |
| Units.LengthTableTransitive | hysterYaleEquations.py:159-200 | the length factors agree: converting through any third length unit equals converting directly |
| Units.InchAreaFactorsDisagree | hysterYaleEquations.py:212 | the factors 645.16 mm²/in² and 1550 in²/m² disagree: mm² to m² through in² differs from direct for every non-zero value |
| Units.InchIsLegacyFactor | hysterYaleEquations.py:194 | the inch is 1/0.039370 mm, not exactly 25.4 mm; the area table uses 6.4516 cm²/in² |
| Samples.SampleRead | hysterYaleEquations.py:38-41 | a file with a header and two bar rows reads as two entries in file order |
| Samples.SampleLookup | hysterYaleEquations.py:27-84 | the sample file answers as interpolation over its two bars |
| Samples.MidpointAmpacity | hysterYaleEquations.py:92-150 | calculateAmp at 7.5e-5 m², halfway between 5e-5 and 1e-4, gives 125 A |
| Samples.BelowLowestAmpacity | hysterYaleEquations.py:67-72 | calculateArea at 50 A, below the lowest tested 100 A, gives -2 |
| Samples.LowestAmpacityIsExact | hysterYaleEquations.py:44-79 | calculateArea at exactly 100 A gives that bar's area, 5e-5 m² |
| Samples.HighestAmpacityIsAbove | hysterYaleEquations.py:56-65 | calculateArea at exactly 150 A, the highest tested, gives -1 |
| Samples.OtherGeometryNotFound | hysterYaleEquations.py:80-81 | a geometry with no file gives -3 |
| Samples.ThreeRowsOverwriteInPlace | hysterYaleEquations.py:38-41 | with keys written in the order k1, k2, k1, the third row's item takes the first row's place, in front of the second row's |
| Samples.ThreeRowsDistinct | hysterYaleEquations.py:38-41 | three distinct keys give three items in file order |
| Samples.CollapseDependsOnAxis | hysterYaleEquations.py:103-106 | two bars of equal area and different ampacity, with a third bar between them, collapse into one item in the first bar's place when keyed by area (line 40), but all stay when keyed by ampacity (line 105) |

## Left out

- hysterYaleBusbarSizing.py is not part of this model. It is the window and widget setup, plus `outputArea`/`outputAmp`, which parse text fields, call the three functions and map the codes to messages.
- Opening the file and `csv.reader` tokenising are not modelled. The file system is a map from file names to rows (`Calculator.Files`). A line that `float()` rejects, or that has fewer than two fields, is `Row.Malformed`.
- IEEE-754 rounding, NaN and infinities are not modelled, and neither is output formatting. Numbers are Dafny `real`.
- `print(e)` in the catch-all (lines 83 and 149) is not modelled. Python exceptions are modelled only through the code each path returns.
- The query is a `real`. The source's `float(inputAmp)` on a non-numeric query, which would raise and give -99, is not modelled.
- Units.ConvertUnits: a unit string outside the eight, or units from different families, leaves `outputValue` unset and raises at line 247. The model excludes this by its precondition (`SameFamily` on the `Unit` datatype); `ParseUnit` returns `None` for unknown strings.
- `calculateArea` and `calculateAmp` are two copies of one procedure with the columns swapped. They are modelled once, with the key column as an `Axis` parameter.
- The source does everything inside one function. The model splits it into `ReadDictionary` (the reading loop) and `SearchAndInterpolate` (sentinel, sort and search), with `Calculate` calling both in the source's order.
- Sorting.SortByValue: `sorted` is modelled by a stable insertion sort on values. Its result is the one `sorted` gives with a key function, but it is not Timsort's algorithm.
- The sentinel's string key `'unknown'` is a separate constructor of `DictItem`. The real keys and the string key can therefore never be confused; Python does not guarantee this, but `float(row[0])` can never produce the string.

## Findings

| source | as written | input that shows it | evidently intended | confidence | as-written member | corrected member |
|---|---|---|---|---|---|---|
| hysterYaleEquations.py:230 | square metres to square centimetres divides by 10000 | convertUnits("m²", 1, "cm²") gives 0.0001 instead of 10000; the round trip cm² back to m² gives 1e-8 | multiply by 10000, like the other entries of the square-metre row | not executed | Units.SquareMetreToCentimetreAsWritten | Units.CorrectedRoundTrip |
