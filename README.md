# bubble_plot in Dafny

A model of the core of `bubble_plot.py`, a tool that turns bibliographic
records (rows of field name to string value) into LaTeX bubble plots with a
split x axis: one facet to the left of the y axis, another to the right, a
third on the y axis.

The model covers the whole pipeline of one plot plan:

- **Counting** (`BubbleIndex`, `Aggregation`). `Occurrence`, `SplitXAxis`
  and `BubblePlot` are classes whose methods update their fields in place,
  as the Python objects do. A `SplitXAxis` keeps its dictionary from bubble
  to counter and the insertion order of that dictionary. `compute_occurences_from`
  is a loop proved against a declarative account (`Aggregate`): a missing
  field stops the run with the error of the first record that lacks one;
  otherwise each side holds the distinct bubbles in order of first sighting,
  each with the number of records behind it and their least year.
- **CSV rows** (`CsvOutput`, `CsvRows`). Years get colour-map scores
  `i * (1000 // (N - 1))`, with a division by zero for a single year. Tick
  labels get positions: sorted left labels run from `-(n + left offset)` to
  `-(1 + left offset)`, right labels from the right offset upwards, y labels
  from 0. Each bubble becomes one row. Rows are sorted by x position with a
  stable sort. `zip_longest` lays the four numeric columns beside the two
  label columns.
- **LaTeX values** (`LatexOutput`). The model covers the colour chosen for
  each year, the x range read back from the CSV file and the file name. The
  colour type is a type parameter.
- **Driver** (`Pipeline`). One iteration of `build_and_save_plots`: count
  the records, write the CSV file, then compute the LaTeX template values
  from the x positions of that file. With no records the LaTeX step fails,
  as `min` of no x positions raises `ValueError`; with fewer than two
  configured field names it fails earlier, and with fewer than six later,
  each time with an `IndexError`.
- **Unit-test values** (`Fixtures`). The expected values of the CSV writer's
  tests are derived from the model.

Python's `str` order is modelled as lexicographic order on code points
(`StringOrder`), and `sorted(set)` as the unique increasing listing of the
set. Raised exceptions become `Failure` values of a `Result`: a `KeyError`
for an unknown facet, a missing field, a `ZeroDivisionError`, a
`ValueError` from `min` on an empty sequence, and an `IndexError` from
reading `field_names` past its end.

Facts about the code that the model keeps:

- A single year raises `ZeroDivisionError` at `bubble_plot.py:289`; the
  code has no guard.
- The plot identifier joins the facet names with `_` (`bubble_plot.py:231`).
- The comment at `bubble_plot.py:324` speaks of the left offset, but the
  right positions use the right offset.

## Model

| member | source | states |
|---|---|---|
| StringOrder.Min | bubble_plot.py:99 | `min` of two strings returns one of them, and it is less than or equal to both |
| StringOrder.SortedSet | bubble_plot.py:311-313 | `sorted(set)` lists exactly the elements of the set, each once, in strictly increasing order |
| StringOrder.IncreasingUnique | bubble_plot.py:311-313 | two strictly increasing sequences with the same elements are equal, so the sorted listing of a set is unique |
| BubbleIndex.Tally.Bumped | bubble_plot.py:89-99 | one more occurrence, and the stored year becomes the lesser of the old year and the new one |
| BubbleIndex.Occurrence.constructor | bubble_plot.py:79-87 | a new counter holds one occurrence and the year of its first record |
| BubbleIndex.Occurrence.Update | bubble_plot.py:89-99 | the count grows by one; the stored year is never above the old one or the new one, and it is one of the two |
| BubbleIndex.SideData.Record | bubble_plot.py:170-174 | counting a bubble keeps the side's facet; what it does to the order and the tallies is stated by `RecordSpec` |
| BubbleIndex.SideData.RecordSpec | bubble_plot.py:170-174 | a new bubble is appended to the insertion order with a fresh tally (1, year); a known bubble is bumped and keeps its place; every other bubble is unchanged; well-formedness is kept |
| BubbleIndex.Lookup | bubble_plot.py:157-168 | the side's own facet is looked up first, then the y facet; the first one missing is the error, with its axis; otherwise the bubble holds the two labels |
| BubbleIndex.SplitXAxis.constructor | bubble_plot.py:215-218 | a side starts with no bubbles |
| BubbleIndex.SplitXAxis.Update | bubble_plot.py:144-174 | on a missing facet the side is unchanged and the error is returned; otherwise the side's contents become those of `RecordSpec`, and distinct bubbles keep distinct counters; a well-formed side (insertion order listing exactly the keys, once each, and every count at least 1) stays well formed |
| BubbleIndex.PlotData.Update | bubble_plot.py:237-251 | counting a record never renames the plot's facets |
| BubbleIndex.PlotData.UpdateSpec | bubble_plot.py:237-251 | the update passes iff the record has both x facets and the y facet; a missing left facet (or y) changes nothing; a missing right facet leaves the left side counted; well-formedness is kept |
| BubbleIndex.PlotName | bubble_plot.py:221-232 | the identifier is the left facet, `_`, the y facet, `_`, the right facet |
| BubbleIndex.NameDeterminesFacets | bubble_plot.py:221-232 | when the left and y facet names contain no `_`, the identifier determines all three facets |
| BubbleIndex.BubblePlot.constructor | bubble_plot.py:207-219 | a new plot has the plan's three facets and two empty sides |
| BubbleIndex.BubblePlot.Update | bubble_plot.py:237-251 | the object's new contents and outcome are exactly those of `PlotData.Update` on its old contents; the two sides never share a counter; well-formed contents stay well formed |
| Aggregation.EntryError | bubble_plot.py:613-615 | a record raises nothing iff it has the year field and all three facets |
| Aggregation.FirstError | bubble_plot.py:613-616 | no record raises iff every record is complete |
| Aggregation.FirstErrorStep | bubble_plot.py:613-616 | the first error of a longer run is the earlier first error, if there is one, otherwise the new record's error |
| Aggregation.SeenIffSighted | bubble_plot.py:170-174 | the first-sighting order lists each bubble once, and exactly those bubbles that some record produced |
| Aggregation.EarliestIsLeast | bubble_plot.py:99 | repeated `min` over a bubble's years is one of them and the least of them |
| Aggregation.ExpectedStep | bubble_plot.py:170-174 | one more record changes the declarative side exactly as `SideData.Record` does |
| Aggregation.ExpectedValid | bubble_plot.py:170-174 | the declarative side is well formed, and every tally's year is the year of some record |
| Aggregation.ExpectedPlotStep | bubble_plot.py:237-251 | one more complete record changes the declarative plot exactly as `BubblePlot.update` does |
| Aggregation.YearSetStep | bubble_plot.py:616 | one more record adds exactly its year to the set of years |
| Aggregation.UpdateOutcome | bubble_plot.py:613-615 | on a record with a year, the plot update passes iff the record is complete, and otherwise fails with that record's own error |
| Aggregation.RunStops | bubble_plot.py:613-616 | once a record raises, later records change nothing |
| Aggregation.AggregateStep | bubble_plot.py:611-617 | the declarative result of a longer run is the loop body applied to the result of the shorter run |
| Aggregation.Run | bubble_plot.py:611-617 | a run over the first n records succeeds only when each has the year field, and its years are exactly theirs; the plot it builds is stated by `RunIsAggregate` |
| Aggregation.RunIsAggregate | bubble_plot.py:611-617 | processing the first n records one by one gives the declarative result for that prefix |
| Aggregation.RunAllIsAggregate | bubble_plot.py:611-617 | processing all records one by one gives the declarative result |
| Aggregation.ComputeOccurrencesFrom | bubble_plot.py:590-617 | when some record is incomplete the loop returns the error of the first such record; otherwise it returns the plot the declarative account describes and the set of all years |
| Aggregation.AggregateEmpty | bubble_plot.py:611-617 | after a successful aggregation, each side has no bubble iff there were no records |
| Aggregation.YearsOfCounts | bubble_plot.py:170-174 | a bubble's list of years has one entry per sighting of it, and holds exactly the years of those sightings |
| Aggregation.SideCounts | bubble_plot.py:170-174 | a side counted from complete records holds exactly the bubbles some record produces, each with the number of those records and the least of their years |
| Aggregation.AggregateCounts | bubble_plot.py:590-617 | a successful aggregation gives both sides exactly those counts: a bubble's occurrence is the number of records producing it, and its year is the least of their years |
| Aggregation.AggregateReady | bubble_plot.py:611-617 | a successful aggregation yields a well-formed plot whose every stored year is among the returned years |
| CsvRows.MissingKey | bubble_plot.py:378-382 | the `KeyError` of a row names one of its three keys: the y label if it has no position, else the x label if it has none, else the year |
| CsvRows.RowsOf | bubble_plot.py:377-386 | one row per bubble, in the side's insertion order, iff every bubble can be placed; otherwise the error is the `KeyError` of the first bubble, in insertion order, that cannot be placed |
| CsvRows.RowsOfYears | bubble_plot.py:378-382 | when every label has a position, rows fail iff some stored year has no score, and the error names a year that has none |
| CsvRows.Insert | bubble_plot.py:450 | inserting a row keeps the multiset of rows and adds the new one |
| CsvRows.InsertSorted | bubble_plot.py:450 | inserting into rows sorted by x keeps them sorted |
| CsvRows.SortByX | bubble_plot.py:450 | the result is sorted by x position and is a permutation of the input |
| CsvRows.InsertWithX | bubble_plot.py:450 | among the rows with its x position, the inserted row comes first and the others keep their order |
| CsvRows.SortByXStable | bubble_plot.py:450 | for every x position, the rows with that position keep their input order (the sort is stable) |
| CsvRows.SortedUnique | bubble_plot.py:450 | a sorted sequence with the same per-position rows as the input is the result of the sort, so `SortByX` is Python's stable sort |
| CsvRows.Longest | bubble_plot.py:424-431 | no column is longer than it, and it is the length of some column (0 when there are none) |
| CsvRows.ZipLongest | bubble_plot.py:424-431 | as many lines as the longest column; cell j of line i is column j's entry i, or empty past its end |
| CsvRows.LinesShape | bubble_plot.py:408-431 | when no label list is longer than the rows, there is one unpadded line per row with its four numbers, and lines sorted by x give a sorted x column |
| CsvOutput.ScoreStep | bubble_plot.py:289 | `1000 // (N - 1)` fails with a division by zero iff N is 1; for N of at least 2 it is the largest step whose N - 1 multiples stay within 1000 |
| CsvOutput.ScoreProperties | bubble_plot.py:284-293 | scores start at 0, stay in [0, 1000], never decrease with rank, and strictly increase when there are at most 1001 years |
| CsvOutput.ScoresCollapse | bubble_plot.py:289 | with more than 1001 years every score is 0 |
| CsvOutput.LoopScores | bubble_plot.py:288-294 | the dictionary the accumulator loop builds gives each year its rank times the step |
| CsvOutput.LabelsXBound | bubble_plot.py:311-313 | a side has no more x labels than bubbles |
| CsvOutput.LabelsYBound | bubble_plot.py:330-336 | there are no more y labels than bubbles |
| CsvOutput.Enumerate | bubble_plot.py:316-319 | the mapping has exactly the enumerated labels as keys |
| CsvOutput.EnumerateAt | bubble_plot.py:316-338 | for strictly increasing labels, the label at index i maps to the base plus i |
| CsvOutput.EnumerateOrdered | bubble_plot.py:316-338 | positions of sorted labels lie in [base, base + n) and follow the label order in both directions |
| CsvOutput.CsvWriter.YearScores | bubble_plot.py:272-294 | fails, with a division by zero, iff there is exactly one year; otherwise every year and nothing else gets a score (the scores themselves are stated by `YearScoresSpec`) |
| CsvOutput.CsvWriter.YearScoresSpec | bubble_plot.py:272-294 | fails with a division by zero iff there is exactly one year; otherwise every year, and nothing else, gets a score, the one of rank i getting `i * (1000 // (N - 1))` |
| CsvOutput.CsvWriter.YearScoresOrdered | bubble_plot.py:272-294 | an earlier year never gets a higher score, and it gets a strictly lower one when there are at most 1001 years |
| CsvOutput.CsvWriter.ComputeYearScoreMapping | bubble_plot.py:272-294 | the loop returns exactly the year scores stated above |
| CsvOutput.CsvWriter.ComputeLabelsIndicesMapping | bubble_plot.py:296-340 | the keys of the three dictionaries are the sorted left x labels, right x labels and y labels of both sides |
| CsvOutput.CsvWriter.LeftPositions | bubble_plot.py:311-319 | left label i of n sits at `-(n - i + left offset)`; positions lie in [-(n + offset), -(1 + offset)] and follow the label order |
| CsvOutput.CsvWriter.RightPositions | bubble_plot.py:321-328 | right label i sits at `i + right offset`; positions lie in [offset, offset + n) and follow the label order |
| CsvOutput.CsvWriter.YPositions | bubble_plot.py:330-338 | y label i sits at i; positions lie in [0, M) and follow the label order |
| CsvOutput.CsvWriter.LabelsPlaced | bubble_plot.py:296-340 | every counted bubble's x label and y label have a position |
| CsvOutput.CsvWriter.PreparedBubblesData | bubble_plot.py:342-386 | succeeds iff every bubble of both sides can be placed; then the left side's rows come first and the right side's after them, each in insertion order; otherwise the error is the `KeyError` of the first unplaceable bubble of the left side or, when every left bubble can be placed, of the right side |
| CsvOutput.CsvWriter.Write | bubble_plot.py:388-432 | the loop's four columns, zipped with the two label columns, give the file with the configured header and the zipped lines |
| CsvOutput.CsvWriter.SavePlot | bubble_plot.py:434-455 | the file written holds the rows sorted by x position, the y labels, and the left x labels followed by the right ones |
| CsvOutput.CsvWriter.Prepared | bubble_plot.py:441-449 | a single year fails with a division by zero; prepared rows number the bubbles of both sides (when it fails otherwise is stated by `PreparedOutcome`) |
| CsvOutput.CsvWriter.PreparedOutcome | bubble_plot.py:441-449 | preparing the rows fails iff there is exactly one year (a division by zero) or some bubble's year is not among the years (a `KeyError` naming a missing year) |
| CsvOutput.CsvWriter.SavedTable | bubble_plot.py:434-455 | a single year fails with a division by zero; a written file is named after the plot and has the configured header (its lines are stated by `SavedTableShape`) |
| CsvOutput.CsvWriter.SavedTableOutcome | bubble_plot.py:434-455 | writing the CSV file fails in exactly the cases where preparing the rows fails, with the same errors |
| CsvOutput.CsvWriter.SavedTableShape | bubble_plot.py:434-455 | a written file is named after the plot and has the configured header; it has one line per bubble and no padding, and its x column never decreases |
| LatexOutput.Colours | bubble_plot.py:580-584 | one colour per year |
| LatexOutput.ZipMap | bubble_plot.py:585 | the keys of the dictionary are exactly the zipped keys |
| LatexOutput.ZipMapAt | bubble_plot.py:585 | with distinct keys, each key gets the value at its own index |
| LatexOutput.MinOf | bubble_plot.py:545 | the minimum is an element, and no element is below it |
| LatexOutput.MaxOf | bubble_plot.py:546 | the maximum is an element, and no element is above it |
| LatexOutput.XRange | bubble_plot.py:545-546 | computing the x range fails iff there are no x positions, with the error of `min` on an empty sequence |
| LatexOutput.XColumn | bubble_plot.py:512-515 | one x position per CSV line, the number in its x column |
| LatexOutput.XRangeOfSortedFile | bubble_plot.py:545-546 | for a non-empty CSV file written by the model, the x range runs from the x position of its first line (`FirstX`) to that of its last line (`LastX`) |
| LatexOutput.LatexWriter.PrepareValues | bubble_plot.py:517-558 | fails iff there are no x positions (`min`'s `ValueError`, raised first) or fewer than six field names (the `IndexError` of `ShortFieldNames`); otherwise xMin and xMax are x positions bounding all of them, and the data file is the plot identifier with `.csv` |
| LatexOutput.LatexWriter.YearColours | bubble_plot.py:578-586 | every year, and nothing else, gets a colour: the i-th year gets the i-th palette colour when the palette is long enough, and the i-th generated colour otherwise |
| LatexOutput.ShortFieldNames | bubble_plot.py:548-553 | the `IndexError` names the first index read past the end: 2 (`meta`) when there are at most two field names, otherwise 5 (`xField`) |
| LatexOutput.LatexWriter.SavePlot | bubble_plot.py:578-587 | fails iff there are no x positions (`min`'s `ValueError`) or fewer than six field names (an `IndexError`), the former first; otherwise every year and nothing else gets a colour, and the template lists the years |
| LatexOutput.NewLatexWriter | bubble_plot.py:494-515 | fails with an `IndexError` on index 1 iff fewer than two field names are configured; otherwise the writer keeps the plot, configuration and x positions, and its years are the given set listed in strictly increasing order |
| LatexOutput.LatexValues | bubble_plot.py:494-587 | constructing the writer and preparing its values fails iff there are no x positions or fewer than six field names: on fewer than two names with index 1, else on no x positions with `min`'s `ValueError`, else with `ShortFieldNames`; a success has xMin and xMax among the x positions and bounding them, and a colour for every year and no other |
| Pipeline.CsvStep | bubble_plot.py:639-640 | on a counted plot the CSV writer fails iff there is exactly one year, with a division by zero; a written file has one unpadded line per bubble, sorted by x |
| Pipeline.LatexStep | bubble_plot.py:641-642 | over the file the CSV step wrote, the LaTeX writer fails iff the file has no lines or fewer than six field names are configured, with the errors in the order `LatexValues` states; otherwise its x range runs from the first line's x position to the last one's |
| Pipeline.WritePlot | bubble_plot.py:639-642 | both writers on one counted plot fail iff there is one year, no bubble, or fewer than six field names; the error is, in this order, a division by zero (one year), an `IndexError` on index 1 (fewer than two names), `min`'s `ValueError` (no bubble), the `IndexError` of `ShortFieldNames`; otherwise the results are the CSV writer's file and the LaTeX writer's values over that file, with one sorted unpadded line per bubble and the x range from the first line to the last |
| Pipeline.BuildAndSavePlot | bubble_plot.py:637-642 | a record missing a field fails the plan with that error; otherwise the plan fails iff exactly one year was seen, there were no records, or fewer than six field names are configured, with the errors in the order `WritePlot` states; a success is the CSV writer's file, one unpadded line per bubble sorted by x, and the LaTeX writer's values over that file |
| Fixtures.FixtureYearScores | test_bubble_plot.py:94-120 | the years 2018, 2019 and 2020 score 0, 500 and 1000, as the unit test expects |
| Fixtures.FixtureXPositions | test_bubble_plot.py:86-130 | with offsets 1 and 2, the left labels 1, 4 and 7 sit at -4, -3 and -2, and the right labels 2, 4 and 7 at 2, 3 and 4 |
| Fixtures.FixtureYPositions | test_bubble_plot.py:95-130 | the y labels 0, 3 and 6 sit at 0, 1 and 2 |

## Left out

- File input and output are not modelled. This covers opening files, the `csv` module's quoting, and the output directory. The CSV file is a `CsvTable` value of cells.
- LatexOutput.XColumn: `LatexBubblePlotWriter.__init__` reads the x positions back from the CSV file. The model passes them in as `xIndices` instead; `XColumn` takes them from cell 1 of each line, and `Pipeline` passes the file the model writes. The source reads the column named `conf.field_names[1]` through `csv.DictReader`; when that name occurs twice among the field names, `DictReader` keeps the later column, which the model does not capture.
- `compute_color_map` is not modelled because it is floating-point HSV-to-RGB arithmetic. Its result is the parameter `generated` of `LatexWriter.SavePlot`, one colour per year, over an abstract colour type; in `Pipeline` it is the parameter `colourMap`, a function from a number of years to that many colours.
- The configured colour palette (`Config.color_map`) is not a field of the model's `Config`. It is the `palette` parameter of `LatexWriter.SavePlot`, because the colour type is abstract.
- `LatexBubblePlotWriter.write` is not modelled. It reads the template and runs `Template.substitute`, both of which are I/O and string templating.
- LatexOutput.LatexWriter.PrepareValues: covers only the colour map, the year list, the x range, the axis labels and the file name. It leaves out the text rendering of `defineColorsYear`, `setColorsYear` and `colorsYear`. It also leaves out the `field_names` entries themselves; only the `IndexError` on reading them is modelled.
- `__str__` and `__repr__` of `Occurrence` and `__repr__` of `BubblePlot` are not modelled because they are debugging output. `BubblePlot.__str__` is modelled as `BubblePlot.Name`.
- BubbleIndex.BubblePlot.Name: carries no contract of its own. The identifier it returns is described by `PlotName`.
- Aggregation.ComputeOccurrencesFrom: loops over the value view `PlotData` rather than over a `BubblePlot` object. `BubblePlot.Update` is proved to change the object's contents exactly as `PlotData.Update` changes the value. Aliasing of counters inside the returned object is therefore not part of this method's contract.
- Python raises an exception and abandons the partly counted plot. The model returns the error instead of a plot, so a record that lacks only the right facet is counted on the left side. That count is visible in `PlotData.UpdateSpec`, but no caller sees it.
- Only one iteration of the loop over plot plans in `build_and_save_plots` is modelled (`Pipeline.BuildAndSavePlot`). The loop has no `try`, so an error in one plan ends the loop and later plans are neither counted nor written; the model covers one plan and does not state this.
- Error messages are not modelled as text. The `KeyError` messages ("Unknown facet named: … on the x axis") are modelled as `UnknownFacet(facet, axis)`. A key missing from a record or a mapping is modelled as `MissingField(key)`.
- The command-line entry point and `setup.py` are not part of this model.
- The unit tests disagree with the code in places: a six-field `Config` without a colour map, a misspelled class name and error message, and label lists passed in swapped order to `write`. The model follows the code. From the tests, only the expected year scores and label positions are restated (`Fixtures`).
