/**
 * One iteration of `build_and_save_plots`: count the records into the plot
 * a plan describes, write its CSV file, then prepare the values of its
 * LaTeX template from the x positions of that file.
 */
module Pipeline {
  import opened Base
  import opened BubbleIndex
  import opened Aggregation
  import opened CsvRows
  import opened CsvOutput
  import opened LatexOutput

  /** The CSV step on a well-formed plot whose every year is among the
      years: it fails only on a single year, and otherwise writes one
      unpadded line per bubble sorted by x. */
  lemma CsvStep(plot: PlotData, years: set<string>, conf: Config)
    requires plot.Valid() && CsvWriter(plot, years, conf).YearsCovered()
    ensures CsvWriter(plot, years, conf).SavedTable().Failure? <==> |years| == 1
    ensures CsvWriter(plot, years, conf).SavedTable().Failure? ==>
              CsvWriter(plot, years, conf).SavedTable().error == ZeroDivision
    ensures CsvWriter(plot, years, conf).SavedTable().Success? ==>
              var lines := CsvWriter(plot, years, conf).SavedTable().value.lines;
              && |lines| == |plot.left.order| + |plot.right.order|
              && Unpadded(lines) && XColumnSorted(lines)
  {
    var writer := CsvWriter(plot, years, conf);
    writer.SavedTableOutcome();
    if writer.SavedTable().Success? {
      writer.SavedTableShape();
    }
  }

  /** The LaTeX step on a file the CSV step wrote: the constructor fails on
      fewer than two field names, `min` on a file without lines, and
      `prepare_values` on fewer than six field names; otherwise the x range
      runs from the first line's x position to the last one's. */
  lemma LatexStep<C>(plot: PlotData, years: set<string>, conf: Config, lines: seq<seq<Cell>>,
                     palette: seq<C>, generated: seq<C>)
    requires Unpadded(lines) && XColumnSorted(lines) && |generated| == |years|
    ensures LatexValues(plot, years, conf, XColumn(lines), palette, generated).Failure? <==>
              lines == [] || |conf.fieldNames| < 6
    ensures |conf.fieldNames| < 2 ==>
              LatexValues(plot, years, conf, XColumn(lines), palette, generated) == Failure(IndexOutOfRange(1))
    ensures 2 <= |conf.fieldNames| && lines == [] ==>
              LatexValues(plot, years, conf, XColumn(lines), palette, generated) == Failure(EmptySequence)
    ensures lines != [] && 2 <= |conf.fieldNames| < 6 ==>
              LatexValues(plot, years, conf, XColumn(lines), palette, generated)
                == Failure(ShortFieldNames(conf.fieldNames))
    ensures lines != [] && 6 <= |conf.fieldNames| ==>
              && LatexValues(plot, years, conf, XColumn(lines), palette, generated).Success?
              && LatexValues(plot, years, conf, XColumn(lines), palette, generated).value.xMin == FirstX(lines)
              && LatexValues(plot, years, conf, XColumn(lines), palette, generated).value.xMax == LastX(lines)
  {
    if lines != [] {
      XRangeOfSortedFile(lines);
    }
  }

  /** Both writers of one counted plot. The CSV step fails when there is
      one year (a division by zero); then the LaTeX step fails on fewer than
      two field names, on a plot without bubbles (`min` of no x positions)
      and on fewer than six field names, in that order. Otherwise the CSV
      file is the one `CSVWriter.save_plot` writes, with one unpadded line
      per bubble sorted by x, and the template values are those of the
      LaTeX writer over the file's x positions, whose range runs from the
      first line to the last. `colourMap` stands for `compute_color_map`. */
  method WritePlot<C>(plot: PlotData, years: set<string>, conf: Config,
                      palette: seq<C>, colourMap: nat -> seq<C>)
    returns (r: Result<(CsvTable, TemplateValues<C>)>)
    requires plot.Valid() && CsvWriter(plot, years, conf).YearsCovered()
    requires forall n: nat :: |colourMap(n)| == n
    ensures r.Failure? <==>
              |years| == 1 || |plot.left.order| + |plot.right.order| == 0 || |conf.fieldNames| < 6
    ensures |years| == 1 ==> r == Failure(ZeroDivision)
    ensures |years| != 1 && |conf.fieldNames| < 2 ==> r == Failure(IndexOutOfRange(1))
    ensures |years| != 1 && 2 <= |conf.fieldNames| && |plot.left.order| + |plot.right.order| == 0 ==>
              r == Failure(EmptySequence)
    ensures |years| != 1 && 2 <= |conf.fieldNames| < 6 && |plot.left.order| + |plot.right.order| != 0 ==>
              r == Failure(ShortFieldNames(conf.fieldNames))
    ensures r.Success? ==>
              && CsvWriter(plot, years, conf).SavedTable() == Success(r.value.0)
              && |r.value.0.lines| == |plot.left.order| + |plot.right.order|
              && Unpadded(r.value.0.lines) && XColumnSorted(r.value.0.lines)
              && LatexValues(plot, years, conf, XColumn(r.value.0.lines), palette, colourMap(|years|))
                   == Success(r.value.1)
              && r.value.0.lines != []
              && r.value.1.xMin == FirstX(r.value.0.lines)
              && r.value.1.xMax == LastX(r.value.0.lines)
  {
    CsvStep(plot, years, conf);
    var csv := CsvWriter(plot, years, conf).SavePlot();
    if csv.Failure? {
      return Failure(csv.error);
    }
    var table := csv.value;
    var generated := colourMap(|years|);
    LatexStep(plot, years, conf, table.lines, palette, generated);
    var values := LatexValues(plot, years, conf, XColumn(table.lines), palette, generated);
    if values.Failure? {
      return Failure(values.error);
    }
    r := Success((table, values.value));
  }

  /** One plan of `build_and_save_plots`: a record without a needed field
      stops the run with its error; otherwise both files are written from
      the counted plot as `WritePlot` states, where the plot has no bubble
      exactly when there were no records. */
  method BuildAndSavePlot<C>(entries: seq<Entry>, plotPlan: Facets, conf: Config,
                             palette: seq<C>, colourMap: nat -> seq<C>)
    returns (r: Result<(CsvTable, TemplateValues<C>)>)
    requires forall n: nat :: |colourMap(n)| == n
    ensures Aggregate(entries, plotPlan, conf.classYear).Failure? ==>
              r == Failure(Aggregate(entries, plotPlan, conf.classYear).error)
    ensures Aggregate(entries, plotPlan, conf.classYear).Success? ==>
              var (plot, years) := Aggregate(entries, plotPlan, conf.classYear).value;
              && (r.Failure? <==> |years| == 1 || entries == [] || |conf.fieldNames| < 6)
              && (|years| == 1 ==> r == Failure(ZeroDivision))
              && (|years| != 1 && |conf.fieldNames| < 2 ==> r == Failure(IndexOutOfRange(1)))
              && (|years| != 1 && 2 <= |conf.fieldNames| && entries == [] ==> r == Failure(EmptySequence))
              && (|years| != 1 && 2 <= |conf.fieldNames| < 6 && entries != [] ==>
                    r == Failure(ShortFieldNames(conf.fieldNames)))
              && (r.Success? ==>
                    && plot.Valid()
                    && CsvWriter(plot, years, conf).SavedTable() == Success(r.value.0)
                    && |r.value.0.lines| == |plot.left.order| + |plot.right.order|
                    && Unpadded(r.value.0.lines) && XColumnSorted(r.value.0.lines)
                    && LatexValues(plot, years, conf, XColumn(r.value.0.lines), palette, colourMap(|years|))
                         == Success(r.value.1))
  {
    var counted := ComputeOccurrencesFrom(entries, plotPlan, conf);
    if counted.Failure? {
      return Failure(counted.error);
    }
    var (plot, years) := counted.value;
    AggregateReady(entries, plotPlan, conf.classYear);
    AggregateEmpty(entries, plotPlan, conf.classYear);
    r := WritePlot(plot, years, conf, palette, colourMap);
  }
}
