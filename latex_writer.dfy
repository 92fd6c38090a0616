/**
 * `LatexBubblePlotWriter`: the values a plot's LaTeX template is filled
 * with. Modelled are the choice of one colour per year (the configured
 * palette when it is long enough, otherwise colours generated for the
 * number of years) and the x range of the plot, taken from the x positions
 * of the CSV file's lines. The colour type is left abstract.
 */
module LatexOutput {
  import opened Base
  import opened StringOrder
  import opened BubbleIndex
  import opened CsvRows

  /** The colours `save_plot` hands out, one per year: a prefix of the
      palette when it has enough entries, otherwise the generated ones. */
  function Colours<C>(n: nat, palette: seq<C>, generated: seq<C>): (cs: seq<C>)
    requires |generated| == n
    ensures |cs| == n
  {
    if n <= |palette| then palette[..n] else generated
  }

  /** `dict(zip(keys, values))` for sequences of equal length. */
  function ZipMap<C>(keys: seq<string>, values: seq<C>): (m: map<string, C>)
    requires |keys| == |values|
    ensures forall k :: k in m <==> k in keys
  {
    if keys == [] then map[]
    else ZipMap(keys[..|keys| - 1], values[..|values| - 1])[keys[|keys| - 1] := values[|values| - 1]]
  }

  /** With distinct keys, each key is paired with the value at its index. */
  lemma {:induction false} ZipMapAt<C>(keys: seq<string>, values: seq<C>)
    requires |keys| == |values| && Distinct(keys)
    ensures forall i :: 0 <= i < |keys| ==> ZipMap(keys, values)[keys[i]] == values[i]
  {
    if keys != [] {
      var init := keys[..|keys| - 1];
      ZipMapAt(init, values[..|values| - 1]);
      forall i | 0 <= i < |keys| - 1 ensures keys[i] != keys[|keys| - 1] && keys[i] == init[i] { }
    }
  }

  /** `min` of a non-empty sequence. */
  function MinOf(xs: seq<int>): (m: int)
    requires xs != []
    ensures m in xs
    ensures forall x :: x in xs ==> m <= x
  {
    if |xs| == 1 then xs[0]
    else
      var rest := MinOf(xs[1..]);
      assert forall x :: x in xs ==> x == xs[0] || x in xs[1..];
      if xs[0] <= rest then xs[0] else rest
  }

  /** `max` of a non-empty sequence. */
  function MaxOf(xs: seq<int>): (m: int)
    requires xs != []
    ensures m in xs
    ensures forall x :: x in xs ==> x <= m
  {
    if |xs| == 1 then xs[0]
    else
      var rest := MaxOf(xs[1..]);
      assert forall x :: x in xs ==> x == xs[0] || x in xs[1..];
      if xs[0] >= rest then xs[0] else rest
  }

  /** `xMin` and `xMax`: `min` raises on an empty sequence before `max`
      is reached. */
  function XRange(xs: seq<int>): (r: Result<(int, int)>)
    ensures r.Failure? <==> xs == []
    ensures r.Failure? ==> r.error == EmptySequence
  {
    if xs == [] then Failure(EmptySequence) else Success((MinOf(xs), MaxOf(xs)))
  }

  /** The x positions of the lines of a CSV file without padding. */
  function XColumn(lines: seq<seq<Cell>>): (xs: seq<int>)
    requires Unpadded(lines)
    ensures |xs| == |lines|
    ensures forall i :: 0 <= i < |lines| ==> lines[i][1] == Num(xs[i])
  {
    seq(|lines|, i requires 0 <= i < |lines| => lines[i][1].n)
  }

  /** The x position of the first line of a CSV file. */
  function FirstX(lines: seq<seq<Cell>>): int
    requires Unpadded(lines) && lines != []
  {
    lines[0][1].n
  }

  /** The x position of the last line of a CSV file. */
  function LastX(lines: seq<seq<Cell>>): int
    requires Unpadded(lines) && lines != []
  {
    lines[|lines| - 1][1].n
  }

  /** A CSV file whose x column is sorted spans the x positions of its first
      and its last line. */
  lemma XRangeOfSortedFile(lines: seq<seq<Cell>>)
    requires Unpadded(lines) && XColumnSorted(lines) && lines != []
    ensures XRange(XColumn(lines)) == Success((FirstX(lines), LastX(lines)))
  {
    var xs := XColumn(lines);
    var lo := MinOf(xs);
    var hi := MaxOf(xs);
    var i :| 0 <= i < |xs| && xs[i] == lo;
    var j :| 0 <= j < |xs| && xs[j] == hi;
    assert xs[0] in xs && xs[|xs| - 1] in xs;
  }

  /** The `IndexError` of `prepare_values` on fewer than six field names:
      `field_names[2]` is read first, then `field_names[5]`. */
  function ShortFieldNames(fieldNames: seq<string>): (e: Error)
    requires |fieldNames| < 6
    ensures e.IndexOutOfRange? && (e.index == 2 || e.index == 5) && |fieldNames| <= e.index
    ensures e.index == 5 ==> 2 < |fieldNames|
  {
    if |fieldNames| <= 2 then IndexOutOfRange(2) else IndexOutOfRange(5)
  }

  /** The values of the template that the model covers. */
  datatype TemplateValues<C> = TemplateValues(
    yearColour: map<string, C>,
    colorsYear: seq<string>,
    xMin: int,
    xMax: int,
    yLabel: string,
    xLeftLabel: string,
    xRightLabel: string,
    csvDataFile: string)

  /** The LaTeX writer of one plot. `years` is sorted; `xIndices` are the x
      positions the CSV file holds, one per line. */
  datatype LatexWriter = LatexWriter(plot: PlotData, years: seq<string>, conf: Config, xIndices: seq<int>) {

    /** `prepare_values` for the colour of each year, over the keys the
        model covers: `min` of the x positions is taken before the field
        names are read. */
    function PrepareValues<C>(yearColour: map<string, C>): (r: Result<TemplateValues<C>>)
      ensures r.Failure? <==> xIndices == [] || |conf.fieldNames| < 6
      ensures xIndices == [] ==> r == Failure(EmptySequence)
      ensures xIndices != [] && |conf.fieldNames| < 6 ==> r == Failure(ShortFieldNames(conf.fieldNames))
      ensures r.Success? ==> forall x :: x in xIndices ==> r.value.xMin <= x <= r.value.xMax
      ensures r.Success? ==> r.value.xMin in xIndices && r.value.xMax in xIndices
      ensures r.Success? ==> r.value.csvDataFile == PlotName(plot.left.facet, plot.yAxis, plot.right.facet) + ".csv"
    {
      match XRange(xIndices)
      case Failure(e) => Failure(e)
      case Success((lo, hi)) =>
        if |conf.fieldNames| < 6 then Failure(ShortFieldNames(conf.fieldNames))
        else Success(TemplateValues(yearColour, years, lo, hi, plot.yAxis, plot.left.facet, plot.right.facet,
                               PlotName(plot.left.facet, plot.yAxis, plot.right.facet) + ".csv"))
    }

    /** `save_plot`, up to the template values: pairs each year with its
        colour and prepares the values. `generated` stands for
        `compute_color_map(len(years))`, one colour per year. */
    function SavePlot<C>(palette: seq<C>, generated: seq<C>): (r: Result<TemplateValues<C>>)
      requires |generated| == |years|
      ensures r.Failure? <==> xIndices == [] || |conf.fieldNames| < 6
      ensures xIndices == [] ==> r == Failure(EmptySequence)
      ensures xIndices != [] && |conf.fieldNames| < 6 ==> r == Failure(ShortFieldNames(conf.fieldNames))
      ensures r.Success? ==> (forall y :: y in r.value.yearColour <==> y in years) && r.value.colorsYear == years
    {
      PrepareValues(ZipMap(years, Colours(|years|, palette, generated)))
    }

    /** Each year gets a colour: the `i`-th year the `i`-th palette entry
        when the palette has enough, otherwise the `i`-th generated colour. */
    lemma YearColours<C>(palette: seq<C>, generated: seq<C>)
      requires |generated| == |years| && Increasing(years)
      requires SavePlot(palette, generated).Success?
      ensures forall y :: y in SavePlot(palette, generated).value.yearColour <==> y in years
      ensures |years| <= |palette| ==>
                forall i :: 0 <= i < |years| ==> SavePlot(palette, generated).value.yearColour[years[i]] == palette[i]
      ensures |years| > |palette| ==>
                forall i :: 0 <= i < |years| ==> SavePlot(palette, generated).value.yearColour[years[i]] == generated[i]
    {
      IncreasingRanks(years);
      ZipMapAt(years, Colours(|years|, palette, generated));
    }
  }

  /** `LatexBubblePlotWriter(plot, years, conf)`: the years are kept in
      sorted order; the x positions are passed in instead of being read
      back from the CSV file, whose column is named by `field_names[1]`. */
  function NewLatexWriter(plot: PlotData, years: set<string>, conf: Config, xIndices: seq<int>): (r: Result<LatexWriter>)
    ensures r.Failure? <==> |conf.fieldNames| < 2
    ensures r.Failure? ==> r.error == IndexOutOfRange(1)
    ensures r.Success? ==> Increasing(r.value.years) && |r.value.years| == |years|
    ensures r.Success? ==> forall y :: y in r.value.years <==> y in years
    ensures r.Success? ==> r.value.plot == plot && r.value.conf == conf && r.value.xIndices == xIndices
  {
    if |conf.fieldNames| < 2 then Failure(IndexOutOfRange(1))
    else Success(LatexWriter(plot, SortedSet(years), conf, xIndices))
  }

  /** `LatexBubblePlotWriter(plot, years, conf).save_plot()` up to the
      template values: the constructor reads `field_names[1]`, then
      `prepare_values` takes `min` of the x positions and reads the other
      field names. `generated` stands for `compute_color_map(len(years))`. */
  function LatexValues<C>(plot: PlotData, years: set<string>, conf: Config, xIndices: seq<int>,
                          palette: seq<C>, generated: seq<C>): (r: Result<TemplateValues<C>>)
    requires |generated| == |years|
    ensures r.Failure? <==> xIndices == [] || |conf.fieldNames| < 6
    ensures |conf.fieldNames| < 2 ==> r == Failure(IndexOutOfRange(1))
    ensures 2 <= |conf.fieldNames| && xIndices == [] ==> r == Failure(EmptySequence)
    ensures xIndices != [] && 2 <= |conf.fieldNames| < 6 ==> r == Failure(ShortFieldNames(conf.fieldNames))
    ensures r.Success? ==> forall x :: x in xIndices ==> r.value.xMin <= x <= r.value.xMax
    ensures r.Success? ==> r.value.xMin in xIndices && r.value.xMax in xIndices
    ensures r.Success? ==> (forall y :: y in r.value.yearColour <==> y in years) && Increasing(r.value.colorsYear)
    ensures r.Success? ==> forall y :: y in r.value.colorsYear <==> y in years
  {
    match NewLatexWriter(plot, years, conf, xIndices)
    case Failure(e) => Failure(e)
    case Success(w) => w.SavePlot(palette, generated)
  }
}
