/**
 * `CSVWriter`: turns an aggregated plot into the rows of its CSV file.
 * Years get colour-map scores spread over [0, 1000]; tick labels get axis
 * positions (the left side counts towards the y axis from below zero, the
 * right side counts up from its offset, the y labels are 0..M-1); each
 * bubble becomes one row, the rows are sorted by x position, and the
 * columns are laid side by side with the label lists.
 */
module CsvOutput {
  import opened Base
  import opened StringOrder
  import opened BubbleIndex
  import opened CsvRows

  /** The scores of the colour map run from 0 to this bound. */
  const ScoreBound := 1000

  /** Python's `1000 // (n - 1)` for a count `n` of years. Dafny's `/` is
      Euclidean and Python's `//` floors; they agree here because the only
      negative divisor that can occur is -1. */
  function ScoreStep(n: nat): (r: Result<int>)
    ensures r.Failure? <==> n == 1
    ensures r.Failure? ==> r.error == ZeroDivision
    ensures n >= 2 ==> r.Success? && 0 <= r.value <= ScoreBound
    ensures n >= 2 ==> r.value * (n - 1) <= ScoreBound < (r.value + 1) * (n - 1)
  {
    if n == 1 then Failure(ZeroDivision) else Success(ScoreBound / (n - 1))
  }

  /** The score of the year of rank `i` among `n` years. */
  function Score(n: nat, i: nat): int
    requires n >= 2
  {
    i * ScoreStep(n).value
  }

  /** Scores start at 0, never leave [0, 1000], never decrease along the
      years, and strictly increase as long as there are at most 1001 years. */
  lemma ScoreProperties(n: nat, i: nat, j: nat)
    requires n >= 2 && i < n && j < n
    ensures Score(n, 0) == 0
    ensures 0 <= Score(n, i) <= ScoreBound
    ensures i <= j ==> Score(n, i) <= Score(n, j)
    ensures i < j && n - 1 <= ScoreBound ==> Score(n, i) < Score(n, j)
  {
    var step := ScoreStep(n).value;
    assert i * step <= (n - 1) * step by {
      MultiplyMonotone(i, n - 1, step);
    }
    if i <= j {
      MultiplyMonotone(i, j, step);
    }
    if i < j && n - 1 <= ScoreBound {
      assert step >= 1;
      assert j * step == i * step + (j - i) * step;
      MultiplyMonotone(1, j - i, step);
    }
  }

  /** With more than 1001 years the step `1000 // (n - 1)` is 0: every year
      gets score 0. */
  lemma ScoresCollapse(n: nat, i: nat)
    requires n - 1 > ScoreBound
    ensures Score(n, i) == 0
  {
  }

  lemma MultiplyMonotone(a: nat, b: nat, c: nat)
    requires a <= b
    ensures a * c <= b * c
  {
    assert b * c == a * c + (b - a) * c;
  }

  lemma SameMaps(m1: map<string, int>, m2: map<string, int>)
    requires m1.Keys == m2.Keys
    requires forall k :: k in m1 ==> m1[k] == m2[k]
    ensures m1 == m2
  {
  }

  /** Each label of `s` gets its index times `incr`. */
  function Spread(s: seq<string>, incr: int): map<string, int> {
    var ranks := Enumerate(s, 0);
    map y | y in ranks :: ranks[y] * incr
  }

  /** The scores the loop of `ComputeYearScoreMapping` leaves behind are
      those `Spread` describes. */
  lemma LoopScores(sorted: seq<string>, scores: map<string, int>, incr: int)
    requires Increasing(sorted)
    requires scores.Keys == set j | 0 <= j < |sorted| :: sorted[j]
    requires forall j :: 0 <= j < |sorted| ==> scores[sorted[j]] == j * incr
    ensures scores == Spread(sorted, incr)
  {
    var ranks := Enumerate(sorted, 0);
    var want := Spread(sorted, incr);
    EnumerateAt(sorted, 0);
    forall y | y in scores ensures y in want && scores[y] == want[y] {
      var j :| 0 <= j < |sorted| && sorted[j] == y;
      assert ranks[y] == j;
      assert scores[y] == j * incr;
    }
    assert scores.Keys == want.Keys;
    SameMaps(scores, want);
  }

  /** Tick labels of one side, as `set(b.label_x for b in side.bubbles)`. */
  function XLabels(side: SideData): set<string> {
    set b | b in side.tallies.Keys :: b.labelX
  }

  /** Tick labels of the y axis, over the bubbles of both sides. */
  function YLabels(plot: PlotData): set<string> {
    set b | b in plot.right.tallies.Keys + plot.left.tallies.Keys :: b.labelY
  }

  /** No more x labels than bubbles. */
  lemma {:induction false} LabelsXBound(bs: set<Bubble>)
    ensures |set b | b in bs :: b.labelX| <= |bs|
    decreases |bs|
  {
    if bs != {} {
      var b :| b in bs;
      LabelsXBound(bs - {b});
      assert (set c | c in bs :: c.labelX) == (set c | c in bs - {b} :: c.labelX) + {b.labelX};
    }
  }

  /** No more y labels than bubbles. */
  lemma {:induction false} LabelsYBound(bs: set<Bubble>)
    ensures |set b | b in bs :: b.labelY| <= |bs|
    decreases |bs|
  {
    if bs != {} {
      var b :| b in bs;
      LabelsYBound(bs - {b});
      assert (set c | c in bs :: c.labelY) == (set c | c in bs - {b} :: c.labelY) + {b.labelY};
    }
  }

  /** A dictionary from label to position, with its keys in insertion order. */
  datatype Positions = Positions(keys: seq<string>, at: map<string, int>)

  /** Labels that compare smaller get smaller positions, and conversely;
      in particular no two labels share a position. */
  ghost predicate OrderPreserving(m: map<string, int>) {
    forall a, b :: a in m && b in m ==> (Less(a, b) <==> m[a] < m[b])
  }

  /** `{label: base + i for i, label in enumerate(s)}`. */
  function Enumerate(s: seq<string>, base: int): (m: map<string, int>)
    ensures forall l :: l in m <==> l in s
  {
    if s == [] then map[]
    else Enumerate(s[..|s| - 1], base)[s[|s| - 1] := base + |s| - 1]
  }

  /** For distinct (here: strictly increasing) labels, the label at index
      `i` is mapped to `base + i`. */
  lemma {:induction false} EnumerateAt(s: seq<string>, base: int)
    requires Increasing(s)
    ensures forall i :: 0 <= i < |s| ==> Enumerate(s, base)[s[i]] == base + i
  {
    if s != [] {
      var init := s[..|s| - 1];
      assert Increasing(init);
      EnumerateAt(init, base);
      IncreasingRanks(s);
      forall i | 0 <= i < |s| - 1 ensures s[i] != s[|s| - 1] && s[i] == init[i] { }
    }
  }

  /** Positions of sorted labels stay within [base, base + |s|) and follow
      the label order. */
  lemma EnumerateOrdered(s: seq<string>, base: int)
    requires Increasing(s)
    ensures forall l :: l in Enumerate(s, base) ==> base <= Enumerate(s, base)[l] < base + |s|
    ensures OrderPreserving(Enumerate(s, base))
  {
    var m := Enumerate(s, base);
    EnumerateAt(s, base);
    IncreasingRanks(s);
    forall a, b | a in m && b in m ensures Less(a, b) <==> m[a] < m[b] {
      var i :| 0 <= i < |s| && s[i] == a;
      var j :| 0 <= j < |s| && s[j] == b;
    }
    forall l | l in m ensures base <= m[l] < base + |s| {
      var i :| 0 <= i < |s| && s[i] == l;
    }
  }

  /** The left positions count up from `-(n + offset)`, so that the last of
      the `n` left labels sits at `-(1 + offset)`. */
  function LeftBase(n: nat, offset: int): int {
    -(n + offset)
  }

  /** Serialises one plot and its years. `plot` is the value view of the
      `BubblePlot` the records were counted into. */
  datatype CsvWriter = CsvWriter(plot: PlotData, years: set<string>, conf: Config) {

    /** The mapping `compute_year_score_mapping` builds: the year of rank
        `i` in sorted order gets `i` steps. */
    function YearScores(): (r: Result<map<string, int>>)
      ensures r.Failure? <==> |years| == 1
      ensures r.Failure? ==> r.error == ZeroDivision
      ensures r.Success? ==> r.value.Keys == years
    {
      match ScoreStep(|years|)
      case Failure(e) => Failure(e)
      case Success(incr) => Success(Spread(SortedSet(years), incr))
    }

    /** A single year divides by zero; otherwise every year gets a score,
        the one of rank `i` in sorted order `i * (1000 // (N - 1))`. */
    lemma YearScoresSpec()
      ensures YearScores().Failure? <==> |years| == 1
      ensures YearScores().Failure? ==> YearScores().error == ZeroDivision
      ensures YearScores().Success? ==> YearScores().value.Keys == years
      ensures YearScores().Success? ==>
                forall i :: 0 <= i < |years| ==> YearScores().value[SortedSet(years)[i]] == Score(|years|, i)
    {
      EnumerateAt(SortedSet(years), 0);
    }

    /** Earlier years never get higher scores, and with at most 1001 years
        distinct years get distinct scores. */
    lemma YearScoresOrdered(y1: string, y2: string)
      requires YearScores().Success? && y1 in years && y2 in years && Less(y1, y2)
      ensures YearScores().value[y1] <= YearScores().value[y2]
      ensures |years| - 1 <= ScoreBound ==> YearScores().value[y1] < YearScores().value[y2]
    {
      var sorted := SortedSet(years);
      EnumerateOrdered(sorted, 0);
      var ranks := Enumerate(sorted, 0);
      assert ranks[y1] < ranks[y2];
      ScoreProperties(|years|, ranks[y1], ranks[y2]);
    }

    /** `compute_year_score_mapping`: walks the years in sorted order with
        an accumulator that grows by one step per year. */
    method ComputeYearScoreMapping() returns (r: Result<map<string, int>>)
      ensures r == YearScores()
    {
      var step := ScoreStep(|years|);
      if step.Failure? {
        return Failure(step.error);
      }
      var incr := step.value;
      var sorted := SortedSet(years);
      IncreasingRanks(sorted);
      var idx := 0;
      var scores: map<string, int> := map[];
      for k := 0 to |sorted|
        invariant idx == k * incr
        invariant scores.Keys == set j | 0 <= j < k :: sorted[j]
        invariant forall j :: 0 <= j < k ==> scores[sorted[j]] == j * incr
      {
        scores := scores[sorted[k] := idx];
        idx := idx + incr;
        assert idx == (k + 1) * incr by {
          assert (k + 1) * incr == k * incr + incr;
        }
      }
      LoopScores(sorted, scores, incr);
      return Success(scores);
    }

    /** `compute_labels_indices_mapping`: one mapping per axis, keyed in
        sorted label order. */
    function ComputeLabelsIndicesMapping(): (r: (Positions, Positions, Positions))
      ensures r.0.keys == SortedSet(XLabels(plot.left))
      ensures r.1.keys == SortedSet(XLabels(plot.right))
      ensures r.2.keys == SortedSet(YLabels(plot))
    {
      var left := SortedSet(XLabels(plot.left));
      var right := SortedSet(XLabels(plot.right));
      var ys := SortedSet(YLabels(plot));
      (Positions(left, Enumerate(left, LeftBase(|left|, conf.xLeftOffset))),
       Positions(right, Enumerate(right, conf.xRightOffset)),
       Positions(ys, Enumerate(ys, 0)))
    }

    /** The left labels, in sorted order, get -(n - i + left offset): they
        run from -(n + offset) up to -(1 + offset) and keep the label order. */
    lemma LeftPositions()
      ensures var left := ComputeLabelsIndicesMapping().0;
              && (forall l :: l in left.at <==> l in left.keys)
              && (forall i :: 0 <= i < |left.keys| ==>
                    left.at[left.keys[i]] == -(|left.keys| - i + conf.xLeftOffset))
              && (forall l :: l in left.at ==>
                    -(|left.keys| + conf.xLeftOffset) <= left.at[l] <= -(1 + conf.xLeftOffset))
              && OrderPreserving(left.at)
    {
      var s := SortedSet(XLabels(plot.left));
      EnumerateAt(s, LeftBase(|s|, conf.xLeftOffset));
      EnumerateOrdered(s, LeftBase(|s|, conf.xLeftOffset));
    }

    /** The right labels, in sorted order, get i + right offset and keep the
        label order. */
    lemma RightPositions()
      ensures var right := ComputeLabelsIndicesMapping().1;
              && (forall l :: l in right.at <==> l in right.keys)
              && (forall i :: 0 <= i < |right.keys| ==> right.at[right.keys[i]] == i + conf.xRightOffset)
              && (forall l :: l in right.at ==>
                    conf.xRightOffset <= right.at[l] < conf.xRightOffset + |right.keys|)
              && OrderPreserving(right.at)
    {
      var s := SortedSet(XLabels(plot.right));
      EnumerateAt(s, conf.xRightOffset);
      EnumerateOrdered(s, conf.xRightOffset);
    }

    /** The y labels of both sides, in sorted order, get 0..M-1 and keep the
        label order. */
    lemma YPositions()
      ensures var ys := ComputeLabelsIndicesMapping().2;
              && (forall l :: l in ys.at <==> l in ys.keys)
              && (forall i :: 0 <= i < |ys.keys| ==> ys.at[ys.keys[i]] == i)
              && (forall l :: l in ys.at ==> 0 <= ys.at[l] < |ys.keys|)
              && OrderPreserving(ys.at)
    {
      var s := SortedSet(YLabels(plot));
      EnumerateAt(s, 0);
      EnumerateOrdered(s, 0);
    }

    /** `prepared_bubbles_data`: one row per bubble, the left side first,
        each side in the order its bubbles were first counted; a label or
        year missing from its dictionary is a `KeyError`. */
    function PreparedBubblesData(xLeft: map<string, int>, xRight: map<string, int>,
                                 yAt: map<string, int>, yearAt: map<string, int>): (r: Result<seq<Row>>)
      requires plot.Valid()
      ensures r.Success? <==>
                && AllPlaceable(plot.left.order, plot.left.tallies, Indices(xLeft, yAt, yearAt))
                && AllPlaceable(plot.right.order, plot.right.tallies, Indices(xRight, yAt, yearAt))
      ensures r.Success? ==> |r.value| == |plot.left.order| + |plot.right.order|
      ensures r.Success? ==>
                forall i :: 0 <= i < |plot.left.order| ==>
                  r.value[i] == RowOf(plot.left.order[i], plot.left.tallies[plot.left.order[i]], Indices(xLeft, yAt, yearAt))
      ensures r.Success? ==>
                forall i :: 0 <= i < |plot.right.order| ==>
                  r.value[|plot.left.order| + i]
                    == RowOf(plot.right.order[i], plot.right.tallies[plot.right.order[i]], Indices(xRight, yAt, yearAt))
      ensures r.Failure? ==>
                || FirstFailure(plot.left.order, plot.left.tallies, Indices(xLeft, yAt, yearAt), r.error)
                || (&& AllPlaceable(plot.left.order, plot.left.tallies, Indices(xLeft, yAt, yearAt))
                    && FirstFailure(plot.right.order, plot.right.tallies, Indices(xRight, yAt, yearAt), r.error))
    {
      match RowsOf(plot.left.order, plot.left.tallies, Indices(xLeft, yAt, yearAt))
      case Failure(e) => Failure(e)
      case Success(leftRows) =>
        match RowsOf(plot.right.order, plot.right.tallies, Indices(xRight, yAt, yearAt))
        case Failure(e) => Failure(e)
        case Success(rightRows) => Success(leftRows + rightRows)
    }

    /** The name of the CSV file: the plot identifier with `.csv`. */
    function FileName(): string {
      PlotName(plot.left.facet, plot.yAxis, plot.right.facet) + ".csv"
    }

    /** The file `write` produces: the configured header, then as many lines
        as the longest of the six columns. */
    function Table(data: seq<Row>, labelsY: seq<string>, labelsX: seq<string>): CsvTable {
      CsvTable(FileName(), conf.fieldNames, Lines(data, labelsY, labelsX))
    }

    /** `write`: splits the rows into four columns, then zips those and the
        two label columns, padding the shorter ones. */
    method Write(data: seq<Row>, labelsY: seq<string>, labelsX: seq<string>) returns (t: CsvTable)
      ensures t == Table(data, labelsY, labelsX)
    {
      var yIndices: seq<Cell> := [];
      var xIndices: seq<Cell> := [];
      var occurrences: seq<Cell> := [];
      var yearScores: seq<Cell> := [];
      for k := 0 to |data|
        invariant |yIndices| == |xIndices| == |occurrences| == |yearScores| == k
        invariant forall j :: 0 <= j < k ==>
                    && yIndices[j] == Num(data[j].y) && xIndices[j] == Num(data[j].x)
                    && occurrences[j] == Num(data[j].occurrence) && yearScores[j] == Num(data[j].yearScore)
      {
        yIndices := yIndices + [Num(data[k].y)];
        xIndices := xIndices + [Num(data[k].x)];
        occurrences := occurrences + [Num(data[k].occurrence)];
        yearScores := yearScores + [Num(data[k].yearScore)];
      }
      var cols := [yIndices, xIndices, occurrences, yearScores, Texts(labelsY), Texts(labelsX)];
      var lines := ZipLongest(cols);
      var want := Table(data, labelsY, labelsX);
      assert |lines| == |want.lines| by {
        assert |cols[0]| == |data| && |cols[4]| == |labelsY| && |cols[5]| == |labelsX|;
      }
      forall i | 0 <= i < |lines| ensures lines[i] == want.lines[i] {
        assert |lines[i]| == 6;
        forall j | 0 <= j < 6 ensures lines[i][j] == want.lines[i][j] {
          assert want.lines[i] == Line(data, labelsY, labelsX, i);
        }
      }
      t := CsvTable(FileName(), conf.fieldNames, lines);
    }

    /** The rows `save_plot` writes, before sorting. */
    function Prepared(): (r: Result<seq<Row>>)
      requires plot.Valid()
      ensures |years| == 1 ==> r == Failure(ZeroDivision)
      ensures r.Success? ==> |r.value| == |plot.left.order| + |plot.right.order|
    {
      var (left, right, ys) := ComputeLabelsIndicesMapping();
      match YearScores()
      case Failure(e) => Failure(e)
      case Success(scores) => PreparedBubblesData(left.at, right.at, ys.at, scores)
    }

    /** The file `save_plot` writes: the rows sorted by x position, the y
        labels, and the left x labels followed by the right ones. */
    function SavedTable(): (r: Result<CsvTable>)
      requires plot.Valid()
      ensures |years| == 1 ==> r == Failure(ZeroDivision)
      ensures r.Success? ==> r.value.fileName == FileName() && r.value.header == conf.fieldNames
    {
      var (left, right, ys) := ComputeLabelsIndicesMapping();
      match Prepared()
      case Failure(e) => Failure(e)
      case Success(data) => Success(Table(SortByX(data), ys.keys, left.keys + right.keys))
    }

    /** `save_plot`. */
    method SavePlot() returns (r: Result<CsvTable>)
      requires plot.Valid()
      ensures r == SavedTable()
    {
      var (left, right, ys) := ComputeLabelsIndicesMapping();
      var scores := ComputeYearScoreMapping();
      if scores.Failure? {
        return Failure(scores.error);
      }
      var data := PreparedBubblesData(left.at, right.at, ys.at, scores.value);
      if data.Failure? {
        return Failure(data.error);
      }
      var t := Write(SortByX(data.value), ys.keys, left.keys + right.keys);
      return Success(t);
    }

    /** Every counted bubble's year is one of the writer's years. */
    ghost predicate YearsCovered() {
      && (forall b :: b in plot.left.tallies ==> plot.left.tallies[b].year in years)
      && (forall b :: b in plot.right.tallies ==> plot.right.tallies[b].year in years)
    }

    /** Every bubble's labels have positions in the computed dictionaries. */
    lemma LabelsPlaced()
      ensures var (left, right, ys) := ComputeLabelsIndicesMapping();
              && (forall b :: b in plot.left.tallies ==> b.labelX in left.at && b.labelY in ys.at)
              && (forall b :: b in plot.right.tallies ==> b.labelX in right.at && b.labelY in ys.at)
    {
      var (left, right, ys) := ComputeLabelsIndicesMapping();
      LeftPositions();
      RightPositions();
      YPositions();
      forall b | b in plot.left.tallies ensures b.labelX in left.at && b.labelY in ys.at {
        assert b.labelX in XLabels(plot.left);
        assert b.labelY in YLabels(plot);
      }
      forall b | b in plot.right.tallies ensures b.labelX in right.at && b.labelY in ys.at {
        assert b.labelX in XLabels(plot.right);
        assert b.labelY in YLabels(plot);
      }
    }

    /** The labels always have positions, so preparing the rows fails only
        on a single year (division by zero) or on a bubble whose year is not
        among the writer's years (a `KeyError` naming that year). */
    lemma PreparedOutcome()
      requires plot.Valid()
      ensures Prepared().Success? <==> |years| != 1 && YearsCovered()
      ensures |years| == 1 ==> Prepared() == Failure(ZeroDivision)
      ensures |years| != 1 && Prepared().Failure? ==>
                Prepared().error.MissingField? && Prepared().error.field !in years
    {
      YearScoresSpec();
      if |years| != 1 {
        var (left, right, ys) := ComputeLabelsIndicesMapping();
        var scores := YearScores().value;
        LabelsPlaced();
        var atLeft := Indices(left.at, ys.at, scores);
        var atRight := Indices(right.at, ys.at, scores);
        RowsOfYears(plot.left.order, plot.left.tallies, atLeft);
        RowsOfYears(plot.right.order, plot.right.tallies, atRight);
      }
    }

    /** `save_plot` fails exactly when preparing the rows does. */
    lemma SavedTableOutcome()
      requires plot.Valid()
      ensures SavedTable().Success? <==> |years| != 1 && YearsCovered()
      ensures |years| == 1 ==> SavedTable() == Failure(ZeroDivision)
      ensures |years| != 1 && SavedTable().Failure? ==>
                SavedTable().error.MissingField? && SavedTable().error.field !in years
    {
      PreparedOutcome();
    }

    /** Each side has no more labels than bubbles, so `zip_longest` never
        pads: the file has exactly one line per bubble, each with its four
        numbers, and the x positions never decrease down the file. */
    lemma SavedTableShape()
      requires plot.Valid() && SavedTable().Success?
      ensures SavedTable().value.fileName == FileName() && SavedTable().value.header == conf.fieldNames
      ensures |SavedTable().value.lines| == |plot.left.order| + |plot.right.order|
      ensures Unpadded(SavedTable().value.lines) && XColumnSorted(SavedTable().value.lines)
    {
      var (left, right, ys) := ComputeLabelsIndicesMapping();
      var data := Prepared().value;
      var sorted := SortByX(data);
      assert |sorted| == |data| by {
        assert |multiset(sorted)| == |multiset(data)|;
      }
      DistinctSize(plot.left.order, plot.left.tallies.Keys);
      DistinctSize(plot.right.order, plot.right.tallies.Keys);
      LabelsXBound(plot.left.tallies.Keys);
      LabelsXBound(plot.right.tallies.Keys);
      LabelsYBound(plot.right.tallies.Keys + plot.left.tallies.Keys);
      LinesShape(sorted, ys.keys, left.keys + right.keys);
    }
  }
}
