/**
 * `compute_occurences_from`: folding every record into a fresh plot and
 * collecting the years. The fold is proved against a declarative account of
 * the result: for each side, a bubble's count is the number of records that
 * produce it there and its year is the least of their years.
 */
module Aggregation {
  import opened Base
  import opened StringOrder
  import opened BubbleIndex

  /** One record as one side sees it: the bubble it produces and its year. */
  datatype Sighting = Sighting(bubble: Bubble, year: string)

  /** The record carries the year field and all three facets. */
  predicate Complete(e: Entry, facets: Facets, classYear: string) {
    classYear in e && facets.xLeft in e && facets.y in e && facets.xRight in e
  }

  predicate AllComplete(entries: seq<Entry>, facets: Facets, classYear: string) {
    forall i :: 0 <= i < |entries| ==> Complete(entries[i], facets, classYear)
  }

  /** The error processing one record raises, in the order the lookups are
      made: the year field, then the left side, then the right side. */
  function EntryError(e: Entry, facets: Facets, classYear: string): (r: Option<Error>)
    ensures r.None? <==> Complete(e, facets, classYear)
  {
    if classYear !in e then Some(MissingField(classYear))
    else if Lookup(e, facets.xLeft, facets.y).Failure? then Some(Lookup(e, facets.xLeft, facets.y).error)
    else if Lookup(e, facets.xRight, facets.y).Failure? then Some(Lookup(e, facets.xRight, facets.y).error)
    else None
  }

  /** The error of the first record that has one. */
  function FirstError(entries: seq<Entry>, facets: Facets, classYear: string): (r: Option<Error>)
    ensures r.None? <==> AllComplete(entries, facets, classYear)
  {
    if entries == [] then None
    else if EntryError(entries[0], facets, classYear).Some? then EntryError(entries[0], facets, classYear)
    else FirstError(entries[1..], facets, classYear)
  }

  /** What one side sees of every record, in record order. */
  function Sightings(entries: seq<Entry>, facet: string, yAxis: string, classYear: string): (r: seq<Sighting>)
    requires forall i :: 0 <= i < |entries| ==> facet in entries[i] && yAxis in entries[i] && classYear in entries[i]
    ensures |r| == |entries|
  {
    if entries == [] then []
    else
      var e := entries[|entries| - 1];
      Sightings(entries[..|entries| - 1], facet, yAxis, classYear)
        + [Sighting(Bubble(e[facet], e[yAxis]), e[classYear])]
  }

  /** The years of the sightings of `b`, in record order. */
  function YearsOf(ss: seq<Sighting>, b: Bubble): seq<string> {
    if ss == [] then []
    else
      var last := ss[|ss| - 1];
      YearsOf(ss[..|ss| - 1], b) + (if last.bubble == b then [last.year] else [])
  }

  /** Repeated `min`, as the counter applies it record after record. */
  function Earliest(ys: seq<string>): string
    requires ys != []
  {
    if |ys| == 1 then ys[0] else Min(Earliest(ys[..|ys| - 1]), ys[|ys| - 1])
  }

  /** The distinct bubbles in the order they were first seen. */
  function FirstSeen(ss: seq<Sighting>): seq<Bubble> {
    if ss == [] then []
    else
      var seen := FirstSeen(ss[..|ss| - 1]);
      var b := ss[|ss| - 1].bubble;
      if b in seen then seen else seen + [b]
  }

  lemma {:induction false} SeenIffSighted(ss: seq<Sighting>)
    ensures forall b :: b in FirstSeen(ss) <==> YearsOf(ss, b) != []
    ensures Distinct(FirstSeen(ss))
  {
    if ss != [] {
      SeenIffSighted(ss[..|ss| - 1]);
    }
  }

  /** The tally `Expected` gives a bubble that has been sighted. */
  function TallyOf(ss: seq<Sighting>, b: Bubble): Tally
    requires YearsOf(ss, b) != []
  {
    Tally(|YearsOf(ss, b)|, Earliest(YearsOf(ss, b)))
  }

  /** The side that the records of `ss` should produce. */
  function Expected(ss: seq<Sighting>, facet: string): SideData {
    SeenIffSighted(ss);
    SideData(facet, FirstSeen(ss),
             map b | b in FirstSeen(ss) :: TallyOf(ss, b))
  }

  /** The plot that complete records should produce. */
  function ExpectedPlot(entries: seq<Entry>, facets: Facets, classYear: string): PlotData
    requires AllComplete(entries, facets, classYear)
  {
    PlotData(facets.y,
             Expected(Sightings(entries, facets.xLeft, facets.y, classYear), facets.xLeft),
             Expected(Sightings(entries, facets.xRight, facets.y, classYear), facets.xRight))
  }

  /** The set of years of the records. */
  function YearSet(entries: seq<Entry>, classYear: string): set<string>
    requires forall i :: 0 <= i < |entries| ==> classYear in entries[i]
  {
    set i | 0 <= i < |entries| :: entries[i][classYear]
  }

  /** The stored year is the least year of the records behind the bubble. */
  lemma {:induction false} EarliestIsLeast(ys: seq<string>)
    requires ys != []
    ensures Earliest(ys) in ys
    ensures forall y :: y in ys ==> LessOrEqual(Earliest(ys), y)
  {
    if |ys| > 1 {
      var init := ys[..|ys| - 1];
      EarliestIsLeast(init);
      var e := Earliest(init);
      var last := ys[|ys| - 1];
      assert ys == init + [last];
      forall y | y in ys ensures LessOrEqual(Min(e, last), y) {
        if y in init && Min(e, last) != y {
          if Min(e, last) != e && e != y {
            Transitive(last, e, y);
          }
        }
      }
    }
  }

  lemma YearsOfStep(ss: seq<Sighting>, s: Sighting, b: Bubble)
    ensures YearsOf(ss + [s], b) == YearsOf(ss, b) + (if s.bubble == b then [s.year] else [])
  {
    assert (ss + [s])[..|ss|] == ss;
  }

  lemma EarliestStep(ys: seq<string>, y: string)
    requires ys != []
    ensures Earliest(ys + [y]) == Min(Earliest(ys), y)
  {
    assert (ys + [y])[..|ys|] == ys;
  }

  lemma TallyStep(ss: seq<Sighting>, s: Sighting, b: Bubble)
    requires YearsOf(ss + [s], b) != []
    ensures b != s.bubble ==> YearsOf(ss, b) != [] && TallyOf(ss + [s], b) == TallyOf(ss, b)
    ensures b == s.bubble && YearsOf(ss, b) == [] ==> TallyOf(ss + [s], b) == Tally(1, s.year)
    ensures b == s.bubble && YearsOf(ss, b) != [] ==> TallyOf(ss + [s], b) == TallyOf(ss, b).Bumped(s.year)
  {
    YearsOfStep(ss, s, b);
    if b != s.bubble {
      var ys := YearsOf(ss, b);
      assert ys + [] == ys;
      assert YearsOf(ss + [s], b) == ys;
    } else if YearsOf(ss, b) != [] {
      EarliestStep(YearsOf(ss, b), s.year);
    }
  }

  /** One more record changes the expected side exactly as `SplitXAxis.update`
      changes the real one. */
  lemma {:induction false} ExpectedStep(ss: seq<Sighting>, s: Sighting, facet: string)
    ensures Expected(ss + [s], facet) == Expected(ss, facet).Record(s.bubble, s.year)
  {
    var ss' := ss + [s];
    assert ss'[..|ss'| - 1] == ss;
    var before := Expected(ss, facet);
    var after := Expected(ss', facet);
    var want := before.Record(s.bubble, s.year);
    SeenIffSighted(ss);
    SeenIffSighted(ss');
    assert after.order == want.order;
    forall b | b in after.tallies
      ensures b in want.tallies && after.tallies[b] == want.tallies[b]
    {
      YearsOfStep(ss, s, b);
      TallyStep(ss, s, b);
    }
    forall b | b in want.tallies ensures b in after.tallies {
      YearsOfStep(ss, s, b);
    }
    assert after.tallies.Keys == want.tallies.Keys;
  }

  lemma {:induction false} SightingsStep(entries: seq<Entry>, i: nat, facet: string, yAxis: string, classYear: string)
    requires i < |entries|
    requires forall j :: 0 <= j < |entries| ==> facet in entries[j] && yAxis in entries[j] && classYear in entries[j]
    ensures Sightings(entries[..i + 1], facet, yAxis, classYear)
         == Sightings(entries[..i], facet, yAxis, classYear)
            + [Sighting(Bubble(entries[i][facet], entries[i][yAxis]), entries[i][classYear])]
  {
    assert entries[..i + 1][..i] == entries[..i];
  }

  /** One more complete record changes the expected plot as `BubblePlot.update`
      changes the real one. */
  lemma ExpectedPlotStep(entries: seq<Entry>, e: Entry, facets: Facets, classYear: string)
    requires AllComplete(entries, facets, classYear) && Complete(e, facets, classYear)
    ensures AllComplete(entries + [e], facets, classYear)
    ensures ExpectedPlot(entries, facets, classYear).Update(e, e[classYear])
         == (Pass, ExpectedPlot(entries + [e], facets, classYear))
  {
    var all := entries + [e];
    assert all[..|entries|] == entries;
    SightingsStep(all, |entries|, facets.xLeft, facets.y, classYear);
    SightingsStep(all, |entries|, facets.xRight, facets.y, classYear);
    assert all[..|entries| + 1] == all;
    ExpectedStep(Sightings(entries, facets.xLeft, facets.y, classYear),
                 Sighting(Bubble(e[facets.xLeft], e[facets.y]), e[classYear]), facets.xLeft);
    ExpectedStep(Sightings(entries, facets.xRight, facets.y, classYear),
                 Sighting(Bubble(e[facets.xRight], e[facets.y]), e[classYear]), facets.xRight);
  }

  /** The first error of one more record: the earlier records' first error
      if there is one, otherwise the new record's own. */
  lemma {:induction false} FirstErrorStep(entries: seq<Entry>, e: Entry, facets: Facets, classYear: string)
    ensures FirstError(entries + [e], facets, classYear)
         == if FirstError(entries, facets, classYear).Some? then FirstError(entries, facets, classYear)
            else EntryError(e, facets, classYear)
  {
    if entries != [] {
      assert (entries + [e])[1..] == entries[1..] + [e];
      FirstErrorStep(entries[1..], e, facets, classYear);
    }
  }

  lemma YearSetStep(entries: seq<Entry>, e: Entry, classYear: string)
    requires forall i :: 0 <= i < |entries| ==> classYear in entries[i]
    requires classYear in e
    ensures YearSet(entries + [e], classYear) == YearSet(entries, classYear) + {e[classYear]}
  {
    var all := entries + [e];
    assert forall i :: 0 <= i < |entries| ==> all[i] == entries[i];
    assert all[|entries|] == e;
  }

  /** `BubblePlot.update` on a record that has the year field passes
      exactly when the record is complete, and otherwise fails with the
      error the record carries. */
  lemma UpdateOutcome(d: PlotData, e: Entry, facets: Facets, classYear: string)
    requires d.yAxis == facets.y && d.left.facet == facets.xLeft && d.right.facet == facets.xRight
    requires classYear in e
    ensures d.Update(e, e[classYear]).0 == Pass <==> Complete(e, facets, classYear)
    ensures d.Update(e, e[classYear]).0.Fail? ==>
              EntryError(e, facets, classYear) == Some(d.Update(e, e[classYear]).0.error)
  {
    d.UpdateSpec(e, e[classYear]);
  }

  /** What aggregating the records should give: the first error any record
      raises, or else the expected plot and the set of years. */
  function Aggregate(entries: seq<Entry>, facets: Facets, classYear: string): Result<(PlotData, set<string>)> {
    match FirstError(entries, facets, classYear)
    case Some(err) => Failure(err)
    case None => Success((ExpectedPlot(entries, facets, classYear), YearSet(entries, classYear)))
  }

  /** `compute_occurences_from` on the first `n` records, as a value: the
      loop body applied record by record, stopping at the first error. */
  function Run(entries: seq<Entry>, n: nat, facets: Facets, classYear: string): (r: Result<(PlotData, set<string>)>)
    requires n <= |entries|
    ensures r.Success? ==> forall k :: 0 <= k < n ==> classYear in entries[k]
    ensures r.Success? ==> r.value.1 == set k | 0 <= k < n :: entries[k][classYear]
  {
    if n == 0 then
      Success((PlotData(facets.y, SideData(facets.xLeft, [], map[]), SideData(facets.xRight, [], map[])), {}))
    else
      match Run(entries, n - 1, facets, classYear)
      case Failure(err) => Failure(err)
      case Success((d, years)) =>
        var e := entries[n - 1];
        if classYear !in e then Failure(MissingField(classYear))
        else
          var (outcome, d') := d.Update(e, e[classYear]);
          if outcome.Fail? then Failure(outcome.error) else Success((d', years + {e[classYear]}))
  }

  /** Once an error is raised, later records change nothing. */
  lemma {:induction false} RunStops(entries: seq<Entry>, i: nat, n: nat, facets: Facets, classYear: string)
    requires i <= n <= |entries| && Run(entries, i, facets, classYear).Failure?
    ensures Run(entries, n, facets, classYear) == Run(entries, i, facets, classYear)
    decreases n
  {
    if i < n {
      RunStops(entries, i, n - 1, facets, classYear);
    }
  }

  /** The declarative account of one more record: whatever the records
      before it give, followed by what the loop body does with it. */
  lemma AggregateStep(prefix: seq<Entry>, e: Entry, facets: Facets, classYear: string)
    ensures Aggregate(prefix + [e], facets, classYear) ==
              match Aggregate(prefix, facets, classYear)
              case Failure(err) => Failure(err)
              case Success((d, years)) =>
                if classYear !in e then Failure(MissingField(classYear))
                else
                  var (outcome, d') := d.Update(e, e[classYear]);
                  if outcome.Fail? then Failure(outcome.error) else Success((d', years + {e[classYear]}))
  {
    FirstErrorStep(prefix, e, facets, classYear);
    if FirstError(prefix, facets, classYear).None? && classYear in e {
      var d := ExpectedPlot(prefix, facets, classYear);
      UpdateOutcome(d, e, facets, classYear);
      if Complete(e, facets, classYear) {
        ExpectedPlotStep(prefix, e, facets, classYear);
        YearSetStep(prefix, e, classYear);
      }
    }
  }

  /** Counting record by record agrees with the declarative account on every
      prefix of the records. */
  lemma {:induction false} RunIsAggregate(entries: seq<Entry>, n: nat, facets: Facets, classYear: string)
    requires n <= |entries|
    ensures Run(entries, n, facets, classYear) == Aggregate(entries[..n], facets, classYear)
  {
    if n > 0 {
      assert entries[..n] == entries[..n - 1] + [entries[n - 1]];
      RunIsAggregate(entries, n - 1, facets, classYear);
      AggregateStep(entries[..n - 1], entries[n - 1], facets, classYear);
    } else {
      var none: seq<Entry> := [];
      assert entries[..0] == none;
      assert Sightings(none, facets.xLeft, facets.y, classYear) == [];
      assert Sightings(none, facets.xRight, facets.y, classYear) == [];
      assert Expected([], facets.xLeft) == SideData(facets.xLeft, [], map[]);
      assert Expected([], facets.xRight) == SideData(facets.xRight, [], map[]);
      assert YearSet(none, classYear) == {};
    }
  }

  /** The whole run: a missing field anywhere yields the first record's
      error; otherwise every bubble has as many occurrences as records
      produce it and their least year, and the years are those of all the
      records. */
  lemma RunAllIsAggregate(entries: seq<Entry>, facets: Facets, classYear: string)
    ensures Run(entries, |entries|, facets, classYear) == Aggregate(entries, facets, classYear)
  {
    RunIsAggregate(entries, |entries|, facets, classYear);
    assert entries[..|entries|] == entries;
  }

  /** Count every record into an empty plot and collect the years. The
      first record that lacks a field raises, and the plot is then
      discarded. */
  method ComputeOccurrencesFrom(entries: seq<Entry>, plotPlan: Facets, conf: Config)
    returns (r: Result<(PlotData, set<string>)>)
    ensures r == Aggregate(entries, plotPlan, conf.classYear)
  {
    var years: set<string> := {};
    var plot := PlotData(plotPlan.y, SideData(plotPlan.xLeft, [], map[]), SideData(plotPlan.xRight, [], map[]));
    var i := 0;
    while i < |entries|
      invariant i <= |entries|
      invariant Run(entries, i, plotPlan, conf.classYear) == Success((plot, years))
    {
      var entry := entries[i];
      if conf.classYear !in entry {
        r := Failure(MissingField(conf.classYear));
        RunStops(entries, i + 1, |entries|, plotPlan, conf.classYear);
        RunAllIsAggregate(entries, plotPlan, conf.classYear);
        return;
      }
      var year := entry[conf.classYear];
      var step := plot.Update(entry, year);
      var outcome := step.0;
      plot := step.1;
      if outcome.Fail? {
        r := Failure(outcome.error);
        RunStops(entries, i + 1, |entries|, plotPlan, conf.classYear);
        RunAllIsAggregate(entries, plotPlan, conf.classYear);
        return;
      }
      years := years + {year};
      i := i + 1;
    }
    r := Success((plot, years));
    RunAllIsAggregate(entries, plotPlan, conf.classYear);
  }

  /** Every year recorded for a bubble is the year of one of the sightings. */
  lemma {:induction false} YearsOfSighted(ss: seq<Sighting>, b: Bubble)
    ensures forall y :: y in YearsOf(ss, b) ==> exists k :: 0 <= k < |ss| && ss[k].year == y
  {
    if ss != [] {
      var init := ss[..|ss| - 1];
      YearsOfSighted(init, b);
      forall y | y in YearsOf(ss, b) ensures exists k :: 0 <= k < |ss| && ss[k].year == y {
        if y in YearsOf(init, b) {
          var k :| 0 <= k < |init| && init[k].year == y;
          assert ss[k] == init[k];
        } else {
          assert ss[|ss| - 1].year == y;
        }
      }
    }
  }

  /** The `k`-th sighting is what the `k`-th record shows the side. */
  lemma {:induction false} SightingsAt(entries: seq<Entry>, facet: string, yAxis: string, classYear: string)
    requires forall i :: 0 <= i < |entries| ==> facet in entries[i] && yAxis in entries[i] && classYear in entries[i]
    ensures forall k :: 0 <= k < |entries| ==>
              Sightings(entries, facet, yAxis, classYear)[k]
                == Sighting(Bubble(entries[k][facet], entries[k][yAxis]), entries[k][classYear])
  {
    if entries != [] {
      var init := entries[..|entries| - 1];
      SightingsAt(init, facet, yAxis, classYear);
      forall k | 0 <= k < |init| ensures entries[k] == init[k] { }
    }
  }

  /** The expected side is well formed, and each bubble's year is the year
      of one of its sightings. */
  lemma ExpectedValid(ss: seq<Sighting>, facet: string)
    ensures Expected(ss, facet).Valid()
    ensures forall b :: b in Expected(ss, facet).tallies ==>
              exists k :: 0 <= k < |ss| && ss[k].year == Expected(ss, facet).tallies[b].year
  {
    SeenIffSighted(ss);
    var side := Expected(ss, facet);
    forall b | b in side.tallies
      ensures side.tallies[b].occurrence >= 1
      ensures exists k :: 0 <= k < |ss| && ss[k].year == side.tallies[b].year
    {
      EarliestIsLeast(YearsOf(ss, b));
      YearsOfSighted(ss, b);
    }
  }

  /** A plot that aggregation produces is well formed, and every bubble's
      year is among the collected years: the CSV writer can always look it
      up. */
  lemma AggregateReady(entries: seq<Entry>, facets: Facets, classYear: string)
    requires Aggregate(entries, facets, classYear).Success?
    ensures Aggregate(entries, facets, classYear).value.0.Valid()
    ensures var (plot, years) := Aggregate(entries, facets, classYear).value;
            && (forall b :: b in plot.left.tallies ==> plot.left.tallies[b].year in years)
            && (forall b :: b in plot.right.tallies ==> plot.right.tallies[b].year in years)
  {
    var left := Sightings(entries, facets.xLeft, facets.y, classYear);
    var right := Sightings(entries, facets.xRight, facets.y, classYear);
    var years := YearSet(entries, classYear);
    ExpectedValid(left, facets.xLeft);
    ExpectedValid(right, facets.xRight);
    SightingsAt(entries, facets.xLeft, facets.y, classYear);
    SightingsAt(entries, facets.xRight, facets.y, classYear);
    forall k | 0 <= k < |entries| ensures left[k].year in years && right[k].year in years {
      assert entries[k][classYear] in years;
    }
  }

  /** With at least one record every side has a bubble; with none, the
      plot is empty. */
  lemma AggregateEmpty(entries: seq<Entry>, facets: Facets, classYear: string)
    requires Aggregate(entries, facets, classYear).Success?
    ensures var plot := Aggregate(entries, facets, classYear).value.0;
            && (entries == [] <==> plot.left.order == [])
            && (entries == [] <==> plot.right.order == [])
  {
    var left := Sightings(entries, facets.xLeft, facets.y, classYear);
    var right := Sightings(entries, facets.xRight, facets.y, classYear);
    if entries != [] {
      assert left[..|left| - 1] + [left[|left| - 1]] == left;
      assert right[..|right| - 1] + [right[|right| - 1]] == right;
    }
  }

  /** The indices of the sightings of `b`. */
  function SightedAt(ss: seq<Sighting>, b: Bubble): set<nat> {
    set k: nat | k < |ss| && ss[k].bubble == b
  }

  /** `YearsOf` holds one year per sighting of `b`, and exactly the years
      of those sightings. */
  lemma {:induction false} YearsOfCounts(ss: seq<Sighting>, b: Bubble)
    ensures |YearsOf(ss, b)| == |SightedAt(ss, b)|
    ensures forall y :: y in YearsOf(ss, b) <==> exists k :: k in SightedAt(ss, b) && ss[k].year == y
  {
    if ss != [] {
      var init := ss[..|ss| - 1];
      var last := ss[|ss| - 1];
      YearsOfCounts(init, b);
      assert forall k :: 0 <= k < |init| ==> ss[k] == init[k];
      if last.bubble == b {
        assert SightedAt(ss, b) == SightedAt(init, b) + {|init|};
      } else {
        assert SightedAt(ss, b) == SightedAt(init, b);
      }
      forall y ensures y in YearsOf(ss, b) <==> exists k :: k in SightedAt(ss, b) && ss[k].year == y {
        if y in YearsOf(ss, b) {
          if y in YearsOf(init, b) {
            var k :| k in SightedAt(init, b) && init[k].year == y;
            assert k in SightedAt(ss, b) && ss[k].year == y;
          } else {
            assert |init| in SightedAt(ss, b) && ss[|init|].year == y;
          }
        }
        if exists k :: k in SightedAt(ss, b) && ss[k].year == y {
          var k :| k in SightedAt(ss, b) && ss[k].year == y;
          if k < |init| {
            assert k in SightedAt(init, b) && init[k].year == y;
          }
        }
      }
    }
  }

  /** The records that produce bubble `b` on the side of `facet`. */
  function Producing(entries: seq<Entry>, facet: string, yAxis: string, b: Bubble): set<nat>
    requires forall i :: 0 <= i < |entries| ==> facet in entries[i] && yAxis in entries[i]
  {
    set k: nat | k < |entries| && Bubble(entries[k][facet], entries[k][yAxis]) == b
  }

  /** The years of the records that produce bubble `b`. */
  function ProducingYears(entries: seq<Entry>, facet: string, yAxis: string, classYear: string, b: Bubble): set<string>
    requires forall i :: 0 <= i < |entries| ==> facet in entries[i] && yAxis in entries[i] && classYear in entries[i]
  {
    set k | k in Producing(entries, facet, yAxis, b) :: entries[k][classYear]
  }

  /** A side holds exactly the bubbles some record produces, each with the
      number of those records and the least of their years. */
  ghost predicate CountsRecords(side: SideData, entries: seq<Entry>, facet: string, yAxis: string, classYear: string)
    requires forall i :: 0 <= i < |entries| ==> facet in entries[i] && yAxis in entries[i] && classYear in entries[i]
  {
    forall b ::
      && (b in side.tallies <==> Producing(entries, facet, yAxis, b) != {})
      && (b in side.tallies ==>
            && side.tallies[b].occurrence == |Producing(entries, facet, yAxis, b)|
            && IsLeast(side.tallies[b].year, ProducingYears(entries, facet, yAxis, classYear, b)))
  }

  lemma SideCounts(entries: seq<Entry>, facet: string, yAxis: string, classYear: string)
    requires forall i :: 0 <= i < |entries| ==> facet in entries[i] && yAxis in entries[i] && classYear in entries[i]
    ensures CountsRecords(Expected(Sightings(entries, facet, yAxis, classYear), facet), entries, facet, yAxis, classYear)
  {
    var ss := Sightings(entries, facet, yAxis, classYear);
    var side := Expected(ss, facet);
    SightingsAt(entries, facet, yAxis, classYear);
    SeenIffSighted(ss);
    forall b
      ensures b in side.tallies <==> Producing(entries, facet, yAxis, b) != {}
      ensures b in side.tallies ==>
                && side.tallies[b].occurrence == |Producing(entries, facet, yAxis, b)|
                && IsLeast(side.tallies[b].year, ProducingYears(entries, facet, yAxis, classYear, b))
    {
      YearsOfCounts(ss, b);
      assert SightedAt(ss, b) == Producing(entries, facet, yAxis, b);
      if YearsOf(ss, b) != [] {
        var ys := YearsOf(ss, b);
        EarliestIsLeast(ys);
        forall y ensures y in ys <==> y in ProducingYears(entries, facet, yAxis, classYear, b) {
          if y in ys {
            var k :| k in SightedAt(ss, b) && ss[k].year == y;
            assert entries[k][classYear] == y;
          }
          if y in ProducingYears(entries, facet, yAxis, classYear, b) {
            var k :| k in Producing(entries, facet, yAxis, b) && entries[k][classYear] == y;
            assert k in SightedAt(ss, b) && ss[k].year == y;
          }
        }
      }
    }
  }

  /** What aggregation produces, read off the records: each side holds the
      bubbles some record produces, each counted once per such record and
      dated with the least of their years. */
  lemma AggregateCounts(entries: seq<Entry>, facets: Facets, classYear: string)
    requires Aggregate(entries, facets, classYear).Success?
    ensures AllComplete(entries, facets, classYear)
    ensures CountsRecords(Aggregate(entries, facets, classYear).value.0.left, entries, facets.xLeft, facets.y, classYear)
    ensures CountsRecords(Aggregate(entries, facets, classYear).value.0.right, entries, facets.xRight, facets.y, classYear)
  {
    SideCounts(entries, facets.xLeft, facets.y, classYear);
    SideCounts(entries, facets.xRight, facets.y, classYear);
  }
}
