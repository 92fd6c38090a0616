/**
 * The aggregation state of a bubble plot: the per-bubble counter
 * (`Occurrence`), one side of the split x axis (`SplitXAxis`, a dictionary
 * from bubble to counter kept in insertion order) and the plot itself
 * (`BubblePlot`), together with the value snapshots the rest of the model
 * reads once aggregation is over.
 */
module BubbleIndex {
  import opened Base
  import opened StringOrder

  /** An input record: field name to string value. */
  type Entry = map<string, string>

  /** Names of the three facets of a plot. */
  datatype Facets = Facets(y: string, xLeft: string, xRight: string)

  /** Settings of a plot. The colour map is not a field here: the template
      filler takes it as a parameter over an abstract colour type. */
  datatype Config = Config(
    xLeftOffset: int,
    xRightOffset: int,
    classYear: string,
    fieldNames: seq<string>,
    latexTemplate: string,
    outputDir: string)

  /** A point of one side of the plot, keyed by value. */
  datatype Bubble = Bubble(labelX: string, labelY: string)

  /** The value held by an `Occurrence` at one moment. */
  datatype Tally = Tally(occurrence: nat, year: string) {

    /** What `Occurrence.update(newYear)` makes of this tally: one more
        occurrence, and the earlier of the two years. */
    function Bumped(newYear: string): (t: Tally)
      ensures t.occurrence == occurrence + 1
      ensures t.year == year || t.year == newYear
      ensures LessOrEqual(t.year, year) && LessOrEqual(t.year, newYear)
    {
      Tally(occurrence + 1, Min(year, newYear))
    }
  }

  /** Counter of one bubble: how many records produced it, and the earliest
      year among them. */
  class Occurrence {
    var occurrence: nat
    var year: string

    function Snapshot(): Tally
      reads this
    {
      Tally(occurrence, year)
    }

    constructor (year: string)
      ensures Snapshot() == Tally(1, year)
    {
      this.occurrence := 1;
      this.year := year;
    }

    method Update(newYear: string)
      modifies this
      ensures Snapshot() == old(Snapshot()).Bumped(newYear)
      ensures occurrence == old(occurrence) + 1
      ensures LessOrEqual(year, old(year)) && LessOrEqual(year, newYear)
    {
      occurrence := occurrence + 1;
      year := Min(year, newYear);
    }
  }

  /** Value view of one side: its facet, its bubbles in insertion order and
      the tally of each. */
  datatype SideData = SideData(facet: string, order: seq<Bubble>, tallies: map<Bubble, Tally>) {

    ghost predicate Valid() {
      && Distinct(order)
      && (forall b :: b in order <==> b in tallies)
      && (forall b :: b in tallies ==> tallies[b].occurrence >= 1)
    }

    /** The side once one more record has produced bubble `b` in `year`:
        a fresh tally for a new bubble, a bumped one for a known bubble. */
    function Record(b: Bubble, year: string): (d: SideData)
      ensures d.facet == facet
    {
      if b in tallies then SideData(facet, order, tallies[b := tallies[b].Bumped(year)])
      else SideData(facet, order + [b], tallies[b := Tally(1, year)])
    }

    /** What `Record` does to the bubble it records and to every other one,
        and that it keeps the side well formed. */
    lemma RecordSpec(b: Bubble, year: string)
      ensures Valid() ==> Record(b, year).Valid()
      ensures b in Record(b, year).tallies
      ensures b !in tallies ==> Record(b, year).tallies[b] == Tally(1, year) && Record(b, year).order == order + [b]
      ensures b in tallies ==>
                && Record(b, year).tallies[b].occurrence == tallies[b].occurrence + 1
                && Record(b, year).tallies[b].year == Min(tallies[b].year, year)
                && Record(b, year).order == order
      ensures forall c :: c != b ==> (c in Record(b, year).tallies <==> c in tallies)
      ensures forall c :: c != b && c in tallies ==> Record(b, year).tallies[c] == tallies[c]
    {
    }
  }

  /** The two lookups `SplitXAxis.update` makes before it changes anything:
      the side's own facet first (an "x axis" error), then the y facet (a
      "y axis" error). */
  function Lookup(entry: Entry, facet: string, yAxis: string): (r: Result<Bubble>)
    ensures r.Success? <==> facet in entry && yAxis in entry
    ensures facet !in entry ==> r == Failure(UnknownFacet(facet, X))
    ensures facet in entry && yAxis !in entry ==> r == Failure(UnknownFacet(yAxis, Y))
    ensures r.Success? ==> r.value.labelX == entry[facet] && r.value.labelY == entry[yAxis]
  {
    if facet !in entry then Failure(UnknownFacet(facet, X))
    else if yAxis !in entry then Failure(UnknownFacet(yAxis, Y))
    else Success(Bubble(entry[facet], entry[yAxis]))
  }

  /** One side of the split x axis. */
  class SplitXAxis {
    const facet: string
    var bubbles: map<Bubble, Occurrence>
    /** the insertion order of `bubbles`, which a Python dict keeps */
    var order: seq<Bubble>

    /** Distinct bubbles have distinct counters. */
    ghost predicate Valid()
      reads this, bubbles.Values
    {
      forall b, c :: b in bubbles && c in bubbles && b != c ==> bubbles[b] != bubbles[c]
    }

    function Data(): SideData
      reads this, bubbles.Values
    {
      SideData(facet, order, map b | b in bubbles :: bubbles[b].Snapshot())
    }

    constructor (facet: string)
      ensures Valid()
      ensures Data() == SideData(facet, [], map[])
      ensures bubbles == map[]
    {
      this.facet := facet;
      bubbles := map[];
      order := [];
    }

    /** Count `entry` on this side; on a missing facet nothing changes. */
    method Update(entry: Entry, year: string, yAxis: string) returns (r: Outcome)
      requires Valid()
      modifies this, bubbles.Values
      ensures Valid()
      ensures fresh(bubbles.Values - old(bubbles.Values))
      ensures Lookup(entry, facet, yAxis).Failure? ==>
                r == Fail(Lookup(entry, facet, yAxis).error) && Data() == old(Data())
      ensures Lookup(entry, facet, yAxis).Success? ==>
                r == Pass && Data() == old(Data()).Record(Lookup(entry, facet, yAxis).value, year)
      ensures old(Data()).Valid() ==> Data().Valid()
    {
      var lookup := Lookup(entry, facet, yAxis);
      if lookup.Failure? {
        return Fail(lookup.error);
      }
      var bubble := lookup.value;
      ghost var before := Data();
      if bubble in bubbles {
        var occ := bubbles[bubble];
        occ.Update(year);
        assert forall c :: c in bubbles && c != bubble ==> bubbles[c] != occ;
        assert Data().tallies == before.tallies[bubble := before.tallies[bubble].Bumped(year)];
      } else {
        var occ := new Occurrence(year);
        bubbles := bubbles[bubble := occ];
        order := order + [bubble];
        assert Data().tallies == before.tallies[bubble := Tally(1, year)];
      }
      before.RecordSpec(bubble, year);
      r := Pass;
    }
  }

  /** Both sides of the x axis. */
  datatype XAxis = XAxis(left: SplitXAxis, right: SplitXAxis)

  /** Value view of a whole plot. */
  datatype PlotData = PlotData(yAxis: string, left: SideData, right: SideData) {
    ghost predicate Valid() {
      left.Valid() && right.Valid()
    }

    /** `BubblePlot.update`: count `entry` on the left side, then on the
        right side. The two are not one step: a record that lacks only the
        right facet has already been counted on the left when the error is
        reported. */
    function Update(entry: Entry, year: string): (r: (Outcome, PlotData))
      ensures r.1.yAxis == yAxis && r.1.left.facet == left.facet && r.1.right.facet == right.facet
    {
      match Lookup(entry, left.facet, yAxis)
      case Failure(e) => (Fail(e), this)
      case Success(lb) =>
        var counted := this.(left := left.Record(lb, year));
        match Lookup(entry, right.facet, yAxis)
        case Failure(e) => (Fail(e), counted)
        case Success(rb) => (Pass, counted.(right := right.Record(rb, year)))
    }

    /** The outcome of `Update`, side by side: a missing left facet (or y)
        changes nothing; a missing right facet leaves the left side counted. */
    lemma UpdateSpec(entry: Entry, year: string)
      ensures Update(entry, year).0 == Pass <==> left.facet in entry && right.facet in entry && yAxis in entry
      ensures Lookup(entry, left.facet, yAxis).Failure? ==>
                Update(entry, year) == (Fail(Lookup(entry, left.facet, yAxis).error), this)
      ensures Lookup(entry, left.facet, yAxis).Success? ==>
                Update(entry, year).1.left == left.Record(Lookup(entry, left.facet, yAxis).value, year)
      ensures Lookup(entry, left.facet, yAxis).Success? && Lookup(entry, right.facet, yAxis).Failure? ==>
                Update(entry, year).0 == Fail(Lookup(entry, right.facet, yAxis).error) && Update(entry, year).1.right == right
      ensures Update(entry, year).0 == Pass ==>
                Update(entry, year).1.right == right.Record(Lookup(entry, right.facet, yAxis).value, year)
      ensures Valid() ==> Update(entry, year).1.Valid()
    {
      match Lookup(entry, left.facet, yAxis)
      case Failure(e) =>
      case Success(lb) =>
        left.RecordSpec(lb, year);
        match Lookup(entry, right.facet, yAxis)
        case Failure(e) =>
        case Success(rb) => right.RecordSpec(rb, year);
    }
  }

  /** `left + "_" + y + "_" + right`, the identifier output files are named after. */
  function PlotName(left: string, y: string, right: string): (s: string)
    ensures |s| == |left| + |y| + |right| + 2
    ensures s[..|left|] == left && s[|left|] == '_'
    ensures s[|left| + 1..|left| + 1 + |y|] == y && s[|left| + 1 + |y|] == '_'
    ensures s[|left| + |y| + 2..] == right
  {
    left + "_" + y + "_" + right
  }

  /** A facet name without the separator. */
  predicate NoSeparator(name: string) {
    forall i :: 0 <= i < |name| ==> name[i] != '_'
  }

  /** Facet names free of '_' give distinct plots distinct identifiers. */
  lemma NameDeterminesFacets(l: string, y: string, r: string, l': string, y': string, r': string)
    requires NoSeparator(l) && NoSeparator(y) && NoSeparator(l') && NoSeparator(y')
    requires PlotName(l, y, r) == PlotName(l', y', r')
    ensures l == l' && y == y' && r == r'
  {
  }

  /** A bubble plot: the y facet and the two sides of the x axis. */
  class BubblePlot {
    const xAxis: XAxis
    const yAxis: string

    ghost function Repr(): set<object>
      reads xAxis.left, xAxis.right
    {
      {this, xAxis.left, xAxis.right} + xAxis.left.bubbles.Values + xAxis.right.bubbles.Values
    }

    ghost predicate Valid()
      reads this, xAxis.left, xAxis.right, xAxis.left.bubbles.Values, xAxis.right.bubbles.Values
    {
      && xAxis.left != xAxis.right
      && xAxis.left.Valid() && xAxis.right.Valid()
      && xAxis.left.bubbles.Values !! xAxis.right.bubbles.Values
    }

    function Data(): PlotData
      reads xAxis.left, xAxis.right, xAxis.left.bubbles.Values, xAxis.right.bubbles.Values
    {
      PlotData(yAxis, xAxis.left.Data(), xAxis.right.Data())
    }

    constructor (facets: Facets)
      ensures Valid() && fresh(Repr())
      ensures Data() == PlotData(facets.y, SideData(facets.xLeft, [], map[]), SideData(facets.xRight, [], map[]))
    {
      var left := new SplitXAxis(facets.xLeft);
      var right := new SplitXAxis(facets.xRight);
      xAxis := XAxis(left, right);
      yAxis := facets.y;
    }

    /** `__str__`: the plot identifier. */
    function Name(): string {
      PlotName(xAxis.left.facet, yAxis, xAxis.right.facet)
    }

    /** Count `entry` on the left side, then on the right side (see
        `PlotData.Update`). */
    method Update(entry: Entry, year: string) returns (r: Outcome)
      requires Valid()
      modifies Repr()
      ensures Valid() && fresh(Repr() - old(Repr()))
      ensures (r, Data()) == old(Data()).Update(entry, year)
      ensures old(Data()).Valid() ==> Data().Valid()
    {
      old(Data()).UpdateSpec(entry, year);
      var left, right := xAxis.left, xAxis.right;
      r := left.Update(entry, year, yAxis);
      if r.Fail? {
        return;
      }
      r := right.Update(entry, year, yAxis);
    }
  }
}
