/**
 * The rows of a plot's CSV file: one four-number tuple per bubble, the
 * stable sort of those tuples by x position, and `zip_longest`, which lays
 * the data columns and the label columns side by side and pads the shorter
 * ones with empty cells.
 */
module CsvRows {
  import opened Base
  import opened BubbleIndex

  /** One data tuple: y position, x position, occurrence count, year score. */
  datatype Row = Row(y: int, x: int, occurrence: nat, yearScore: int)

  /** The three dictionaries a side's rows are looked up in. */
  datatype Indices = Indices(x: map<string, int>, y: map<string, int>, year: map<string, int>)

  /** All three lookups of a bubble's row succeed. */
  predicate Placeable(b: Bubble, t: Tally, at: Indices) {
    b.labelY in at.y && b.labelX in at.x && t.year in at.year
  }

  /** The row of a placeable bubble. */
  function RowOf(b: Bubble, t: Tally, at: Indices): Row
    requires Placeable(b, t, at)
  {
    Row(at.y[b.labelY], at.x[b.labelX], t.occurrence, at.year[t.year])
  }

  /** Every bubble of `order` can be placed. */
  predicate AllPlaceable(order: seq<Bubble>, tallies: map<Bubble, Tally>, at: Indices)
    requires forall b :: b in order ==> b in tallies
  {
    forall i :: 0 <= i < |order| ==> Placeable(order[i], tallies[order[i]], at)
  }

  /** The bubble at index `i` is the first of `order` that cannot be placed. */
  predicate FailsFirstAt(order: seq<Bubble>, tallies: map<Bubble, Tally>, at: Indices, i: int)
    requires forall b :: b in order ==> b in tallies
  {
    && 0 <= i < |order|
    && !Placeable(order[i], tallies[order[i]], at)
    && forall j :: 0 <= j < i ==> Placeable(order[j], tallies[order[j]], at)
  }

  /** The `KeyError` of the first lookup that fails, in the order the tuple
      is evaluated: y label, x label, year. */
  function MissingKey(b: Bubble, t: Tally, at: Indices): (e: Error)
    requires !Placeable(b, t, at)
    ensures e == MissingField(b.labelY) || e == MissingField(b.labelX) || e == MissingField(t.year)
    ensures b.labelY !in at.y ==> e == MissingField(b.labelY)
    ensures b.labelY in at.y && b.labelX !in at.x ==> e == MissingField(b.labelX)
    ensures b.labelY in at.y && b.labelX in at.x ==> e == MissingField(t.year)
  {
    if b.labelY !in at.y then MissingField(b.labelY)
    else if b.labelX !in at.x then MissingField(b.labelX)
    else MissingField(t.year)
  }

  /** `e` is the error of the first bubble of `order` that cannot be placed. */
  ghost predicate FirstFailure(order: seq<Bubble>, tallies: map<Bubble, Tally>, at: Indices, e: Error)
    requires forall b :: b in order ==> b in tallies
  {
    exists i :: FailsFirstAt(order, tallies, at, i) && e == MissingKey(order[i], tallies[order[i]], at)
  }

  /** The rows of the bubbles `order`, in that order, or the error of the
      first bubble that cannot be placed. */
  function RowsOf(order: seq<Bubble>, tallies: map<Bubble, Tally>, at: Indices): (r: Result<seq<Row>>)
    requires forall b :: b in order ==> b in tallies
    ensures r.Success? <==> AllPlaceable(order, tallies, at)
    ensures r.Success? ==> |r.value| == |order|
    ensures r.Success? ==>
              forall i :: 0 <= i < |order| ==> r.value[i] == RowOf(order[i], tallies[order[i]], at)
    ensures r.Failure? ==> FirstFailure(order, tallies, at, r.error)
    decreases |order|
  {
    if order == [] then Success([])
    else if !Placeable(order[0], tallies[order[0]], at) then
      Failure(MissingKey(order[0], tallies[order[0]], at))
    else
      var rest := RowsOf(order[1..], tallies, at);
      if rest.Failure? then
        ghost var i :| FailsFirstAt(order[1..], tallies, at, i)
                       && rest.error == MissingKey(order[1..][i], tallies[order[1..][i]], at);
        assert forall j :: 1 <= j < i + 1 ==> order[j] == order[1..][j - 1];
        assert order[i + 1] == order[1..][i];
        assert FailsFirstAt(order, tallies, at, i + 1);
        Failure(rest.error)
      else
        assert forall i :: 1 <= i < |order| ==> order[i] == order[1..][i - 1];
        Success([RowOf(order[0], tallies[order[0]], at)] + rest.value)
  }

  /** When every label has a position, the rows can only fail on a year
      without a score, and the error names that year. */
  lemma RowsOfYears(order: seq<Bubble>, tallies: map<Bubble, Tally>, at: Indices)
    requires forall b :: b in order ==> b in tallies
    requires forall b :: b in order ==> b.labelX in at.x && b.labelY in at.y
    ensures RowsOf(order, tallies, at).Success? <==> forall b :: b in order ==> tallies[b].year in at.year
    ensures RowsOf(order, tallies, at).Failure? ==>
              RowsOf(order, tallies, at).error.MissingField? && RowsOf(order, tallies, at).error.field !in at.year
  {
    var r := RowsOf(order, tallies, at);
    if r.Success? {
      forall b | b in order ensures tallies[b].year in at.year {
        var i :| 0 <= i < |order| && order[i] == b;
      }
    } else {
      var i :| FailsFirstAt(order, tallies, at, i) && r.error == MissingKey(order[i], tallies[order[i]], at);
    }
  }

  /** Rows are in non-decreasing x position. */
  predicate SortedByX(s: seq<Row>) {
    forall i, j :: 0 <= i < j < |s| ==> s[i].x <= s[j].x
  }

  /** The rows of `s` at x position `x`, in their order in `s`. */
  function WithX(s: seq<Row>, x: int): seq<Row> {
    if s == [] then []
    else (if s[0].x == x then [s[0]] else []) + WithX(s[1..], x)
  }

  /** Puts `r` in front of every row whose x position is not smaller. */
  function Insert(r: Row, s: seq<Row>): (t: seq<Row>)
    ensures multiset(t) == multiset(s) + multiset{r}
  {
    if s == [] || r.x <= s[0].x then [r] + s
    else
      assert s == [s[0]] + s[1..];
      [s[0]] + Insert(r, s[1..])
  }

  lemma {:induction false} InsertSorted(r: Row, s: seq<Row>)
    requires SortedByX(s)
    ensures SortedByX(Insert(r, s))
    ensures Insert(r, s)[0] == r || Insert(r, s)[0] == s[0]
  {
    if s != [] && r.x > s[0].x {
      var t := Insert(r, s[1..]);
      InsertSorted(r, s[1..]);
      forall i, j | 0 <= i < j < |t| + 1 ensures ([s[0]] + t)[i].x <= ([s[0]] + t)[j].x {
        if i > 0 {
          assert ([s[0]] + t)[i] == t[i - 1];
        } else if t[0] != r {
          assert t[0] == s[1..][0];
        }
      }
    }
  }

  /** `sorted(rows, key=lambda t: t[1])`. */
  function SortByX(rows: seq<Row>): (t: seq<Row>)
    ensures SortedByX(t)
    ensures multiset(t) == multiset(rows)
  {
    if rows == [] then []
    else
      assert rows == [rows[0]] + rows[1..];
      InsertSorted(rows[0], SortByX(rows[1..]));
      Insert(rows[0], SortByX(rows[1..]))
  }

  lemma {:induction false} InsertWithX(r: Row, s: seq<Row>, x: int)
    ensures WithX(Insert(r, s), x) == (if r.x == x then [r] else []) + WithX(s, x)
  {
    if s != [] && r.x > s[0].x {
      InsertWithX(r, s[1..], x);
      assert ([s[0]] + Insert(r, s[1..]))[1..] == Insert(r, s[1..]);
    } else {
      assert ([r] + s)[1..] == s;
    }
  }

  /** The sort is stable: rows that share an x position keep their
      relative order. */
  lemma {:induction false} SortByXStable(rows: seq<Row>)
    ensures forall x :: WithX(SortByX(rows), x) == WithX(rows, x)
  {
    if rows != [] {
      SortByXStable(rows[1..]);
      forall x ensures WithX(SortByX(rows), x) == WithX(rows, x) {
        InsertWithX(rows[0], SortByX(rows[1..]), x);
      }
    }
  }

  lemma {:induction false} WithXIn(s: seq<Row>, x: int)
    ensures forall r :: r in WithX(s, x) ==> r in s && r.x == x
  {
    if s != [] {
      WithXIn(s[1..], x);
    }
  }

  /** A sequence sorted by x is determined by its rows at each x position:
      the stable sort is the only sorted sequence that keeps them. */
  lemma {:induction false} SortedUnique(a: seq<Row>, b: seq<Row>)
    requires SortedByX(a) && SortedByX(b)
    requires forall x :: WithX(a, x) == WithX(b, x)
    ensures a == b
    decreases |a| + |b|
  {
    if a != [] {
      HeadWithX(a);
    }
    if b != [] {
      HeadWithX(b);
    }
    if a != [] && b != [] {
      if a[0].x < b[0].x {
        LeastAbsent(a, b);
      } else if b[0].x < a[0].x {
        LeastAbsent(b, a);
      } else {
        assert a[0] == b[0];
        forall x ensures WithX(a[1..], x) == WithX(b[1..], x) {
          var head := if a[0].x == x then [a[0]] else [];
          assert WithX(a, x) == head + WithX(a[1..], x);
          assert WithX(b, x) == head + WithX(b[1..], x);
          assert (head + WithX(a[1..], x))[|head|..] == WithX(a[1..], x);
          assert (head + WithX(b[1..], x))[|head|..] == WithX(b[1..], x);
        }
        SortedUnique(a[1..], b[1..]);
        assert a == [a[0]] + a[1..] && b == [b[0]] + b[1..];
      }
    }
  }

  lemma HeadWithX(s: seq<Row>)
    requires s != []
    ensures WithX(s, s[0].x) != [] && WithX(s, s[0].x)[0] == s[0]
  {
  }

  /** Two sorted sequences with the same rows at each x position start at
      the same x position. */
  lemma LeastAbsent(a: seq<Row>, b: seq<Row>)
    requires a != [] && b != [] && SortedByX(b) && a[0].x < b[0].x
    ensures WithX(a, a[0].x) != WithX(b, a[0].x)
  {
    WithXIn(b, a[0].x);
    HeadWithX(a);
  }

  /** A cell of the CSV file: a number, a label, or `zip_longest`'s padding
      (`None`, written as an empty field). */
  datatype Cell = Num(n: int) | Text(s: string) | Empty

  /** A CSV file: its name, its header line and the lines below it. */
  datatype CsvTable = CsvTable(fileName: string, header: seq<string>, lines: seq<seq<Cell>>)

  /** Length of the longest column. */
  function Longest(cols: seq<seq<Cell>>): (n: nat)
    ensures forall j :: 0 <= j < |cols| ==> |cols[j]| <= n
    ensures cols == [] ==> n == 0
    ensures cols != [] ==> exists j :: 0 <= j < |cols| && |cols[j]| == n
  {
    if cols == [] then 0
    else
      var rest := Longest(cols[1..]);
      assert forall j :: 1 <= j < |cols| ==> cols[j] == cols[1..][j - 1];
      if |cols[0]| < rest then rest else |cols[0]|
  }

  /** `zip_longest(*cols)`: line `i` holds the `i`-th cell of every column,
      `Empty` for columns that are already exhausted. */
  function ZipLongest(cols: seq<seq<Cell>>): (lines: seq<seq<Cell>>)
    ensures |lines| == Longest(cols)
    ensures forall i :: 0 <= i < |lines| ==> |lines[i]| == |cols|
    ensures forall i, j :: 0 <= i < |lines| && 0 <= j < |cols| ==>
              lines[i][j] == if i < |cols[j]| then cols[j][i] else Empty
  {
    seq(Longest(cols), i requires 0 <= i =>
      seq(|cols|, j requires 0 <= j < |cols| => if i < |cols[j]| then cols[j][i] else Empty))
  }

  /** The labels of a label column. */
  function Texts(labels: seq<string>): (cells: seq<Cell>)
    ensures |cells| == |labels|
    ensures forall i :: 0 <= i < |labels| ==> cells[i] == Text(labels[i])
  {
    seq(|labels|, i requires 0 <= i < |labels| => Text(labels[i]))
  }

  /** Line `i` of the CSV file below its header: the four numbers of data
      row `i`, the `i`-th y label and the `i`-th x label, each replaced by
      empty cells once its column has run out. */
  function Line(data: seq<Row>, labelsY: seq<string>, labelsX: seq<string>, i: nat): seq<Cell> {
    (if i < |data| then [Num(data[i].y), Num(data[i].x), Num(data[i].occurrence), Num(data[i].yearScore)]
     else [Empty, Empty, Empty, Empty])
    + [if i < |labelsY| then Text(labelsY[i]) else Empty]
    + [if i < |labelsX| then Text(labelsX[i]) else Empty]
  }

  /** The lines below the header when the data and the label columns are
      zipped with padding. */
  function Lines(data: seq<Row>, labelsY: seq<string>, labelsX: seq<string>): seq<seq<Cell>> {
    seq(Max(|data|, Max(|labelsY|, |labelsX|)), i requires 0 <= i => Line(data, labelsY, labelsX, i))
  }

  /** Every line carries the four numbers of a row: no padding reached the
      data columns. */
  predicate Unpadded(lines: seq<seq<Cell>>) {
    forall i :: 0 <= i < |lines| ==>
      |lines[i]| == 6 && lines[i][0].Num? && lines[i][1].Num? && lines[i][2].Num? && lines[i][3].Num?
  }

  /** The x position column never decreases down the file. */
  predicate XColumnSorted(lines: seq<seq<Cell>>)
    requires Unpadded(lines)
  {
    forall i, j :: 0 <= i < j < |lines| ==> lines[i][1].n <= lines[j][1].n
  }

  /** With no label column longer than the data, the file has one line per
      row, each carrying that row's numbers; rows sorted by x give a sorted
      x column. */
  lemma LinesShape(data: seq<Row>, labelsY: seq<string>, labelsX: seq<string>)
    requires |labelsY| <= |data| && |labelsX| <= |data|
    ensures |Lines(data, labelsY, labelsX)| == |data|
    ensures Unpadded(Lines(data, labelsY, labelsX))
    ensures forall i :: 0 <= i < |data| ==>
              Lines(data, labelsY, labelsX)[i][..4]
                == [Num(data[i].y), Num(data[i].x), Num(data[i].occurrence), Num(data[i].yearScore)]
    ensures SortedByX(data) ==> XColumnSorted(Lines(data, labelsY, labelsX))
  {
    var lines := Lines(data, labelsY, labelsX);
    forall i | 0 <= i < |data| ensures lines[i] == Line(data, labelsY, labelsX, i) { }
  }
}
