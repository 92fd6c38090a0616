/**
 * The expected values of the CSV writer's unit tests, derived from the
 * model: the three years of the fixture get scores 0, 500 and 1000, and
 * the fixture's labels get the positions the tests list.
 */
module Fixtures {
  import opened Base
  import opened StringOrder
  import opened BubbleIndex
  import opened CsvOutput

  /** Three labels in increasing order are their own sorted listing. */
  lemma SortedThree(a: string, b: string, c: string)
    requires Less(a, b) && Less(b, c)
    ensures SortedSet({a, b, c}) == [a, b, c]
  {
    Transitive(a, b, c);
    IncreasingUnique([a, b, c], SortedSet({a, b, c}));
  }

  lemma YearsSorted()
    ensures SortedSet({"2018", "2019", "2020"}) == ["2018", "2019", "2020"]
  {
    assert Less("2018", "2019") by {
      assert "2018"[3..] == "8" && "2019"[3..] == "9";
    }
    assert Less("2019", "2020") by {
      assert "2019"[2..] == "19" && "2020"[2..] == "20";
    }
    SortedThree("2018", "2019", "2020");
  }

  /** With three years the step is `1000 // 2`: 2018, 2019 and 2020 score
      0, 500 and 1000, whatever the plot. */
  lemma FixtureYearScores(plot: PlotData, conf: Config)
    ensures CsvWriter(plot, {"2018", "2019", "2020"}, conf).YearScores()
              == Success(map["2018" := 0, "2019" := 500, "2020" := 1000])
  {
    YearsSorted();
    EnumerateThree("2018", "2019", "2020", 0);
    assert ScoreStep(3) == Success(500);
    var want := map["2018" := 0, "2019" := 500, "2020" := 1000];
    SameMaps(Spread(["2018", "2019", "2020"], 500), want);
  }

  lemma EnumerateThree(a: string, b: string, c: string, base: int)
    ensures Enumerate([a, b, c], base) == map[a := base][b := base + 1][c := base + 2]
  {
    assert [a][..0] == [];
    assert Enumerate([a], base) == map[a := base];
    assert [a, b][..1] == [a];
    assert Enumerate([a, b], base) == map[a := base][b := base + 1];
    assert [a, b, c][..2] == [a, b];
  }

  /** The fixture's left labels 1, 4, 7 with left offset 1 sit at -4, -3
      and -2; its right labels 2, 4, 7 with right offset 2 at 2, 3 and 4. */
  lemma FixtureXPositions(plot: PlotData, years: set<string>, conf: Config)
    requires XLabels(plot.left) == {"1", "4", "7"} && conf.xLeftOffset == 1
    requires XLabels(plot.right) == {"2", "4", "7"} && conf.xRightOffset == 2
    ensures CsvWriter(plot, years, conf).ComputeLabelsIndicesMapping().0.at == map["1" := -4, "4" := -3, "7" := -2]
    ensures CsvWriter(plot, years, conf).ComputeLabelsIndicesMapping().1.at == map["2" := 2, "4" := 3, "7" := 4]
  {
    SortedThree("1", "4", "7");
    SortedThree("2", "4", "7");
    EnumerateThree("1", "4", "7", LeftBase(3, 1));
    EnumerateThree("2", "4", "7", 2);
  }

  /** The fixture's y labels 0, 3, 6 sit at 0, 1 and 2. */
  lemma FixtureYPositions(plot: PlotData, years: set<string>, conf: Config)
    requires YLabels(plot) == {"0", "3", "6"}
    ensures CsvWriter(plot, years, conf).ComputeLabelsIndicesMapping().2.at == map["0" := 0, "3" := 1, "6" := 2]
  {
    SortedThree("0", "3", "6");
    EnumerateThree("0", "3", "6", 0);
  }
}
