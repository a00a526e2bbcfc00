/** Worked cases of the pharmacy report, each stated for a concrete input. */
module Scenarios {
  import opened Records
  import Names
  import StableSort
  import Aggregate
  import Grouping
  import Ranking

  /** Whole-number costs as the sample rows spell them; anything else is malformed. */
  function SampleParse(s: string): Option<int>
  {
    if s == "10" then Some(10)
    else if s == "20" then Some(20)
    else if s == "50" then Some(50)
    else if s == "100" then Some(100)
    else if s == "200" then Some(200)
    else None
  }

  /** Costs 10, 20 and a malformed one: sum 30, floor-average 10, reported cost 40. */
  lemma {:induction false} ImputationScenario()
    ensures var g := [Prescription("1", "A", "10"), Prescription("2", "A", "20"), Prescription("3", "A", "bad")];
      Aggregate.ImputedTotal(g, SampleParse) == 40
  {
    var g := [Prescription("1", "A", "10"), Prescription("2", "A", "20"), Prescription("3", "A", "bad")];
    assert g[..2] == [g[0], g[1]] && g[..2][..1] == [g[0]] && g[..2][..1][..0] == [];
    assert SampleParse("10") == Some(10) && SampleParse("20") == Some(20) && SampleParse("bad") == None;
    assert Aggregate.ParsedSum([g[0]], SampleParse) == 10 by {
      assert [g[0]][..0] == [];
    }
    assert Aggregate.ParsedSum(g[..2], SampleParse) == 30;
    assert Aggregate.ParsedSum(g, SampleParse) == 30;
    assert Aggregate.NullCount(g, SampleParse) == 1;
  }

  /** The same prescriber twice in one drug's group is counted once. */
  lemma {:induction false} DuplicatePrescriberScenario()
    ensures Aggregate.Prescribers([Prescription("7", "A", "10"), Prescription("7", "A", "20")]) == {"7"}
  {
    var g := [Prescription("7", "A", "10"), Prescription("7", "A", "20")];
    assert g[0] in g && g[1] in g;
  }

  /** Rows A/1/100, A/2/200 and B/1/50 of the end-to-end case. */
  function ThreeRows(): seq<Prescription>
  {
    [Prescription("1", "A", "100"), Prescription("2", "A", "200"), Prescription("1", "B", "50")]
  }

  lemma {:induction false} ThreeRowsSorted()
    ensures StableSort.SortBy(ThreeRows(), DrugOf, Names.LessEq) == ThreeRows()
  {
    var records := ThreeRows();
    assert Names.Less("A", "B");
    assert StableSort.SortedBy(records, DrugOf, Names.LessEq);
    StableSort.SortBySortedInput(records, DrugOf, Names.LessEq);
  }

  lemma {:induction false} ThreeRowsRuns()
    ensures Grouping.Runs(ThreeRows())
      == [Grouping.Group("A", ThreeRows()[..2]), Grouping.Group("B", ThreeRows()[2..])]
  {
    var records := ThreeRows();
    assert Grouping.RunLength(records) == 2 by {
      assert records[1..][1..] == records[2..];
    }
    var tail := records[2..];
    assert |tail| == 1 && tail[0].drugName == "B";
    assert Grouping.RunLength(tail) == 1;
    assert tail[1..] == [] && tail[..1] == tail;
    assert Grouping.Runs(tail[1..]) == [];
    assert Grouping.Runs(tail) == [Grouping.Group("B", tail)];
  }

  lemma {:induction false} ThreeRowsGroups()
    ensures Grouping.GroupsOf(ThreeRows())
      == [Grouping.Group("A", ThreeRows()[..2]), Grouping.Group("B", ThreeRows()[2..])]
  {
    ThreeRowsSorted();
    ThreeRowsRuns();
  }

  lemma {:induction false} ThreeRowsSummaryA()
    ensures Aggregate.Summary("A", ThreeRows()[..2], SampleParse) == DrugTotal("A", 2, 300)
  {
    var g := ThreeRows()[..2];
    var a1 := g[0];
    assert SampleParse("100") == Some(100) && SampleParse("200") == Some(200);
    assert g[..1] == [a1] && g[..1][..0] == [];
    assert Aggregate.ParsedSum([a1], SampleParse) == 100;
    assert Aggregate.ParsedSum(g, SampleParse) == 300;
    assert Aggregate.NullCount([a1], SampleParse) == 0;
    assert Aggregate.NullCount(g, SampleParse) == 0;
    assert Aggregate.Prescribers(g) == {"1", "2"} by {
      assert g[0] in g && g[1] in g;
    }
    assert "1" != "2" by {
      assert "1"[0] != "2"[0];
    }
  }

  lemma {:induction false} ThreeRowsSummaryB()
    ensures Aggregate.Summary("B", ThreeRows()[2..], SampleParse) == DrugTotal("B", 1, 50)
  {
    var g := ThreeRows()[2..];
    assert g[..0] == [];
    assert SampleParse("50") == Some(50);
    assert Aggregate.ParsedSum(g, SampleParse) == 50;
    assert Aggregate.NullCount(g, SampleParse) == 0;
    assert Aggregate.Prescribers(g) == {"1"} by {
      assert g[0] in g;
    }
  }

  /** Grouping the three rows gives A,2,300 and B,1,50, in name order. */
  lemma {:induction false} ThreeRowsAggregates()
    ensures Grouping.Aggregates(ThreeRows(), SampleParse) == [DrugTotal("A", 2, 300), DrugTotal("B", 1, 50)]
  {
    var groups := Grouping.GroupsOf(ThreeRows());
    var totals := Grouping.Aggregates(ThreeRows(), SampleParse);
    ThreeRowsGroups();
    ThreeRowsSummaryA();
    ThreeRowsSummaryB();
    assert |totals| == 2;
    assert totals[0] == Aggregate.Summary(groups[0].drugName, groups[0].records, SampleParse);
    assert totals[1] == Aggregate.Summary(groups[1].drugName, groups[1].records, SampleParse);
  }

  /** Two rows already in report order stay in that order. */
  lemma {:induction false} RankPair(a: DrugTotal, b: DrugTotal)
    requires a.totalCost >= b.totalCost
    ensures Ranking.Rank([a, b]) == [a, b]
  {
    assert [a, b][1..] == [b];
    assert StableSort.SortBy([b], CostOf, Ranking.CostAtLeast) == [b];
  }

  /** The end-to-end case: the report is A,2,300 then B,1,50 (A costs more, so it comes first). */
  lemma {:induction false} EndToEndScenario()
    ensures Ranking.Rank(Grouping.Aggregates(ThreeRows(), SampleParse))
      == [DrugTotal("A", 2, 300), DrugTotal("B", 1, 50)]
  {
    ThreeRowsAggregates();
    RankPair(DrugTotal("A", 2, 300), DrugTotal("B", 1, 50));
  }

  /** Two drugs of equal total cost, arriving in name order, are reported in name order. */
  lemma {:induction false} TieScenario()
    ensures Ranking.Rank([DrugTotal("ASPIRIN", 1, 50), DrugTotal("BENZO", 2, 50)])
      == [DrugTotal("ASPIRIN", 1, 50), DrugTotal("BENZO", 2, 50)]
  {
    RankPair(DrugTotal("ASPIRIN", 1, 50), DrugTotal("BENZO", 2, 50));
  }

  /** A group whose every cost is malformed reports 0. */
  lemma {:induction false} AllMalformedScenario()
    ensures Aggregate.ImputedTotal([Prescription("1", "A", ""), Prescription("2", "A", "x")], SampleParse) == 0
  {
    Aggregate.AllMalformedTotalZero([Prescription("1", "A", ""), Prescription("2", "A", "x")], SampleParse);
  }
}
