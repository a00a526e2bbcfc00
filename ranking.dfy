/** The ranking step of `main`: `sorted(new_records, key=total_cost, reverse=True)` over the rows
    `groupby_count_and_sum` returns, and the whole computation without the file reading and writing. */
module Ranking {
  import opened Records
  import Names
  import StableSort
  import Aggregate
  import Grouping

  /** `reverse=True` on integer keys: a row may precede another whose cost is not larger. */
  predicate CostAtLeast(a: int, b: int)
  {
    a >= b
  }

  /** The report order of `main`, a stable descending sort by total cost. */
  function Rank(totals: seq<DrugTotal>): (r: seq<DrugTotal>)
    ensures multiset(r) == multiset(totals)
  {
    StableSort.SortBy(totals, CostOf, CostAtLeast)
  }

  /** The report's total order: higher cost first, equal costs by ascending name. */
  predicate RankedBefore(a: DrugTotal, b: DrugTotal)
  {
    a.totalCost > b.totalCost || (a.totalCost == b.totalCost && Names.Less(a.drugName, b.drugName))
  }

  ghost predicate StrictlyRanked(s: seq<DrugTotal>)
  {
    forall i, j :: 0 <= i < j < |s| ==> RankedBefore(s[i], s[j])
  }

  lemma {:induction false} CostAtLeastTotalPreorder()
    ensures StableSort.TotalPreorder(CostAtLeast)
  {
  }

  /** Ranking orders the rows by descending total cost, whatever their order before. */
  lemma {:induction false} RankDescending(totals: seq<DrugTotal>)
    ensures forall i, j :: 0 <= i < j < |Rank(totals)| ==> Rank(totals)[i].totalCost >= Rank(totals)[j].totalCost
  {
    CostAtLeastTotalPreorder();
    StableSort.SortBySorted(totals, CostOf, CostAtLeast);
  }

  /** Ranking is stable: the rows of equal cost keep the order they came in. */
  lemma {:induction false} RankStable(totals: seq<DrugTotal>, cost: int)
    ensures StableSort.Select(Rank(totals), CostOf, cost) == StableSort.Select(totals, CostOf, cost)
  {
    CostAtLeastTotalPreorder();
    StableSort.SortByStable(totals, CostOf, CostAtLeast, cost);
  }

  lemma {:induction false} PrependRanked(x: DrugTotal, s: seq<DrugTotal>)
    requires StrictlyRanked(s)
    requires forall y :: y in s ==> RankedBefore(x, y)
    ensures StrictlyRanked([x] + s)
  {
    var r := [x] + s;
    forall i, j | 0 <= i < j < |r|
      ensures RankedBefore(r[i], r[j])
    {
      assert r[j] == s[j - 1];
      if i == 0 {
        assert r[j] in s;
      } else {
        assert r[i] == s[i - 1];
      }
    }
  }

  lemma {:induction false} StrictlyRankedTail(p: seq<DrugTotal>)
    requires p != [] && StrictlyRanked(p)
    ensures StrictlyRanked(p[1..])
  {
    forall a, b | 0 <= a < b < |p[1..]| ensures RankedBefore(p[1..][a], p[1..][b]) {
      assert p[1..][a] == p[a + 1] && p[1..][b] == p[b + 1];
    }
  }

  lemma {:induction false} InsertRanked(x: DrugTotal, s: seq<DrugTotal>)
    requires StrictlyRanked(s)
    requires forall y :: y in s ==> Names.Less(x.drugName, y.drugName)
    ensures StrictlyRanked(StableSort.Insert(x, s, CostOf, CostAtLeast))
  {
    if s == [] || CostAtLeast(CostOf(x), CostOf(s[0])) {
      forall y | y in s
        ensures RankedBefore(x, y)
      {
        var j :| 0 <= j < |s| && s[j] == y;
        assert j > 0 ==> RankedBefore(s[0], s[j]);
      }
      PrependRanked(x, s);
    } else {
      var t := StableSort.Insert(x, s[1..], CostOf, CostAtLeast);
      StrictlyRankedTail(s);
      forall y | y in s[1..] ensures Names.Less(x.drugName, y.drugName) {
        assert y in s;
      }
      InsertRanked(x, s[1..]);
      forall y | y in t
        ensures RankedBefore(s[0], y)
      {
        assert y in multiset(t);
        if y != x {
          var j :| 0 <= j < |s[1..]| && s[1..][j] == y;
          assert s[j + 1] == y;
        }
      }
      PrependRanked(s[0], t);
    }
  }

  /** The tie-break: ranking rows whose names ascend yields higher cost first and, among equal
      costs, ascending names. This is what the stable sort over name-ordered rows relies on. */
  lemma {:induction false} RankTieBreak(totals: seq<DrugTotal>)
    requires Grouping.AscendingNames(totals)
    ensures StrictlyRanked(Rank(totals))
  {
    if totals != [] {
      var rest := totals[1..];
      assert Grouping.AscendingNames(rest) by {
        forall i, j | 0 <= i < j < |rest|
          ensures Names.Less(rest[i].drugName, rest[j].drugName)
        {
          assert rest[i] == totals[i + 1] && rest[j] == totals[j + 1];
        }
      }
      RankTieBreak(rest);
      var ranked := Rank(rest);
      forall y | y in ranked
        ensures Names.Less(totals[0].drugName, y.drugName)
      {
        assert y in multiset(ranked);
        var j :| 0 <= j < |rest| && rest[j] == y;
        assert totals[j + 1] == y;
      }
      InsertRanked(totals[0], ranked);
    }
  }

  lemma {:induction false} RankedBeforeAsymmetric(a: DrugTotal, b: DrugTotal)
    ensures !(RankedBefore(a, b) && RankedBefore(b, a))
  {
    Names.LessAsymmetric(a.drugName, b.drugName);
  }

  /** Of two strictly ranked orderings of the same rows, neither can start with a row the other
      ranks later. */
  lemma {:induction false} StrictlyRankedSameHead(p: seq<DrugTotal>, q: seq<DrugTotal>)
    requires p != [] && multiset(p) == multiset(q)
    requires StrictlyRanked(p) && StrictlyRanked(q)
    ensures q != [] && p[0] == q[0]
  {
    assert p[0] in multiset(q);
    assert q != [];
    assert q[0] in multiset(p);
    var i :| 0 <= i < |q| && q[i] == p[0];
    var j :| 0 <= j < |p| && p[j] == q[0];
    if p[0] != q[0] {
      assert RankedBefore(p[0], p[j]) && RankedBefore(q[0], q[i]);
      RankedBeforeAsymmetric(p[0], q[0]);
      assert false;
    }
  }

  /** The report is fully determined: two strictly ranked orderings of the same rows are the
      same sequence, so any stable sort (Python's included) produces this one. */
  lemma {:induction false} StrictlyRankedUnique(p: seq<DrugTotal>, q: seq<DrugTotal>)
    requires multiset(p) == multiset(q)
    requires StrictlyRanked(p) && StrictlyRanked(q)
    ensures p == q
  {
    if p == [] {
      assert |q| == |multiset(q)| == 0;
    } else {
      StrictlyRankedSameHead(p, q);
      assert p == [p[0]] + p[1..] && q == [q[0]] + q[1..];
      assert multiset(p) == multiset{p[0]} + multiset(p[1..]);
      assert multiset(q) == multiset{q[0]} + multiset(q[1..]);
      StrictlyRankedTail(p);
      StrictlyRankedTail(q);
      assert multiset(p[1..]) == multiset(p) - multiset{p[0]};
      assert multiset(q[1..]) == multiset(q) - multiset{q[0]};
      StrictlyRankedUnique(p[1..], q[1..]);
    }
  }

  /** Any ordering of the grouped rows that is sorted by the report's order is the report itself;
      in particular the result does not depend on which stable sort algorithm produces it. */
  lemma {:induction false} ReportDetermined(records: seq<Prescription>, parse: string -> Option<int>, p: seq<DrugTotal>)
    requires multiset(p) == multiset(Grouping.Aggregates(records, parse))
    requires StrictlyRanked(p)
    ensures p == Rank(Grouping.Aggregates(records, parse))
  {
    var totals := Grouping.Aggregates(records, parse);
    Grouping.AggregatesCorrect(records, parse);
    RankTieBreak(totals);
    StrictlyRankedUnique(p, Rank(totals));
  }

  /** `main` without the file reading and writing: group, summarise, then rank. The report has
      one row per distinct drug, ordered by descending cost and then ascending name, and each row
      summarises exactly the records of its drug. */
  method PharmacyCounting(records: seq<Prescription>, parse: string -> Option<int>)
    returns (report: seq<DrugTotal>)
    ensures report == Rank(Grouping.Aggregates(records, parse))
    ensures StrictlyRanked(report)
    ensures ReportDrugs(report) == InputDrugs(records)
    ensures |report| == |InputDrugs(records)|
    ensures Grouping.SummarisesInput(report, records, parse)
  {
    var newRecords := Grouping.GroupByCountAndSum(records, parse);
    report := Rank(newRecords);
    RankTieBreak(newRecords);
    Grouping.AggregatesCorrect(records, parse);
    forall t ensures t in report <==> t in newRecords {
      assert t in report <==> t in multiset(report);
    }
    assert |report| == |multiset(report)| == |newRecords|;
  }
}
