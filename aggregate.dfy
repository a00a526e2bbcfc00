/** `get_count_and_sum`: the statistics of one drug's group of prescriptions. */
module Aggregate {
  import opened Records

  /** A cost that parses contributes its value; a malformed one contributes 0. */
  function CostOrZero(c: Option<int>): int
  {
    match c
    case Some(v) => v
    case None => 0
  }

  /** Sum of the parsed costs of `g`, counting every malformed cost as 0. */
  function ParsedSum(g: seq<Prescription>, parse: string -> Option<int>): int
  {
    if g == [] then 0
    else ParsedSum(g[..|g| - 1], parse) + CostOrZero(parse(g[|g| - 1].drugCost))
  }

  /** Number of records of `g` whose cost does not parse. */
  function NullCount(g: seq<Prescription>, parse: string -> Option<int>): (n: nat)
    ensures n <= |g|
  {
    if g == [] then 0
    else NullCount(g[..|g| - 1], parse) + (if parse(g[|g| - 1].drugCost).None? then 1 else 0)
  }

  /** The distinct prescriber ids of `g`. */
  function Prescribers(g: seq<Prescription>): set<string>
  {
    set r | r in g :: r.id
  }

  /** The reported cost: the parsed sum plus the group's floor-average once per malformed cost.
      Python's `//` floors; Dafny's `/` agrees with it because the divisor is positive. */
  function ImputedTotal(g: seq<Prescription>, parse: string -> Option<int>): int
    requires |g| > 0
  {
    var sum := ParsedSum(g, parse);
    sum + (sum / |g|) * NullCount(g, parse)
  }

  /** The report row the source builds for one group. */
  function Summary(drugName: string, g: seq<Prescription>, parse: string -> Option<int>): DrugTotal
    requires |g| > 0
  {
    DrugTotal(drugName, |Prescribers(g)|, ImputedTotal(g, parse))
  }

  /** One pass over the group: counts the records, sums the costs, counts the malformed costs,
      and counts an id only on its first sighting. The group is never empty (groupby makes it). */
  method GetCountAndSum(drugName: string, drugsGroup: seq<Prescription>, parse: string -> Option<int>)
    returns (newRecord: DrugTotal)
    requires |drugsGroup| > 0
    ensures newRecord.drugName == drugName
    ensures newRecord.numPrescriber == |Prescribers(drugsGroup)|
    ensures newRecord.totalCost == ImputedTotal(drugsGroup, parse)
    ensures 1 <= newRecord.numPrescriber <= |drugsGroup|
  {
    var uniqueCount := 0;
    var totalSum := 0;
    var nullCount := 0;
    var totalCount := 0;
    var uniqueIds: set<string> := {};
    for i := 0 to |drugsGroup|
      invariant totalCount == i
      invariant totalSum == ParsedSum(drugsGroup[..i], parse)
      invariant nullCount == NullCount(drugsGroup[..i], parse)
      invariant uniqueIds == Prescribers(drugsGroup[..i])
      invariant uniqueCount == |uniqueIds|
    {
      var record := drugsGroup[i];
      assert drugsGroup[..i + 1][..i] == drugsGroup[..i];
      totalCount := totalCount + 1;
      var dc;
      match parse(record.drugCost) {
        case Some(v) =>
          dc := v;
        case None =>
          dc := 0;
          nullCount := nullCount + 1;
      }
      totalSum := totalSum + dc;
      var rid := record.id;
      assert Prescribers(drugsGroup[..i + 1]) == uniqueIds + {rid} by {
        assert drugsGroup[..i + 1] == drugsGroup[..i] + [record];
      }
      if rid !in uniqueIds {
        uniqueIds := uniqueIds + {rid};
        uniqueCount := uniqueCount + 1;
      }
    }
    assert drugsGroup[..|drugsGroup|] == drugsGroup;
    var avgSum := totalSum / totalCount;
    totalSum := totalSum + avgSum * nullCount;
    newRecord := DrugTotal(drugName, uniqueCount, totalSum);
    PrescriberCountBounds(drugsGroup);
  }

  lemma {:induction false} PrescribersSnoc(p: seq<Prescription>, x: Prescription)
    ensures Prescribers(p + [x]) == Prescribers(p) + {x.id}
  {
  }

  /** At most one new prescriber per record. */
  lemma {:induction false} PrescriberCountAtMost(g: seq<Prescription>)
    ensures |Prescribers(g)| <= |g|
  {
    if g == [] {
      assert Prescribers(g) == {};
    } else {
      var p := g[..|g| - 1];
      assert g == p + [g[|g| - 1]];
      PrescribersSnoc(p, g[|g| - 1]);
      PrescriberCountAtMost(p);
    }
  }

  /** A non-empty group has at least one and at most one prescriber per record. */
  lemma {:induction false} PrescriberCountBounds(g: seq<Prescription>)
    requires |g| > 0
    ensures 1 <= |Prescribers(g)| <= |g|
  {
    PrescriberCountAtMost(g);
    assert g[0] in g;
    assert g[0].id in Prescribers(g);
  }

  /** No two records of `g` share a prescriber id. */
  ghost predicate DistinctIds(g: seq<Prescription>)
  {
    forall i, j :: 0 <= i < j < |g| ==> g[i].id != g[j].id
  }

  lemma {:induction false} DistinctIdsSnoc(p: seq<Prescription>, x: Prescription)
    requires x.id !in Prescribers(p)
    ensures DistinctIds(p + [x]) <==> DistinctIds(p)
  {
    var g := p + [x];
    if DistinctIds(p) {
      forall i, j | 0 <= i < j < |g|
        ensures g[i].id != g[j].id
      {
        if j == |g| - 1 {
          assert g[i] == p[i] && g[i] in p;
        } else {
          assert g[i] == p[i] && g[j] == p[j];
        }
      }
    }
    if DistinctIds(g) {
      forall i, j | 0 <= i < j < |p|
        ensures p[i].id != p[j].id
      {
        assert g[i] == p[i] && g[j] == p[j];
      }
    }
  }

  /** A repeated id is counted once: the prescriber count reaches the record count exactly when
      all ids differ. */
  lemma {:induction false} PrescriberCountExact(g: seq<Prescription>)
    ensures |Prescribers(g)| == |g| <==> DistinctIds(g)
  {
    if g == [] {
      assert Prescribers(g) == {};
    } else {
      var p, x := g[..|g| - 1], g[|g| - 1];
      assert g == p + [x];
      PrescribersSnoc(p, x);
      PrescriberCountExact(p);
      if x.id in Prescribers(p) {
        var r :| r in p && r.id == x.id;
        var i :| 0 <= i < |p| && p[i] == r;
        assert g[i].id == g[|g| - 1].id;
        PrescriberCountAtMost(p);
      } else {
        DistinctIdsSnoc(p, x);
      }
    }
  }

  /** The sum of the costs when every malformed cost is replaced by `fill`. */
  function FilledSum(g: seq<Prescription>, parse: string -> Option<int>, fill: int): int
  {
    if g == [] then 0
    else
      var last := parse(g[|g| - 1].drugCost);
      FilledSum(g[..|g| - 1], parse, fill) + (if last.Some? then last.value else fill)
  }

  lemma {:induction false} FilledSumSplit(g: seq<Prescription>, parse: string -> Option<int>, fill: int)
    ensures FilledSum(g, parse, fill) == ParsedSum(g, parse) + fill * NullCount(g, parse)
  {
    if g != [] {
      FilledSumSplit(g[..|g| - 1], parse, fill);
    }
  }

  /** Imputation: the reported cost is the sum the group would have if each malformed cost were
      the group's floor-average cost (that average taken over all records, malformed ones as 0). */
  lemma {:induction false} ImputationFillsEachNull(g: seq<Prescription>, parse: string -> Option<int>)
    requires |g| > 0
    ensures ImputedTotal(g, parse) == FilledSum(g, parse, ParsedSum(g, parse) / |g|)
  {
    FilledSumSplit(g, parse, ParsedSum(g, parse) / |g|);
  }

  lemma {:induction false} ParsedSumAllMalformed(g: seq<Prescription>, parse: string -> Option<int>)
    requires forall r :: r in g ==> parse(r.drugCost).None?
    ensures ParsedSum(g, parse) == 0
  {
    if g != [] {
      assert g[|g| - 1] in g;
      ParsedSumAllMalformed(g[..|g| - 1], parse);
    }
  }

  /** A group whose every cost is malformed reports a total cost of 0. */
  lemma {:induction false} AllMalformedTotalZero(g: seq<Prescription>, parse: string -> Option<int>)
    requires |g| > 0
    requires forall r :: r in g ==> parse(r.drugCost).None?
    ensures ImputedTotal(g, parse) == 0
  {
    ParsedSumAllMalformed(g, parse);
  }

  /** A group without malformed costs reports the plain sum of its costs. */
  lemma {:induction false} NoMalformedNoImputation(g: seq<Prescription>, parse: string -> Option<int>)
    requires |g| > 0
    requires forall r :: r in g ==> parse(r.drugCost).Some?
    ensures NullCount(g, parse) == 0
    ensures ImputedTotal(g, parse) == ParsedSum(g, parse)
  {
    var p := g[..|g| - 1];
    assert g[|g| - 1] in g;
    if p != [] {
      forall r | r in p ensures parse(r.drugCost).Some? {
        assert r in g;
      }
      NoMalformedNoImputation(p, parse);
    }
  }
}
