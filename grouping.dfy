/** `groupby_count_and_sum` without the file reading: sort the records by drug name, cut the
    sorted sequence into runs of equal names (itertools.groupby) and summarise each run. */
module Grouping {
  import opened Records
  import Names
  import StableSort
  import Aggregate

  /** One (key, group) pair produced by groupby. */
  datatype Group = Group(drugName: string, records: seq<Prescription>)

  /** Every record of the group carries the group's name, and there is at least one. */
  ghost predicate Homogeneous(g: Group)
  {
    |g.records| > 0 && forall r :: r in g.records ==> r.drugName == g.drugName
  }

  function Flatten(gs: seq<Group>): seq<Prescription>
  {
    if gs == [] then [] else gs[0].records + Flatten(gs[1..])
  }

  /** Length of the longest prefix of `s` whose records share the first record's name. */
  function RunLength(s: seq<Prescription>): (n: nat)
    requires |s| > 0
    ensures 1 <= n <= |s|
    ensures forall i :: 0 <= i < n ==> s[i].drugName == s[0].drugName
    ensures n < |s| ==> s[n].drugName != s[0].drugName
  {
    if |s| == 1 || s[1].drugName != s[0].drugName then 1 else 1 + RunLength(s[1..])
  }

  /** itertools.groupby keyed by drug name: the maximal runs of consecutive equal names. */
  function Runs(s: seq<Prescription>): (gs: seq<Group>)
    ensures Flatten(gs) == s
    ensures forall k :: 0 <= k < |gs| ==> Homogeneous(gs[k])
    ensures forall k :: 0 <= k < |gs| - 1 ==> gs[k].drugName != gs[k + 1].drugName
    ensures |s| > 0 ==> |gs| > 0 && gs[0].drugName == s[0].drugName
    decreases |s|
  {
    if s == [] then []
    else
      var n := RunLength(s);
      var rest := Runs(s[n..]);
      RunsStep(s, n, rest);
      [Group(s[0].drugName, s[..n])] + rest
  }

  /** One step of `Runs`: a maximal first run in front of the runs of the remainder. */
  lemma {:induction false} RunsStep(s: seq<Prescription>, n: nat, rest: seq<Group>)
    requires 1 <= n <= |s|
    requires forall i :: 0 <= i < n ==> s[i].drugName == s[0].drugName
    requires n < |s| ==> s[n].drugName != s[0].drugName
    requires Flatten(rest) == s[n..]
    requires forall k :: 0 <= k < |rest| ==> Homogeneous(rest[k])
    requires forall k :: 0 <= k < |rest| - 1 ==> rest[k].drugName != rest[k + 1].drugName
    requires |s[n..]| > 0 ==> |rest| > 0 && rest[0].drugName == s[n].drugName
    ensures var gs := [Group(s[0].drugName, s[..n])] + rest;
      && Flatten(gs) == s
      && (forall k :: 0 <= k < |gs| ==> Homogeneous(gs[k]))
      && (forall k :: 0 <= k < |gs| - 1 ==> gs[k].drugName != gs[k + 1].drugName)
  {
    var g := Group(s[0].drugName, s[..n]);
    var gs := [g] + rest;
    assert Homogeneous(g) by {
      forall r | r in s[..n] ensures r.drugName == s[0].drugName {
        var i :| 0 <= i < n && s[..n][i] == r;
      }
    }
    assert Flatten(gs) == s by {
      assert gs[1..] == rest;
      assert s == s[..n] + s[n..];
    }
    forall k | 0 <= k < |gs| - 1 ensures gs[k].drugName != gs[k + 1].drugName {
      if k == 0 {
        assert s[n..][0] == s[n];
      } else {
        assert gs[k] == rest[k - 1] && gs[k + 1] == rest[k];
      }
    }
    forall k | 0 <= k < |gs| ensures Homogeneous(gs[k]) {
      if k > 0 {
        assert gs[k] == rest[k - 1];
      }
    }
  }

  /** The drug names of a sequence of groups are strictly ascending. */
  ghost predicate AscendingGroups(gs: seq<Group>)
  {
    forall i, j :: 0 <= i < j < |gs| ==> Names.Less(gs[i].drugName, gs[j].drugName)
  }

  lemma {:induction false} SortedSuffix(s: seq<Prescription>, n: nat)
    requires n <= |s|
    requires StableSort.SortedBy(s, DrugOf, Names.LessEq)
    ensures StableSort.SortedBy(s[n..], DrugOf, Names.LessEq)
  {
    forall i, j | 0 <= i < j < |s[n..]|
      ensures Names.LessEq(DrugOf(s[n..][i]), DrugOf(s[n..][j]))
    {
      assert s[n..][i] == s[n + i] && s[n..][j] == s[n + j];
    }
  }

  /** A first group whose name precedes the first of some ascending groups keeps them ascending. */
  lemma {:induction false} AscendingCons(g: Group, rest: seq<Group>)
    requires AscendingGroups(rest)
    requires rest != [] ==> Names.Less(g.drugName, rest[0].drugName)
    ensures AscendingGroups([g] + rest)
  {
    var gs := [g] + rest;
    forall i, j | 0 <= i < j < |gs|
      ensures Names.Less(gs[i].drugName, gs[j].drugName)
    {
      if i == 0 && j > 1 {
        Names.LessTransitive(g.drugName, rest[0].drugName, rest[j - 1].drugName);
      } else if i > 0 {
        assert gs[i] == rest[i - 1] && gs[j] == rest[j - 1];
      }
    }
  }

  /** Runs of a name-sorted sequence come out in strictly ascending name order. */
  lemma {:induction false} RunsAscending(s: seq<Prescription>)
    requires StableSort.SortedBy(s, DrugOf, Names.LessEq)
    ensures AscendingGroups(Runs(s))
    decreases |s|
  {
    if s != [] {
      var n := RunLength(s);
      var rest := Runs(s[n..]);
      assert Runs(s) == [Group(s[0].drugName, s[..n])] + rest;
      SortedSuffix(s, n);
      RunsAscending(s[n..]);
      if n < |s| {
        assert Names.LessEq(DrugOf(s[0]), DrugOf(s[n]));
      }
      AscendingCons(Group(s[0].drugName, s[..n]), rest);
    }
  }

  lemma {:induction false} SelectHomogeneous(g: Group, k: string)
    requires Homogeneous(g)
    ensures StableSort.Select(g.records, DrugOf, k) == if g.drugName == k then g.records else []
  {
    SelectHomogeneousSeq(g.records, g.drugName, k);
  }

  lemma {:induction false} SelectHomogeneousSeq(s: seq<Prescription>, name: string, k: string)
    requires forall r :: r in s ==> r.drugName == name
    ensures StableSort.Select(s, DrugOf, k) == if name == k then s else []
  {
    if s != [] {
      assert s[0] in s;
      assert forall r :: r in s[1..] ==> r in s;
      SelectHomogeneousSeq(s[1..], name, k);
      assert s == [s[0]] + s[1..];
    }
  }

  /** Selecting a name no group has, from homogeneous groups, yields nothing. */
  lemma {:induction false} SelectFlattenAbsent(gs: seq<Group>, k: string)
    requires forall i :: 0 <= i < |gs| ==> Homogeneous(gs[i])
    requires forall i :: 0 <= i < |gs| ==> gs[i].drugName != k
    ensures StableSort.Select(Flatten(gs), DrugOf, k) == []
  {
    if gs != [] {
      var g, rest := gs[0], gs[1..];
      assert Flatten(gs) == g.records + Flatten(rest);
      assert forall i :: 0 <= i < |rest| ==> rest[i] == gs[i + 1];
      StableSort.SelectAppend(g.records, Flatten(rest), DrugOf, k);
      SelectHomogeneous(g, k);
      SelectFlattenAbsent(rest, k);
    }
  }

  /** Selecting the name of one of ascending, homogeneous groups yields exactly that group. */
  lemma {:induction false} SelectFlattenPresent(gs: seq<Group>, i: nat, k: string)
    requires forall j :: 0 <= j < |gs| ==> Homogeneous(gs[j])
    requires AscendingGroups(gs)
    requires i < |gs| && gs[i].drugName == k
    ensures StableSort.Select(Flatten(gs), DrugOf, k) == gs[i].records
  {
    var g, rest := gs[0], gs[1..];
    assert Flatten(gs) == g.records + Flatten(rest);
    assert forall j :: 0 <= j < |rest| ==> rest[j] == gs[j + 1];
    StableSort.SelectAppend(g.records, Flatten(rest), DrugOf, k);
    SelectHomogeneous(g, k);
    Names.LessIrreflexive(k);
    if i == 0 {
      forall j | 0 <= j < |rest|
        ensures rest[j].drugName != k
      {
        assert Names.Less(gs[0].drugName, gs[j + 1].drugName);
      }
      SelectFlattenAbsent(rest, k);
    } else {
      assert Names.Less(gs[0].drugName, gs[i].drugName);
      SelectFlattenPresent(rest, i - 1, k);
    }
  }

  function GroupDrugs(gs: seq<Group>): set<string>
  {
    set g | g in gs :: g.drugName
  }

  lemma {:induction false} FlattenDrugs(gs: seq<Group>)
    requires forall i :: 0 <= i < |gs| ==> Homogeneous(gs[i])
    ensures InputDrugs(Flatten(gs)) == GroupDrugs(gs)
  {
    if gs != [] {
      FlattenDrugs(gs[1..]);
      var g := gs[0];
      assert InputDrugs(g.records + Flatten(gs[1..])) == InputDrugs(g.records) + InputDrugs(Flatten(gs[1..]));
      assert InputDrugs(g.records) == {g.drugName} by {
        assert g.records[0] in g.records;
      }
      assert gs == [g] + gs[1..];
    }
  }

  /** The groups groupby yields over the name-sorted records. */
  function GroupsOf(records: seq<Prescription>): seq<Group>
  {
    Runs(StableSort.SortBy(records, DrugOf, Names.LessEq))
  }

  /** The report rows of `groupby_count_and_sum`, in the order it appends them. */
  function Aggregates(records: seq<Prescription>, parse: string -> Option<int>): seq<DrugTotal>
  {
    Summaries(GroupsOf(records), parse)
  }

  /** One summary row per group, in group order. */
  function Summaries(groups: seq<Group>, parse: string -> Option<int>): seq<DrugTotal>
    requires forall k :: 0 <= k < |groups| ==> |groups[k].records| > 0
  {
    seq(|groups|, k requires 0 <= k < |groups| =>
      Aggregate.Summary(groups[k].drugName, groups[k].records, parse))
  }

  lemma {:induction false} GroupsAscending(records: seq<Prescription>)
    ensures AscendingGroups(GroupsOf(records))
  {
    Names.LessEqTotalPreorder();
    StableSort.SortBySorted(records, DrugOf, Names.LessEq);
    RunsAscending(StableSort.SortBy(records, DrugOf, Names.LessEq));
  }

  /** Strictly ascending report names: no name occurs twice. */
  ghost predicate AscendingNames(totals: seq<DrugTotal>)
  {
    forall i, j :: 0 <= i < j < |totals| ==> Names.Less(totals[i].drugName, totals[j].drugName)
  }

  /** Every report row is the summary of exactly the input records carrying its name,
      taken in input order. */
  ghost predicate SummarisesInput(totals: seq<DrugTotal>, records: seq<Prescription>, parse: string -> Option<int>)
  {
    forall t :: t in totals ==>
      var g := StableSort.Select(records, DrugOf, t.drugName);
      |g| > 0 && t == Aggregate.Summary(t.drugName, g, parse)
  }

  lemma {:induction false} AscendingTail(totals: seq<DrugTotal>)
    requires totals != [] && AscendingNames(totals)
    ensures AscendingNames(totals[1..])
  {
    var p := totals[1..];
    forall i, j | 0 <= i < j < |p|
      ensures Names.Less(p[i].drugName, p[j].drugName)
    {
      assert p[i] == totals[i + 1] && p[j] == totals[j + 1];
    }
  }

  lemma {:induction false} ReportDrugsCons(t: DrugTotal, p: seq<DrugTotal>)
    ensures ReportDrugs([t] + p) == {t.drugName} + ReportDrugs(p)
  {
    var totals := [t] + p;
    forall d ensures d in ReportDrugs(totals) <==> d in {t.drugName} + ReportDrugs(p) {
      if d in ReportDrugs(totals) {
        var i :| 0 <= i < |totals| && totals[i].drugName == d;
        if i > 0 {
          assert totals[i] == p[i - 1];
        }
      }
      if d in ReportDrugs(p) {
        var i :| 0 <= i < |p| && p[i].drugName == d;
        assert totals[i + 1] == p[i];
      }
    }
  }

  /** Strictly ascending names are pairwise distinct: as many names as rows. */
  lemma {:induction false} AscendingCount(totals: seq<DrugTotal>)
    requires AscendingNames(totals)
    ensures |ReportDrugs(totals)| == |totals|
  {
    if totals != [] {
      var t, p := totals[0], totals[1..];
      assert totals == [t] + p;
      AscendingTail(totals);
      AscendingCount(p);
      ReportDrugsCons(t, p);
      AscendingHeadFresh(totals);
    }
  }

  lemma {:induction false} AscendingHeadFresh(totals: seq<DrugTotal>)
    requires totals != [] && AscendingNames(totals)
    ensures totals[0].drugName !in ReportDrugs(totals[1..])
  {
    var p := totals[1..];
    if totals[0].drugName in ReportDrugs(p) {
      var i :| 0 <= i < |p| && p[i].drugName == totals[0].drugName;
      assert Names.Less(totals[0].drugName, totals[i + 1].drugName);
      Names.LessIrreflexive(totals[0].drugName);
    }
  }

  lemma {:induction false} AggregatesAscending(records: seq<Prescription>, parse: string -> Option<int>)
    ensures AscendingNames(Aggregates(records, parse))
  {
    var groups := GroupsOf(records);
    var totals := Aggregates(records, parse);
    GroupsAscending(records);
    forall i, j | 0 <= i < j < |totals|
      ensures Names.Less(totals[i].drugName, totals[j].drugName)
    {
      assert totals[i].drugName == groups[i].drugName && totals[j].drugName == groups[j].drugName;
    }
  }

  lemma {:induction false} SortedDrugs(records: seq<Prescription>)
    ensures InputDrugs(StableSort.SortBy(records, DrugOf, Names.LessEq)) == InputDrugs(records)
  {
    var sorted := StableSort.SortBy(records, DrugOf, Names.LessEq);
    forall r ensures r in sorted <==> r in records {
      assert r in sorted <==> r in multiset(sorted);
    }
  }

  lemma {:induction false} SummariesDrugs(groups: seq<Group>, parse: string -> Option<int>)
    requires forall k :: 0 <= k < |groups| ==> |groups[k].records| > 0
    ensures ReportDrugs(Summaries(groups, parse)) == GroupDrugs(groups)
  {
    var totals := Summaries(groups, parse);
    forall d ensures d in ReportDrugs(totals) <==> d in GroupDrugs(groups) {
      if d in ReportDrugs(totals) {
        var i :| 0 <= i < |totals| && totals[i].drugName == d;
        assert groups[i] in groups;
      }
      if d in GroupDrugs(groups) {
        var i :| 0 <= i < |groups| && groups[i].drugName == d;
        assert totals[i] in totals;
      }
    }
  }

  lemma {:induction false} AggregatesDrugs(records: seq<Prescription>, parse: string -> Option<int>)
    ensures ReportDrugs(Aggregates(records, parse)) == InputDrugs(records)
  {
    FlattenDrugs(GroupsOf(records));
    SortedDrugs(records);
    SummariesDrugs(GroupsOf(records), parse);
  }

  lemma {:induction false} AggregatesSummarise(records: seq<Prescription>, parse: string -> Option<int>)
    ensures SummarisesInput(Aggregates(records, parse), records, parse)
  {
    var groups := GroupsOf(records);
    var totals := Aggregates(records, parse);
    Names.LessEqTotalPreorder();
    GroupsAscending(records);
    forall t | t in totals
      ensures var g := StableSort.Select(records, DrugOf, t.drugName);
        |g| > 0 && t == Aggregate.Summary(t.drugName, g, parse)
    {
      var i :| 0 <= i < |totals| && totals[i] == t;
      SelectFlattenPresent(groups, i, groups[i].drugName);
      StableSort.SortByStable(records, DrugOf, Names.LessEq, groups[i].drugName);
    }
  }

  /** Grouping yields one row per distinct input name, in ascending name order, each computed
      from exactly the records of that name: no drug is lost, invented or split. */
  lemma {:induction false} AggregatesCorrect(records: seq<Prescription>, parse: string -> Option<int>)
    ensures AscendingNames(Aggregates(records, parse))
    ensures ReportDrugs(Aggregates(records, parse)) == InputDrugs(records)
    ensures |Aggregates(records, parse)| == |InputDrugs(records)|
    ensures SummarisesInput(Aggregates(records, parse), records, parse)
  {
    AggregatesAscending(records, parse);
    AggregatesDrugs(records, parse);
    AscendingCount(Aggregates(records, parse));
    AggregatesSummarise(records, parse);
  }

  /** Summarising one more group appends its summary. */
  lemma {:induction false} SummariesSnoc(groups: seq<Group>, i: nat, parse: string -> Option<int>)
    requires i < |groups|
    requires forall k :: 0 <= k < |groups| ==> |groups[k].records| > 0
    ensures Summaries(groups[..i + 1], parse)
      == Summaries(groups[..i], parse) + [Aggregate.Summary(groups[i].drugName, groups[i].records, parse)]
  {
    var a := Summaries(groups[..i + 1], parse);
    var b := Summaries(groups[..i], parse) + [Aggregate.Summary(groups[i].drugName, groups[i].records, parse)];
    assert |a| == |b|;
    forall k | 0 <= k < |a| ensures a[k] == b[k] {
      assert groups[..i + 1][k] == groups[k];
      if k < i {
        assert groups[..i][k] == groups[k];
      }
    }
  }

  /** The grouping loop: one summary appended per group, groups in sorted-name order. */
  method GroupByCountAndSum(records: seq<Prescription>, parse: string -> Option<int>)
    returns (newRecords: seq<DrugTotal>)
    ensures newRecords == Aggregates(records, parse)
    ensures AscendingNames(newRecords)
    ensures ReportDrugs(newRecords) == InputDrugs(records)
    ensures SummarisesInput(newRecords, records, parse)
  {
    var drugSortedRecords := StableSort.SortBy(records, DrugOf, Names.LessEq);
    var drugsKeyGroup := Runs(drugSortedRecords);
    newRecords := [];
    for i := 0 to |drugsKeyGroup|
      invariant newRecords == Summaries(drugsKeyGroup[..i], parse)
    {
      var result := Aggregate.GetCountAndSum(drugsKeyGroup[i].drugName, drugsKeyGroup[i].records, parse);
      SummariesSnoc(drugsKeyGroup, i, parse);
      newRecords := newRecords + [result];
    }
    assert drugsKeyGroup[..|drugsKeyGroup|] == drugsKeyGroup;
    AggregatesCorrect(records, parse);
  }
}
