/** Which tests a run selects: by filter, by the disabled prefix, and by shard. */
module Sharding {
  import opened Bytes
  import opened Globs

  const DISABLED_FILTER := "DISABLED_*:*/DISABLED_*"

  datatype TestInfo = TestInfo(name: string, disabled: bool, matches: bool, shouldRun: bool)

  datatype CaseInfo = CaseInfo(name: string, tests: seq<TestInfo>, shouldRun: bool)

  /** The sharding protocol, when it is honoured. */
  datatype Shard = Shard(total: nat, index: nat)

  datatype Flags = Flags(filter: string, alsoRunDisabled: bool)

  // ---------------------------------------------------------------------
  // Runnable tests and their shards

  ghost predicate IsDisabled(caseName: string, test: string) {
    SomePiece(DISABLED_FILTER, caseName) || SomePiece(DISABLED_FILTER, test)
  }

  ghost predicate NamedDisabled(name: string) {
    "DISABLED_" <= name || Contains(name, "/DISABLED_")
  }

  /** The names that the filter for disabled tests means: those with the prefix
      at the start or after a slash. */
  lemma DisabledMeans(caseName: string, test: string)
    ensures IsDisabled(caseName, test) <==> NamedDisabled(caseName) || NamedDisabled(test)
  {
    hide SomePiece;
    DisabledName(caseName);
    DisabledName(test);
  }

  lemma DisabledName(name: string)
    ensures SomePiece(DISABLED_FILTER, name) <==> NamedDisabled(name)
  {
    hide SomePiece, PatternMatchesString, Contains;
    DisabledPieces();
    TwoPieces("DISABLED_" + "*", "*" + ("/DISABLED_" + "*"), name);
    LiteralStarMatches("DISABLED_", name);
    StarLiteral("/DISABLED_", name);
  }

  lemma DisabledPieces()
    ensures DISABLED_FILTER == ("DISABLED_" + "*") + (":" + ("*" + ("/DISABLED_" + "*")))
  {
  }

  ghost predicate IsRunnable(caseName: string, test: string, flags: Flags) {
    (flags.alsoRunDisabled || !IsDisabled(caseName, test)) && Selected(caseName + "." + test, flags.filter)
  }

  ghost function Runnable(caseName: string, tests: seq<TestInfo>, flags: Flags): seq<bool> {
    seq(|tests|, i requires 0 <= i < |tests| => IsRunnable(caseName, tests[i].name, flags))
  }

  ghost function AllRunnable(cases: seq<CaseInfo>, flags: Flags): seq<bool> {
    if cases == [] then []
    else
      var n := |cases| - 1;
      AllRunnable(cases[..n], flags) + Runnable(cases[n].name, cases[n].tests, flags)
  }

  function ShouldRun(tests: seq<TestInfo>): seq<bool> {
    seq(|tests|, i requires 0 <= i < |tests| => tests[i].shouldRun)
  }

  function AllShouldRun(cases: seq<CaseInfo>): seq<bool> {
    if cases == [] then []
    else
      var n := |cases| - 1;
      AllShouldRun(cases[..n]) + ShouldRun(cases[n].tests)
  }

  function Count(flags: seq<bool>): nat {
    if flags == [] then 0 else Count(flags[..|flags| - 1]) + if flags[|flags| - 1] then 1 else 0
  }

  predicate OnShard(rank: nat, shard: Option<Shard>)
    requires shard.Some? ==> shard.value.total > 0
  {
    shard.Some? ==> rank % shard.value.total == shard.value.index
  }

  /** The selected tests: a runnable test goes by its rank among the runnable. */
  function Marks(runnable: seq<bool>, shard: Option<Shard>): (marks: seq<bool>)
    requires shard.Some? ==> shard.value.total > 0
    ensures |marks| == |runnable|
  {
    if runnable == [] then []
    else
      var n := |runnable| - 1;
      Marks(runnable[..n], shard) + [runnable[n] && OnShard(Count(runnable[..n]), shard)]
  }

  lemma {:induction false} MarkAt(runnable: seq<bool>, shard: Option<Shard>, p: nat)
    requires shard.Some? ==> shard.value.total > 0
    requires p < |runnable|
    ensures Marks(runnable, shard)[p] <==> runnable[p] && OnShard(Count(runnable[..p]), shard)
  {
    var n := |runnable| - 1;
    if p < n {
      MarkAt(runnable[..n], shard, p);
      assert runnable[..n][..p] == runnable[..p];
    }
  }

  /** The shards partition the runnable tests: each is selected by exactly one
      shard, and a test that is not runnable by none. */
  lemma ShardsPartition(runnable: seq<bool>, total: nat, p: nat)
    requires total > 0 && p < |runnable|
    ensures runnable[p] ==> exists k ::
              0 <= k < total && Marks(runnable, Some(Shard(total, k)))[p]
              && forall m | 0 <= m < total && m != k :: !Marks(runnable, Some(Shard(total, m)))[p]
    ensures forall m | 0 <= m < total ::
              Marks(runnable, Some(Shard(total, m)))[p] <==> runnable[p] && Count(runnable[..p]) % total == m
    ensures Marks(runnable, None)[p] <==> runnable[p]
    ensures !runnable[p] ==> forall m | 0 <= m < total :: !Marks(runnable, Some(Shard(total, m)))[p]
  {
    forall m | 0 <= m < total
      ensures Marks(runnable, Some(Shard(total, m)))[p] <==> runnable[p] && Count(runnable[..p]) % total == m
    {
      MarkAt(runnable, Some(Shard(total, m)), p);
    }
    MarkAt(runnable, None, p);
    var k := Count(runnable[..p]) % total;
    assert runnable[p] ==> Marks(runnable, Some(Shard(total, k)))[p];
  }

  /** The counts that the first n shards return, added up. */
  function CountsUpTo(runnable: seq<bool>, total: nat, n: nat): nat
    requires total > 0
  {
    if n == 0 then 0
    else CountsUpTo(runnable, total, n - 1) + Count(Marks(runnable, Some(Shard(total, n - 1))))
  }

  lemma {:induction false} CountsStep(runnable: seq<bool>, total: nat, n: nat)
    requires total > 0 && runnable != []
    ensures var last := |runnable| - 1;
            var init := runnable[..last];
            CountsUpTo(runnable, total, n)
            == CountsUpTo(init, total, n) + if runnable[last] && Count(init) % total < n then 1 else 0
  {
    if n > 0 {
      CountsStep(runnable, total, n - 1);
      var last := |runnable| - 1;
      var marks := Marks(runnable, Some(Shard(total, n - 1)));
      assert marks[..last] == Marks(runnable[..last], Some(Shard(total, n - 1)));
    }
  }

  lemma {:induction false} NoCounts(total: nat, n: nat)
    requires total > 0
    ensures CountsUpTo([], total, n) == 0
  {
    if n > 0 {
      NoCounts(total, n - 1);
    }
  }

  /** The counts of all shards add up to the number of runnable tests. */
  lemma {:induction false} ShardCountsAddUp(runnable: seq<bool>, total: nat)
    requires total > 0
    ensures CountsUpTo(runnable, total, total) == Count(runnable)
  {
    if runnable == [] {
      NoCounts(total, total);
    } else {
      CountsStep(runnable, total, total);
      ShardCountsAddUp(runnable[..|runnable| - 1], total);
    }
  }

  lemma {:induction false} MarksJoin(a: seq<bool>, b: bool, shard: Option<Shard>)
    requires shard.Some? ==> shard.value.total > 0
    ensures Marks(a + [b], shard) == Marks(a, shard) + [b && OnShard(Count(a), shard)]
    ensures Count(a + [b]) == Count(a) + if b then 1 else 0
  {
    assert (a + [b])[..|a|] == a;
  }

  // ---------------------------------------------------------------------
  // The filtering pass

  /** The records are of the same tests. */
  ghost predicate SameTests(a: CaseInfo, b: CaseInfo) {
    a.name == b.name && |a.tests| == |b.tests|
    && forall j | 0 <= j < |a.tests| :: a.tests[j].name == b.tests[j].name
  }

  /** The record says of the test whether it is disabled and whether the filter
      selects it. */
  ghost predicate Noted(caseName: string, t: TestInfo, flags: Flags) {
    && t.disabled == IsDisabled(caseName, t.name)
    && t.matches == Selected(caseName + "." + t.name, flags.filter)
  }

  ghost predicate AllNoted(c: CaseInfo, flags: Flags) {
    forall j | 0 <= j < |c.tests| :: Noted(c.name, c.tests[j], flags)
  }

  /** A case runs exactly when one of its tests does. */
  ghost predicate Consistent(c: CaseInfo) {
    c.shouldRun <==> exists j :: 0 <= j < |c.tests| && c.tests[j].shouldRun
  }

  lemma {:induction false} SameRunnable(a: seq<CaseInfo>, b: seq<CaseInfo>, flags: Flags)
    requires |a| == |b| && forall i | 0 <= i < |a| :: SameTests(a[i], b[i])
    ensures AllRunnable(a, flags) == AllRunnable(b, flags)
  {
    hide IsRunnable;
    if a != [] {
      var n := |a| - 1;
      SameRunnable(a[..n], b[..n], flags);
      assert SameTests(a[n], b[n]);
    }
  }

  class TestPlan {
    var cases: seq<CaseInfo>

    constructor (cases: seq<CaseInfo>)
      ensures this.cases == cases
    {
      this.cases := cases;
    }

    /** One test of the pass: its new record, and whether it is runnable. */
    method FilterTest(caseName: string, info: TestInfo, flags: Flags, shard: Option<Shard>, rank: nat)
      returns (r: TestInfo, runnable: bool)
      requires shard.Some? ==> shard.value.total > 0
      ensures r.name == info.name && runnable == IsRunnable(caseName, info.name, flags)
      ensures Noted(caseName, r, flags)
      ensures r.shouldRun == (runnable && OnShard(rank, shard))
    {
      hide SomePiece, Selected;
      var disabled := MatchesFilter(caseName, DISABLED_FILTER);
      if !disabled {
        disabled := MatchesFilter(info.name, DISABLED_FILTER);
      }
      var matches := FilterMatchesTest(caseName, info.name, flags.filter);
      runnable := (flags.alsoRunDisabled || !disabled) && matches;
      r := TestInfo(info.name, disabled, matches, runnable && OnShard(rank, shard));
    }

    /** The pass over one case, given the runnable tests before it. */
    method FilterCase(c: CaseInfo, flags: Flags, shard: Option<Shard>, numRunnable: nat, ghost before: seq<bool>)
      returns (r: CaseInfo, runnable: nat, selected: nat)
      requires shard.Some? ==> shard.value.total > 0
      requires numRunnable == Count(before)
      ensures SameTests(r, c) && Consistent(r) && AllNoted(r, flags)
      ensures var all := before + Runnable(c.name, c.tests, flags);
              && Marks(all, shard) == Marks(before, shard) + ShouldRun(r.tests)
              && runnable == Count(all)
              && selected + Count(Marks(before, shard)) == Count(Marks(all, shard))
    {
      hide IsRunnable, OnShard, Noted, Marks, Count;
      var done: seq<TestInfo>, anyRuns := [], false;
      runnable, selected := numRunnable, 0;
      ghost var all := before;
      NoTests(c.name, flags, before);
      assert before + [] == before;
      for j := 0 to |c.tests|
        invariant |done| == j
        invariant forall k | 0 <= k < j :: done[k].name == c.tests[k].name && Noted(c.name, done[k], flags)
        invariant all == before + Runnable(c.name, c.tests[..j], flags)
        invariant Marks(all, shard) == Marks(before, shard) + ShouldRun(done)
        invariant runnable == Count(all)
        invariant selected + Count(Marks(before, shard)) == Count(Marks(all, shard))
        invariant anyRuns <==> exists k :: 0 <= k < j && done[k].shouldRun
      {
        var info, isRunnable := FilterTest(c.name, c.tests[j], flags, shard, runnable);
        MarksJoin(all, isRunnable, shard);
        CountJoin(Marks(all, shard), info.shouldRun);
        ColumnsJoin(c, j, done, info, flags);
        all := all + [isRunnable];
        done := done + [info];
        anyRuns := anyRuns || info.shouldRun;
        runnable := runnable + if isRunnable then 1 else 0;
        selected := selected + if info.shouldRun then 1 else 0;
      }
      assert c.tests[..|c.tests|] == c.tests;
      r := CaseInfo(c.name, done, anyRuns);
    }

    lemma NoTests(name: string, flags: Flags, before: seq<bool>)
      ensures Runnable(name, [], flags) == [] && ShouldRun([]) == []
    {
    }

    lemma ColumnsJoin(c: CaseInfo, j: nat, done: seq<TestInfo>, info: TestInfo, flags: Flags)
      requires j < |c.tests|
      ensures Runnable(c.name, c.tests[..j + 1], flags)
              == Runnable(c.name, c.tests[..j], flags) + [IsRunnable(c.name, c.tests[j].name, flags)]
      ensures ShouldRun(done + [info]) == ShouldRun(done) + [info.shouldRun]
    {
      hide IsRunnable;
    }

    lemma CountJoin(a: seq<bool>, b: bool)
      ensures Count(a + [b]) == Count(a) + if b then 1 else 0
    {
      assert (a + [b])[..|a|] == a;
    }

    /** `FilterTests`: records for every test whether it runs on this shard and
        returns how many do. */
    method FilterTests(flags: Flags, shard: Option<Shard>) returns (selected: nat)
      requires shard.Some? ==> shard.value.total > 0
      modifies this
      ensures |cases| == |old(cases)|
      ensures forall i | 0 <= i < |cases| :: SameTests(cases[i], old(cases)[i]) && Consistent(cases[i])
      ensures forall i | 0 <= i < |cases| :: AllNoted(cases[i], flags)
      ensures AllShouldRun(cases) == Marks(AllRunnable(old(cases), flags), shard)
      ensures selected == Count(AllShouldRun(cases))
    {
      hide Marks, Runnable, ShouldRun, SameTests, Consistent, AllNoted, Count;
      var runnable := 0;
      selected := 0;
      ghost var was := cases;
      NothingYet(flags, shard);
      assert was[..0] == [] && cases[..0] == [];
      for i := 0 to |cases|
        invariant |cases| == |was|
        invariant forall k | 0 <= k < i :: SameTests(cases[k], was[k]) && Consistent(cases[k]) && AllNoted(cases[k], flags)
        invariant forall k | i <= k < |cases| :: cases[k] == was[k]
        invariant runnable == Count(AllRunnable(was[..i], flags))
        invariant AllShouldRun(cases[..i]) == Marks(AllRunnable(was[..i], flags), shard)
        invariant selected == Count(AllShouldRun(cases[..i]))
      {
        var c, r, s := FilterCase(cases[i], flags, shard, runnable, AllRunnable(was[..i], flags));
        ghost var before := cases[..i];
        cases := cases[i := c];
        CasesJoin(was, cases, i, before, c, flags);
        runnable, selected := r, selected + s;
      }
      assert was[..|was|] == was && cases[..|was|] == cases;
    }

    lemma NothingYet(flags: Flags, shard: Option<Shard>)
      requires shard.Some? ==> shard.value.total > 0
      ensures AllRunnable([], flags) == [] && AllShouldRun([]) == [] && Marks([], shard) == [] && Count([]) == 0
    {
    }

    lemma CasesJoin(was: seq<CaseInfo>, now: seq<CaseInfo>, i: nat, before: seq<CaseInfo>, c: CaseInfo, flags: Flags)
      requires i < |was| == |now| && before == now[..i] && now[i] == c
      ensures AllRunnable(was[..i + 1], flags)
              == AllRunnable(was[..i], flags) + Runnable(was[i].name, was[i].tests, flags)
      ensures AllShouldRun(now[..i + 1]) == AllShouldRun(before) + ShouldRun(c.tests)
    {
      hide Runnable, ShouldRun;
      assert was[..i + 1][..i] == was[..i] && now[..i + 1][..i] == before;
    }
  }
}
