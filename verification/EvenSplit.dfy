/**
 Sequential stores that every target acknowledges spread evenly: with a fixed set of alive members, each
 member's count is the mean rounded down or up.
 */
module EvenSplit {
  import opened Seqs
  import opened Leader
  import opened Cluster
  import opened Invariants
  import opened Load

  // ---------------------------------------------------------------- Arithmetic

  predicate WithinOne(log: MemberLog, y: Addr, z: Addr) {
    CountOf(log, y) <= CountOf(log, z) + 1 && CountOf(log, z) <= CountOf(log, y) + 1
  }

  /** Counts within one of `a`'s sum to within `|members|` of the exact multiple, and `a`'s own tightens that by one. */
  lemma {:induction false} SumNear(members: seq<Addr>, log: MemberLog, a: Addr)
    requires forall z :: z in members ==> WithinOne(log, a, z)
    ensures var slack := |members| - if a in members then 1 else 0;
            -slack <= SumCounts(members, log) - |members| * CountOf(log, a) <= slack
  {
    if members != [] {
      var n := |members| - 1;
      SumNear(members[..n], log, a);
      OneMore(n, CountOf(log, a), |members|);
      assert a in members <==> a in members[..n] || a == members[n];
      assert members[n] in members;
    }
  }

  lemma OneMore(n: nat, v: int, m: nat)
    requires m == n + 1
    ensures m * v == n * v + v
  {
  }

  /** The mean of the counts, rounded down and up. */
  function FloorMean(total: int, n: nat): int
    requires n > 0
  {
    total / n
  }

  function CeilMean(total: int, n: nat): int
    requires n > 0
  {
    (total + n - 1) / n
  }

  lemma DivBounds(total: int, n: nat, v: int)
    requires n > 0
    requires n * v - (n - 1) <= total <= n * v + (n - 1)
    ensures FloorMean(total, n) <= v <= CeilMean(total, n)
  {
    DivAtMost(total, n, v);
    DivAtLeast(total + n - 1, n, v);
  }

  lemma DivAtMost(x: int, n: nat, v: int)
    requires n > 0 && x <= n * v + (n - 1)
    ensures x / n <= v
  {
    assert x == n * (x / n) + x % n;
    assert n * (v + 1) == n * v + n;
    if x / n >= v + 1 {
      MulMonotone(n, v + 1, x / n);
    }
  }

  lemma DivAtLeast(x: int, n: nat, v: int)
    requires n > 0 && n * v <= x
    ensures v <= x / n
  {
    assert x == n * (x / n) + x % n;
    assert n * (v - 1) == n * v - n;
    if x / n <= v - 1 {
      MulMonotone(n, x / n, v - 1);
    }
  }

  lemma MulMonotone(n: nat, x: int, y: int)
    requires x <= y
    ensures n * x <= n * y
  {
    assert n * y - n * x == n * (y - x);
  }

  lemma CloseCountsAreMeans(members: seq<Addr>, log: MemberLog, a: Addr)
    requires a in members
    requires forall z :: z in members ==> WithinOne(log, a, z)
    ensures FloorMean(SumCounts(members, log), |members|) <= CountOf(log, a)
            <= CeilMean(SumCounts(members, log), |members|)
  {
    SumNear(members, log, a);
    DivBounds(SumCounts(members, log), |members|, CountOf(log, a));
  }

  // ---------------------------------------------------------------- Sequential runs

  ghost predicate AliveAre(s: Sys, alive: seq<Addr>) {
    forall a :: IsAlive(s.mem.state.memberLog, a) <==> a in alive
  }

  /** A fan-out that finishes by this label has been acknowledged by every target. */
  ghost predicate NoneFailed(s: Sys, l: Label) {
    l.Finish? && l.sid in s.stores ==> s.stores[l.sid].failed == {}
  }

  /**
   From `i` to `j`: no restart, exactly `alive` are alive in every state, at most one store is in progress
   at a time, and every target of a finished fan-out has acknowledged it.
   */
  ghost predicate Sequential(run: seq<Sys>, labels: seq<Label>, i: nat, j: nat, alive: seq<Addr>)
    requires i <= j < |run| && |run| == |labels| + 1
  {
    && NoDup(alive)
    && CrashFree(labels, i, j)
    && (forall k :: i <= k <= j ==> |run[k].stores| <= 1 && AliveAre(run[k], alive))
    && (forall k :: i <= k < j ==> NoneFailed(run[k], labels[k]))
  }

  ghost predicate TargetsIn(s: Sys, alive: seq<Addr>) {
    forall sid :: sid in s.stores ==> Elems(s.stores[sid].targets) <= Elems(alive)
  }

  lemma StepKeepsTargetsIn(cfg: Config, s: Sys, l: Label, t: Sys, alive: seq<Addr>)
    requires ConfigOk(cfg) && MembersOk(s.mem.state) && Step(cfg, s, l, t)
    requires TargetsIn(s, alive)
    requires forall a :: IsAlive(s.mem.state.memberLog, a) ==> a in alive
    ensures TargetsIn(t, alive)
  {
    if l.Begin? {
      TargetsSound(cfg, s, l.sid, l.picked);
    }
  }

  /** With every target settled and none failed, all of them have acknowledged. */
  lemma CleanAcks(cfg: Config, s: Sys, sid: int)
    requires StoresOk(cfg, s) && Enabled(cfg, s, Finish(sid)) && s.stores[sid].failed == {}
    ensures var op := s.stores[sid];
            |op.acked| == cfg.tolerance && NoDup(op.acked) && Elems(op.acked) == Elems(op.targets)
  {
    var op := s.stores[sid];
    assert StoreOk(cfg.tolerance, s.attempts, s.applied, s.mem.counted, sid, op);
    assert Elems(op.acked) == Elems(op.targets);
    NoDupSize(op.acked);
    NoDupSize(op.targets);
  }

  /** A fan-out without failures adds `tolerance` to the alive members' total and no failure to anyone. */
  lemma CleanFinish(cfg: Config, s: Sys, sid: int, alive: seq<Addr>)
    requires ConfigOk(cfg) && StoresOk(cfg, s) && Enabled(cfg, s, Finish(sid))
    requires NoDup(alive) && TargetsIn(s, alive) && Elems(alive) <= s.mem.state.memberLog.Keys
    requires s.stores[sid].failed == {}
    ensures var t := DoFinish(cfg, s, sid);
            && SumCounts(alive, t.mem.state.memberLog) == SumCounts(alive, s.mem.state.memberLog) + cfg.tolerance
            && forall a :: FailsOf(t.fails, a) == FailsOf(s.fails, a)
  {
    CleanAcks(cfg, s, sid);
    SumCountAcks(alive, s.mem.state.memberLog, s.stores[sid].acked);
  }

  lemma OtherStepsKeepSum(cfg: Config, s: Sys, l: Label, t: Sys, alive: seq<Addr>)
    requires Step(cfg, s, l, t) && !l.Finish? && !l.Crash?
    requires Elems(alive) <= s.mem.state.memberLog.Keys
    ensures SumCounts(alive, t.mem.state.memberLog) == SumCounts(alive, s.mem.state.memberLog)
  {
    OtherStepsKeepCounts(cfg, s, l, t);
    assert forall a :: a in alive ==> a in Elems(alive);
    SumCongruent(alive, s.mem.state.memberLog, t.mem.state.memberLog);
  }

  /** Where a run without failures has got to since `s0`. */
  ghost predicate Progress(cfg: Config, s0: Sys, s: Sys, alive: seq<Addr>) {
    && TargetsIn(s, alive)
    && s.finished >= s0.finished
    && SumCounts(alive, s.mem.state.memberLog)
       == SumCounts(alive, s0.mem.state.memberLog) + cfg.tolerance * (s.finished - s0.finished)
    && forall a :: FailsOf(s.fails, a) == FailsOf(s0.fails, a)
  }

  lemma CleanStep(cfg: Config, s: Sys, l: Label, t: Sys, alive: seq<Addr>)
    requires ConfigOk(cfg) && Inv(cfg, s) && Step(cfg, s, l, t) && !l.Crash?
    requires NoDup(alive) && TargetsIn(s, alive)
    requires AliveAre(s, alive) && NoneFailed(s, l)
    ensures TargetsIn(t, alive)
    ensures t.finished == s.finished + if l.Finish? then 1 else 0
    ensures SumCounts(alive, t.mem.state.memberLog)
            == SumCounts(alive, s.mem.state.memberLog) + if l.Finish? then cfg.tolerance else 0
    ensures forall a :: FailsOf(t.fails, a) == FailsOf(s.fails, a)
  {
    StepKeepsTargetsIn(cfg, s, l, t, alive);
    assert Elems(alive) <= s.mem.state.memberLog.Keys by {
      assert forall a :: a in alive ==> IsAlive(s.mem.state.memberLog, a);
    }
    if l.Finish? {
      CleanFinish(cfg, s, l.sid, alive);
    } else {
      OtherStepsKeepSum(cfg, s, l, t, alive);
      OtherStepsKeepCounts(cfg, s, l, t);
    }
  }

  lemma TimesNext(c: nat, x: int)
    ensures c * (x + 1) == c * x + c
  {
  }

  lemma StepKeepsProgress(cfg: Config, s0: Sys, s: Sys, l: Label, t: Sys, alive: seq<Addr>)
    requires ConfigOk(cfg) && Inv(cfg, s) && Step(cfg, s, l, t) && !l.Crash?
    requires NoDup(alive) && AliveAre(s, alive) && NoneFailed(s, l)
    requires Progress(cfg, s0, s, alive)
    ensures Progress(cfg, s0, t, alive)
  {
    CleanStep(cfg, s, l, t, alive);
    TimesNext(cfg.tolerance, s.finished - s0.finished);
  }

  lemma SequentialProgress(cfg: Config, run: seq<Sys>, labels: seq<Label>, i: nat, j: nat, alive: seq<Addr>)
    requires ConfigOk(cfg) && IsRun(cfg, run, labels) && Inv(cfg, run[0])
    requires i <= j < |run| && Sequential(run, labels, i, j, alive) && run[i].stores == map[]
    ensures Progress(cfg, run[i], run[j], alive)
  {
    var p := (s: Sys) => Progress(cfg, run[i], s, alive);
    forall k | i <= k < j && p(run[k]) ensures p(run[k + 1]) {
      RunKeepsInv(cfg, run, labels, k);
      StepKeepsProgress(cfg, run[i], run[k], labels[k], run[k + 1], alive);
    }
    AlongRun(run, p, i, j);
  }

  /** One store at a time keeps any two alive members within one of each other. */
  lemma SequentialPair(cfg: Config, run: seq<Sys>, labels: seq<Label>, i: nat, j: nat, alive: seq<Addr>, y: Addr,
                       z: Addr)
    requires IsExecution(cfg, run, labels) && cfg.strategy.UseLeastLoaded?
    requires i <= j < |run| && Sequential(run, labels, i, j, alive)
    requires run[i].stores == map[] && y in alive && z in alive
    requires CountOf(run[i].mem.state.memberLog, y) == CountOf(run[i].mem.state.memberLog, z)
    requires Progress(cfg, run[i], run[j], alive)
    ensures WithinOne(run[j].mem.state.memberLog, y, z)
  {
    assert Steady(run, labels, i, j, y, z, 1);
    SpreadWithoutFailures(cfg, run, labels, i, j, y, z, 1);
  }

  /**
   From zero counts and nothing in progress, with a fixed set of n alive members, one store at a time and
   every fan-out acknowledged by all its targets: after S finished stores each alive member's count is
   S * tolerance / n rounded down or up.
   */
  lemma SequentialStoresSplitEvenly(cfg: Config, run: seq<Sys>, labels: seq<Label>, i: nat, j: nat, alive: seq<Addr>,
                                    a: Addr)
    requires IsExecution(cfg, run, labels) && cfg.strategy.UseLeastLoaded?
    requires i <= j < |run| && Sequential(run, labels, i, j, alive)
    requires run[i].stores == map[]
    requires forall z :: z in alive ==> CountOf(run[i].mem.state.memberLog, z) == 0
    requires a in alive
    ensures var total := cfg.tolerance * (run[j].finished - run[i].finished);
            FloorMean(total, |alive|) <= CountOf(run[j].mem.state.memberLog, a) <= CeilMean(total, |alive|)
  {
    ExecutionInv(cfg, run, labels, 0);
    SequentialProgress(cfg, run, labels, i, j, alive);
    FreshTotal(alive, run[i].mem.state.memberLog);
    forall z | z in alive ensures WithinOne(run[j].mem.state.memberLog, a, z) {
      SequentialPair(cfg, run, labels, i, j, alive, a, z);
    }
    CloseCountsAreMeans(alive, run[j].mem.state.memberLog, a);
  }
}
