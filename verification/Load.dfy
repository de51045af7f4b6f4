/** Message counts: what they are bounded by, what they sum to, and how far apart they can drift. */
module Load {
  import opened Seqs
  import opened Balancer
  import opened Leader
  import opened Cluster
  import opened Invariants

  function CountOf(log: MemberLog, a: Addr): int {
    if a in log then log[a].messageCnt else 0
  }

  // ---------------------------------------------------------------- Bounds that survive restarts

  /** The ids whose replicas include `a`. */
  function IdsOn(st: LeaderState, a: Addr): set<int> {
    set id | id in st.msgMap && a in st.msgMap[id]
  }

  function IdsOf(attempts: map<int, Attempt>, sids: set<int>): set<int> {
    set sid | sid in sids && sid in attempts :: attempts[sid].id
  }

  lemma {:induction false} IdsOfSize(attempts: map<int, Attempt>, sids: set<int>)
    ensures |IdsOf(attempts, sids)| <= |sids|
  {
    if sids != {} {
      var sid := AnElement(sids);
      IdsOfSize(attempts, sids - {sid});
      if sid in attempts {
        assert IdsOf(attempts, sids) == IdsOf(attempts, sids - {sid}) + {attempts[sid].id};
      } else {
        assert IdsOf(attempts, sids) == IdsOf(attempts, sids - {sid});
      }
    }
  }

  lemma ImageBounds(tolerance: nat, attempts: map<int, Attempt>, applied: map<Addr, set<int>>, im: Image, a: Addr)
    requires ImageOk(tolerance, attempts, applied, im) && a in im.state.memberLog
    ensures |IdsOn(im.state, a)| <= im.state.memberLog[a].messageCnt <= |AppliedOn(applied, a)|
  {
    forall id | id in IdsOn(im.state, a) ensures id in IdsOf(attempts, im.counted[a]) {
      assert Backed(attempts, im.counted, id, a);
    }
    IdsOfSize(attempts, im.counted[a]);
    SubsetSize(IdsOn(im.state, a), IdsOf(attempts, im.counted[a]));
    SubsetSize(im.counted[a], AppliedOn(applied, a));
  }

  /**
   In every execution, restarts included, a member's count in memory and on file is at least the number of
   ids indexed on it and at most the number of writes it has performed.
   */
  lemma CountsAreBounded(cfg: Config, run: seq<Sys>, labels: seq<Label>, i: nat, a: Addr)
    requires IsExecution(cfg, run, labels) && i < |run|
    ensures a in run[i].mem.state.memberLog ==>
              |IdsOn(run[i].mem.state, a)| <= run[i].mem.state.memberLog[a].messageCnt
              <= |AppliedOn(run[i].applied, a)|
    ensures run[i].saved.Some? && a in run[i].saved.value.state.memberLog ==>
              |IdsOn(run[i].saved.value.state, a)| <= run[i].saved.value.state.memberLog[a].messageCnt
              <= |AppliedOn(run[i].applied, a)|
  {
    ExecutionInv(cfg, run, labels, i);
    var s := run[i];
    if a in s.mem.state.memberLog {
      ImageBounds(cfg.tolerance, s.attempts, s.applied, s.mem, a);
    }
    if s.saved.Some? && a in s.saved.value.state.memberLog {
      ImageBounds(cfg.tolerance, s.attempts, s.applied, s.saved.value, a);
    }
  }

  // ---------------------------------------------------------------- Sums

  function SumCounts(members: seq<Addr>, log: MemberLog): int {
    if members == [] then 0
    else SumCounts(members[..|members| - 1], log) + CountOf(log, members[|members| - 1])
  }

  lemma {:induction false} SumCongruent(members: seq<Addr>, log: MemberLog, log': MemberLog)
    requires forall a :: a in members ==> CountOf(log, a) == CountOf(log', a)
    ensures SumCounts(members, log) == SumCounts(members, log')
  {
    if members != [] {
      SumCongruent(members[..|members| - 1], log, log');
    }
  }

  lemma {:induction false} SumCountAck(members: seq<Addr>, log: MemberLog, a: Addr)
    requires NoDup(members) && a in members && a in log
    ensures SumCounts(members, CountAck(log, a)) == SumCounts(members, log) + 1
  {
    var n := |members| - 1;
    if members[n] == a {
      SumCongruent(members[..n], log, CountAck(log, a));
    } else {
      SumCountAck(members[..n], log, a);
    }
  }

  /** A finished fan-out adds exactly its acks to the total. */
  lemma {:induction false} SumCountAcks(members: seq<Addr>, log: MemberLog, acked: seq<Addr>)
    requires NoDup(members) && NoDup(acked) && Elems(acked) <= Elems(members) <= log.Keys
    ensures SumCounts(members, CountAcks(log, acked)) == SumCounts(members, log) + |acked|
  {
    if acked != [] {
      var n := |acked| - 1;
      assert Elems(acked[..n]) <= Elems(acked);
      SumCountAcks(members, log, acked[..n]);
      CountAcksEffect(log, acked[..n]);
      assert acked[n] in Elems(acked);
      SumCountAck(members, CountAcks(log, acked[..n]), acked[n]);
    }
  }

  function TotalCount(st: LeaderState): int {
    SumCounts(st.members, st.memberLog)
  }

  lemma FinishAddsAcks(cfg: Config, s: Sys, sid: int)
    requires ConfigOk(cfg) && Inv(cfg, s) && Enabled(cfg, s, Finish(sid))
    ensures var t := DoFinish(cfg, s, sid);
            && TotalCount(t.mem.state) - t.acks == TotalCount(s.mem.state) - s.acks
            && TotalCount(t.mem.state) >= TotalCount(s.mem.state)
  {
    var op := s.stores[sid];
    assert StoreOk(cfg.tolerance, s.attempts, s.applied, s.mem.counted, sid, op);
    SumCountAcks(s.mem.state.members, s.mem.state.memberLog, op.acked);
  }

  lemma SameCountsSameTotal(st: LeaderState, log: MemberLog)
    requires log.Keys == st.memberLog.Keys
    requires forall a :: a in log ==> log[a].messageCnt == st.memberLog[a].messageCnt
    ensures TotalCount(st.(memberLog := log)) == TotalCount(st)
  {
    SumCongruent(st.members, st.memberLog, log);
  }

  lemma JoinKeepsTotal(st: LeaderState, a: Addr, now: int)
    requires MembersOk(st) && a !in st.memberLog
    ensures TotalCount(OnRegister(st, a, now)) == TotalCount(st)
  {
    var t := OnRegister(st, a, now);
    assert a !in Elems(st.members);
    assert t.members[..|t.members| - 1] == st.members;
    SumCongruent(st.members, st.memberLog, t.memberLog);
  }

  /** Every step but a finished fan-out and a restart leaves the total of the counts alone. */
  lemma OtherStepsKeepTotal(cfg: Config, s: Sys, l: Label, t: Sys)
    requires MembersOk(s.mem.state) && Step(cfg, s, l, t) && !l.Finish? && !l.Crash?
    ensures TotalCount(t.mem.state) == TotalCount(s.mem.state) && t.acks == s.acks
  {
    if l.JoinNew? {
      JoinKeepsTotal(s.mem.state, l.a, l.now);
    } else if l.JoinKnown? || l.Beat? || l.Tick? {
      assert t.mem.state == s.mem.state.(memberLog := t.mem.state.memberLog);
      SameCountsSameTotal(s.mem.state, t.mem.state.memberLog);
    }
  }

  /** Between restarts the counts grow, in total, by exactly the acks of the finished stores. */
  lemma AcksAreConserved(cfg: Config, run: seq<Sys>, labels: seq<Label>, i: nat, j: nat)
    requires ConfigOk(cfg) && IsRun(cfg, run, labels) && Inv(cfg, run[0]) && i <= j < |run|
    requires CrashFree(labels, i, j)
    ensures TotalCount(run[j].mem.state) - run[j].acks == TotalCount(run[i].mem.state) - run[i].acks
  {
    var d := TotalCount(run[i].mem.state) - run[i].acks;
    var p := (s: Sys) => TotalCount(s.mem.state) - s.acks == d;
    forall k | i <= k < j && p(run[k]) ensures p(run[k + 1]) {
      RunKeepsInv(cfg, run, labels, k);
      StepKeepsBalance(cfg, run[k], labels[k], run[k + 1]);
    }
    AlongRun(run, p, i, j);
  }

  lemma StepKeepsBalance(cfg: Config, s: Sys, l: Label, t: Sys)
    requires ConfigOk(cfg) && Inv(cfg, s) && Step(cfg, s, l, t) && !l.Crash?
    ensures TotalCount(t.mem.state) - t.acks == TotalCount(s.mem.state) - s.acks
  {
    if l.Finish? {
      FinishAddsAcks(cfg, s, l.sid);
    } else {
      OtherStepsKeepTotal(cfg, s, l, t);
    }
  }

  /** From the start of the cluster to its first restart, the counts total exactly the acks of the finished stores. */
  lemma CountsAreAcks(cfg: Config, run: seq<Sys>, labels: seq<Label>, j: nat)
    requires IsExecution(cfg, run, labels) && j < |run| && CrashFree(labels, 0, j)
    ensures TotalCount(run[j].mem.state) == run[j].acks
  {
    var now :| run[0] == Init(cfg, now);
    FreshCovers(cfg, now);
    ExecutionInv(cfg, run, labels, 0);
    AcksAreConserved(cfg, run, labels, 0, j);
  }

  /** The counts of an image cover its index: `tolerance` for every id. */
  ghost predicate Covers(cfg: Config, im: Image) {
    TotalCount(im.state) >= cfg.tolerance * |im.state.msgMap|
  }

  lemma FinishKeepsCover(cfg: Config, s: Sys, sid: int)
    requires ConfigOk(cfg) && Inv(cfg, s) && Enabled(cfg, s, Finish(sid)) && Covers(cfg, s.mem)
    ensures Covers(cfg, DoFinish(cfg, s, sid).mem)
  {
    var t := DoFinish(cfg, s, sid);
    FinishAddsAcks(cfg, s, sid);
    var acked := s.stores[sid].acked;
    if |acked| >= cfg.tolerance {
      assert t.acks >= s.acks + cfg.tolerance;
      assert |t.mem.state.msgMap| <= |s.mem.state.msgMap| + 1;
      MulStep(cfg.tolerance, |t.mem.state.msgMap|, |s.mem.state.msgMap|);
    }
  }

  lemma MulStep(c: nat, x: nat, y: nat)
    requires x <= y + 1
    ensures c * x <= c * y + c
  {
    assert c * (y + 1) == c * y + c;
    assert c * x <= c * (y + 1);
  }

  ghost predicate BothCover(cfg: Config, s: Sys) {
    Covers(cfg, s.mem) && (s.saved.Some? ==> Covers(cfg, s.saved.value))
  }

  lemma FreshCovers(cfg: Config, now: int)
    requires ConfigOk(cfg)
    ensures TotalCount(FreshImage(cfg.initial, now).state) == 0
    ensures Covers(cfg, FreshImage(cfg.initial, now))
  {
    FreshTotal(cfg.initial, FreshState(cfg.initial, now).memberLog);
  }

  lemma {:induction false} FreshTotal(members: seq<Addr>, log: MemberLog)
    requires forall a :: a in members ==> CountOf(log, a) == 0
    ensures SumCounts(members, log) == 0
  {
    if members != [] {
      FreshTotal(members[..|members| - 1], log);
    }
  }

  lemma StepKeepsMemCover(cfg: Config, s: Sys, l: Label, t: Sys)
    requires ConfigOk(cfg) && Inv(cfg, s) && Step(cfg, s, l, t) && !l.Crash? && Covers(cfg, s.mem)
    ensures Covers(cfg, t.mem)
  {
    if l.Finish? {
      FinishKeepsCover(cfg, s, l.sid);
    } else {
      OtherStepsKeepTotal(cfg, s, l, t);
    }
  }

  lemma CrashKeepsCover(cfg: Config, s: Sys, now: int)
    requires ConfigOk(cfg) && BothCover(cfg, s)
    ensures Covers(cfg, DoCrash(cfg, s, now).mem)
  {
    FreshCovers(cfg, now);
  }

  lemma StepKeepsCover(cfg: Config, s: Sys, l: Label, t: Sys)
    requires ConfigOk(cfg) && Inv(cfg, s) && Step(cfg, s, l, t) && BothCover(cfg, s)
    ensures BothCover(cfg, t)
  {
    SavedChanges(cfg, s, l, t);
    if l.Crash? {
      CrashKeepsCover(cfg, s, l.now);
    } else {
      StepKeepsMemCover(cfg, s, l, t);
    }
  }

  /** In every execution, restarts included, the counts total at least `tolerance` for every indexed id. */
  lemma CountsCoverIndex(cfg: Config, run: seq<Sys>, labels: seq<Label>, i: nat)
    requires IsExecution(cfg, run, labels) && i < |run|
    ensures BothCover(cfg, run[i])
  {
    var now :| run[0] == Init(cfg, now);
    FreshCovers(cfg, now);
    ExecutionInv(cfg, run, labels, 0);
    var p := (s: Sys) => BothCover(cfg, s);
    forall k | 0 <= k < i && p(run[k]) ensures p(run[k + 1]) {
      RunKeepsInv(cfg, run, labels, k);
      StepKeepsCover(cfg, run[k], labels[k], run[k + 1]);
    }
    AlongRun(run, p, 0, i);
  }

  // ---------------------------------------------------------------- Spread

  /** The stores in progress that target `y` and not `z`. */
  function InFlight(stores: map<int, StoreOp>, y: Addr, z: Addr): set<int> {
    set sid | sid in stores && y in stores[sid].targets && z !in stores[sid].targets
  }

  /** How far `y` is ahead of `z`, with what is in progress and what `z` failed to acknowledge. */
  function Lead(s: Sys, y: Addr, z: Addr): int {
    CountOf(s.mem.state.memberLog, y) + |InFlight(s.stores, y, z)|
    - CountOf(s.mem.state.memberLog, z) - FailsOf(s.fails, z)
  }

  /** Of the candidates, a chosen one has no larger count than one left out. */
  lemma ChosenCandidate(cs: seq<MemberLoad>, tolerance: nat, p: MemberLoad, q: MemberLoad)
    requires DistinctAddrs(cs) && p in LeastLoaded(cs, tolerance) && q in cs && q !in LeastLoaded(cs, tolerance)
    ensures p.count <= q.count
  {
    assert q in multiset(cs) - multiset(LeastLoaded(cs, tolerance));
    LeastLoadedOrdered(cs, tolerance, p, q);
  }

  /** A member chosen while another alive one is not has no larger count. */
  lemma ChosenIsNotHeavier(cfg: Config, s: Sys, sid: int, picked: seq<MemberLoad>, y: Addr, z: Addr)
    requires ConfigOk(cfg) && cfg.strategy.UseLeastLoaded? && MembersOk(s.mem.state) && CanBegin(cfg, s, sid, picked)
    requires IsAlive(s.mem.state.memberLog, y) && IsAlive(s.mem.state.memberLog, z)
    requires y in Addrs(picked) && z !in Addrs(picked)
    ensures CountOf(s.mem.state.memberLog, y) <= CountOf(s.mem.state.memberLog, z)
  {
    var st := s.mem.state;
    var cs := Candidates(st.members, st.memberLog);
    CandidatesAre(st.members, st.memberLog);
    PickSound(cfg, cs, picked);
    var i :| 0 <= i < |picked| && Addrs(picked)[i] == y;
    var q := MemberLoad(z, st.memberLog[z].messageCnt);
    assert z in Elems(st.members);
    assert forall k :: 0 <= k < |picked| ==> Addrs(picked)[k] == picked[k].addr;
    ChosenCandidate(cs, cfg.tolerance, picked[i], q);
  }

  /** The lead less the failures already on record at the start, `base`. */
  ghost predicate LeadAtMost(s: Sys, y: Addr, z: Addr, base: int, c: nat) {
    Lead(s, y, z) + base <= c && base <= FailsOf(s.fails, z)
  }

  lemma BeginKeepsLead(cfg: Config, s: Sys, l: Label, t: Sys, y: Addr, z: Addr, base: int, c: nat)
    requires ConfigOk(cfg) && cfg.strategy.UseLeastLoaded? && Inv(cfg, s) && l.Begin? && Step(cfg, s, l, t)
    requires IsAlive(s.mem.state.memberLog, y) && IsAlive(s.mem.state.memberLog, z)
    requires LeadAtMost(s, y, z, base, c) && |t.stores| <= c
    ensures LeadAtMost(t, y, z, base, c)
  {
    if y in Addrs(l.picked) && z !in Addrs(l.picked) {
      ChosenIsNotHeavier(cfg, s, l.sid, l.picked, y, z);
      SubsetSize(InFlight(t.stores, y, z), t.stores.Keys);
    } else {
      SubsetSize(InFlight(t.stores, y, z), InFlight(s.stores, y, z));
    }
  }

  /** The acks of a fan-out raise the count of `y` by at most one, and of `z` or its failures if it was a target. */
  lemma FinishCounts(cfg: Config, s: Sys, sid: int, y: Addr)
    requires ConfigOk(cfg) && Inv(cfg, s) && Enabled(cfg, s, Finish(sid)) && y in s.mem.state.memberLog
    ensures var t, op := DoFinish(cfg, s, sid), s.stores[sid];
            var more := CountOf(t.mem.state.memberLog, y) - CountOf(s.mem.state.memberLog, y);
            var fails := FailsOf(t.fails, y) - FailsOf(s.fails, y);
            0 <= more && 0 <= fails && more + fails == if y in op.targets then 1 else 0
  {
    var op := s.stores[sid];
    assert StoreOk(cfg.tolerance, s.attempts, s.applied, s.mem.counted, sid, op);
    CountAcksEffect(s.mem.state.memberLog, op.acked);
    assert y in op.acked <==> y in Elems(op.acked);
    assert y in op.targets <==> y in Elems(op.targets);
  }

  lemma FinishKeepsLead(cfg: Config, s: Sys, sid: int, y: Addr, z: Addr)
    requires ConfigOk(cfg) && Inv(cfg, s) && Enabled(cfg, s, Finish(sid))
    requires y in s.mem.state.memberLog && z in s.mem.state.memberLog
    ensures Lead(DoFinish(cfg, s, sid), y, z) <= Lead(s, y, z)
  {
    FinishCounts(cfg, s, sid, y);
    FinishCounts(cfg, s, sid, z);
    RemoveInFlight(s.stores, sid, y, z);
  }

  lemma RemoveInFlight(stores: map<int, StoreOp>, sid: int, y: Addr, z: Addr)
    requires sid in stores
    ensures |InFlight(stores - {sid}, y, z)|
            == |InFlight(stores, y, z)| - if y in stores[sid].targets && z !in stores[sid].targets then 1 else 0
  {
    var now := InFlight(stores - {sid}, y, z);
    if y in stores[sid].targets && z !in stores[sid].targets {
      assert InFlight(stores, y, z) == now + {sid};
    } else {
      assert InFlight(stores, y, z) == now;
    }
  }

  lemma OtherStepsKeepCounts(cfg: Config, s: Sys, l: Label, t: Sys)
    requires Step(cfg, s, l, t) && !l.Finish? && !l.Crash?
    ensures forall a :: a in s.mem.state.memberLog ==>
                          CountOf(t.mem.state.memberLog, a) == CountOf(s.mem.state.memberLog, a)
    ensures t.fails == s.fails
  {
  }

  lemma OtherStepsKeepTargets(cfg: Config, s: Sys, l: Label, t: Sys)
    requires Step(cfg, s, l, t) && !l.Begin? && !l.Finish? && !l.Crash?
    ensures t.stores.Keys == s.stores.Keys
    ensures forall sid :: sid in s.stores ==> t.stores[sid].targets == s.stores[sid].targets
  {
  }

  lemma SameTargetsInFlight(stores: map<int, StoreOp>, others: map<int, StoreOp>, y: Addr, z: Addr)
    requires stores.Keys == others.Keys
    requires forall sid :: sid in stores ==> others[sid].targets == stores[sid].targets
    ensures InFlight(others, y, z) == InFlight(stores, y, z)
  {
    assert forall sid :: sid in InFlight(others, y, z) <==> sid in InFlight(stores, y, z);
  }

  lemma OtherStepsKeepLead(cfg: Config, s: Sys, l: Label, t: Sys, y: Addr, z: Addr)
    requires Step(cfg, s, l, t) && !l.Begin? && !l.Finish? && !l.Crash?
    requires y in s.mem.state.memberLog && z in s.mem.state.memberLog
    ensures Lead(t, y, z) == Lead(s, y, z)
  {
    OtherStepsKeepCounts(cfg, s, l, t);
    OtherStepsKeepTargets(cfg, s, l, t);
    SameTargetsInFlight(s.stores, t.stores, y, z);
  }

  /** From step `i` to step `j`: no restart, both members alive throughout, at most `c` stores in progress. */
  ghost predicate Steady(run: seq<Sys>, labels: seq<Label>, i: nat, j: nat, y: Addr, z: Addr, c: nat)
    requires i <= j < |run| && |run| == |labels| + 1
  {
    && CrashFree(labels, i, j)
    && forall k :: i <= k <= j ==>
                     && IsAlive(run[k].mem.state.memberLog, y) && IsAlive(run[k].mem.state.memberLog, z)
                     && |run[k].stores| <= c
  }

  lemma StepKeepsLead(cfg: Config, s: Sys, l: Label, t: Sys, y: Addr, z: Addr, base: int, c: nat)
    requires ConfigOk(cfg) && cfg.strategy.UseLeastLoaded? && Inv(cfg, s) && Step(cfg, s, l, t) && !l.Crash?
    requires IsAlive(s.mem.state.memberLog, y) && IsAlive(s.mem.state.memberLog, z)
    requires LeadAtMost(s, y, z, base, c) && |t.stores| <= c
    ensures LeadAtMost(t, y, z, base, c)
  {
    if l.Begin? {
      BeginKeepsLead(cfg, s, l, t, y, z, base, c);
    } else if l.Finish? {
      FinishKeepsLead(cfg, s, l.sid, y, z);
      FinishCounts(cfg, s, l.sid, z);
    } else {
      OtherStepsKeepLead(cfg, s, l, t, y, z);
      OtherStepsKeepCounts(cfg, s, l, t);
    }
  }

  lemma RunKeepsLead(cfg: Config, run: seq<Sys>, labels: seq<Label>, i: nat, j: nat, y: Addr, z: Addr, base: int,
                     c: nat)
    requires ConfigOk(cfg) && cfg.strategy.UseLeastLoaded? && IsRun(cfg, run, labels) && Inv(cfg, run[0])
    requires i <= j < |run| && Steady(run, labels, i, j, y, z, c)
    requires LeadAtMost(run[i], y, z, base, c)
    ensures LeadAtMost(run[j], y, z, base, c)
  {
    var p := (s: Sys) => LeadAtMost(s, y, z, base, c);
    forall k | i <= k < j && p(run[k]) ensures p(run[k + 1]) {
      RunKeepsInv(cfg, run, labels, k);
      StepKeepsLead(cfg, run[k], labels[k], run[k + 1], y, z, base, c);
    }
    AlongRun(run, p, i, j);
  }

  /**
   The load spread. Two members start with equal counts and nothing in progress; both stay alive, there is
   no restart, and at most `c` stores are in progress at a time. Then the one is ahead of the other, stores
   in progress included, by at most `c` and the acks that the other has failed to give since.
   */
  lemma LoadSpread(cfg: Config, run: seq<Sys>, labels: seq<Label>, i: nat, j: nat, y: Addr, z: Addr, c: nat)
    requires IsExecution(cfg, run, labels) && cfg.strategy.UseLeastLoaded?
    requires i <= j < |run| && Steady(run, labels, i, j, y, z, c)
    requires run[i].stores == map[]
    requires CountOf(run[i].mem.state.memberLog, y) == CountOf(run[i].mem.state.memberLog, z)
    ensures CountOf(run[j].mem.state.memberLog, y) + |InFlight(run[j].stores, y, z)|
            <= CountOf(run[j].mem.state.memberLog, z) + (FailsOf(run[j].fails, z) - FailsOf(run[i].fails, z)) + c
  {
    ExecutionInv(cfg, run, labels, 0);
    assert InFlight(run[i].stores, y, z) == {};
    RunKeepsLead(cfg, run, labels, i, j, y, z, FailsOf(run[i].fails, z), c);
  }

  /** When no target fails, the two counts never differ by more than the number of stores in progress. */
  lemma SpreadWithoutFailures(cfg: Config, run: seq<Sys>, labels: seq<Label>, i: nat, j: nat, y: Addr, z: Addr, c: nat)
    requires IsExecution(cfg, run, labels) && cfg.strategy.UseLeastLoaded?
    requires i <= j < |run| && Steady(run, labels, i, j, y, z, c)
    requires run[i].stores == map[]
    requires CountOf(run[i].mem.state.memberLog, y) == CountOf(run[i].mem.state.memberLog, z)
    requires FailsOf(run[j].fails, y) == FailsOf(run[i].fails, y)
    requires FailsOf(run[j].fails, z) == FailsOf(run[i].fails, z)
    ensures CountOf(run[j].mem.state.memberLog, y) <= CountOf(run[j].mem.state.memberLog, z) + c
    ensures CountOf(run[j].mem.state.memberLog, z) <= CountOf(run[j].mem.state.memberLog, y) + c
  {
    LoadSpread(cfg, run, labels, i, j, y, z, c);
    assert Steady(run, labels, i, j, z, y, c);
    LoadSpread(cfg, run, labels, i, j, z, y, c);
  }
}
