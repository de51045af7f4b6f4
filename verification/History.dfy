/**
 What the leader's records mean in terms of the run that led to them: who was added when, seen when, written
 and counted, and by which steps these records change.
 */
module History {
  import opened Seqs
  import opened Leader
  import opened Cluster
  import opened Invariants

  // ---------------------------------------------------------------- The member log

  /** The step is a heartbeat or a registration of the known member `a` at time `now`. */
  predicate Contacts(l: Label, a: Addr, now: int) {
    l == Beat(a, now) || l == JoinKnown(a, now)
  }

  /** The step is a watcher pass more than 15 s after the member was last seen, or added if it never was. */
  predicate FindsSilent(l: Label, m: MemberInfo) {
    l.Tick? && l.now - (if m.lastSeen == 0 then m.addedAt else m.lastSeen) > 15_000
  }

  /** How a step other than a restart changes the entry of a member. */
  lemma EntryChangesOnlyBy(cfg: Config, s: Sys, l: Label, t: Sys, a: Addr)
    requires Step(cfg, s, l, t) && !l.Crash? && a in s.mem.state.memberLog
    ensures a in t.mem.state.memberLog
    ensures var m, n := s.mem.state.memberLog[a], t.mem.state.memberLog[a];
            && n.addedAt == m.addedAt
            && (forall now :: Contacts(l, a, now) ==> n.lastSeen == now && n.alive)
            && ((forall now :: !Contacts(l, a, now)) ==>
                  && (n.alive <==> m.alive && !FindsSilent(l, m))
                  && n.lastSeen == if l.Tick? && m.lastSeen == 0 then m.addedAt else m.lastSeen)
            && (!l.Finish? ==> n.messageCnt == m.messageCnt)
  {
    hide Enabled, Next;
    if l.Beat? || l.JoinKnown? {
      ContactChangesEntry(cfg, s, l, t, a);
    } else {
      OtherStepChangesEntry(cfg, s, l, t, a);
    }
  }

  lemma ContactChangesEntry(cfg: Config, s: Sys, l: Label, t: Sys, a: Addr)
    requires Step(cfg, s, l, t) && (l.Beat? || l.JoinKnown?) && a in s.mem.state.memberLog
    ensures a in t.mem.state.memberLog
    ensures t.mem.state.memberLog[a]
            == if l.a == a then s.mem.state.memberLog[a].(lastSeen := l.now, alive := true)
               else s.mem.state.memberLog[a]
    ensures Contacts(l, l.a, l.now)
  {
  }

  lemma OtherStepChangesEntry(cfg: Config, s: Sys, l: Label, t: Sys, a: Addr)
    requires Step(cfg, s, l, t) && !l.Crash? && !l.Beat? && !l.JoinKnown? && a in s.mem.state.memberLog
    ensures a in t.mem.state.memberLog
    ensures var m, n := s.mem.state.memberLog[a], t.mem.state.memberLog[a];
            && n.addedAt == m.addedAt
            && (n.alive <==> m.alive && !FindsSilent(l, m))
            && n.lastSeen == (if l.Tick? && m.lastSeen == 0 then m.addedAt else m.lastSeen)
            && (!l.Finish? ==> n.messageCnt == m.messageCnt)
  {
    if l.Finish? {
      CountAcksKeepTimes(s.mem.state.memberLog, s.stores[l.sid].acked, a);
    }
  }

  lemma {:induction false} CountAcksKeepTimes(log: MemberLog, acked: seq<Addr>, a: Addr)
    ensures a in CountAcks(log, acked) <==> a in log
    ensures a in log ==> CountAcks(log, acked)[a] == log[a].(messageCnt := CountAcks(log, acked)[a].messageCnt)
  {
    if acked != [] {
      CountAcksKeepTimes(log, acked[..|acked| - 1], a);
    }
  }

  /** How a step other than a restart adds members: one new registration, at the end of the list. */
  lemma MembersChangeOnlyBy(cfg: Config, s: Sys, l: Label, t: Sys)
    requires Step(cfg, s, l, t) && !l.Crash?
    ensures l.JoinNew? ==>
              && t.mem.state.members == s.mem.state.members + [l.a]
              && t.mem.state.memberLog.Keys == s.mem.state.memberLog.Keys + {l.a}
              && t.mem.state.memberLog[l.a] == MemberInfo(l.now, 0, l.now, true)
    ensures !l.JoinNew? ==>
              && t.mem.state.members == s.mem.state.members
              && t.mem.state.memberLog.Keys == s.mem.state.memberLog.Keys
  {
    if l.Finish? {
      forall a ensures a in t.mem.state.memberLog <==> a in s.mem.state.memberLog {
        CountAcksKeepTimes(s.mem.state.memberLog, s.stores[l.sid].acked, a);
      }
    }
  }

  /** Between restarts the member list only grows at its end, and no member's registration time changes. */
  lemma {:induction false} MembersAreAppended(cfg: Config, run: seq<Sys>, labels: seq<Label>, i: nat, j: nat)
    requires IsRun(cfg, run, labels) && i <= j < |run| && CrashFree(labels, i, j)
    requires MembersOk(run[i].mem.state)
    ensures run[i].mem.state.members <= run[j].mem.state.members
    ensures forall a :: a in run[i].mem.state.memberLog ==>
                          && a in run[j].mem.state.memberLog
                          && run[j].mem.state.memberLog[a].addedAt == run[i].mem.state.memberLog[a].addedAt
  {
    if i < j {
      hide Enabled, Next, MembersOk;
      MembersAreAppended(cfg, run, labels, i, j - 1);
      assert Step(cfg, run[j - 1], labels[j - 1], run[j]);
      MembersChangeOnlyBy(cfg, run[j - 1], labels[j - 1], run[j]);
      forall a | a in run[i].mem.state.memberLog
        ensures a in run[j].mem.state.memberLog
        ensures run[j].mem.state.memberLog[a].addedAt == run[i].mem.state.memberLog[a].addedAt
      {
        EntryChangesOnlyBy(cfg, run[j - 1], labels[j - 1], run[j], a);
      }
    }
  }

  /** A watcher pass leaves a save to be done exactly when it marks somebody down. */
  lemma TickOwesASave(cfg: Config, s: Sys, l: Label, t: Sys)
    requires Step(cfg, s, l, t) && l.Tick?
    ensures t.ticking == s.ticking + 1 || t.ticking == s.ticking
    ensures t.ticking == s.ticking + 1 <==>
            exists a :: IsAlive(s.mem.state.memberLog, a) && !IsAlive(t.mem.state.memberLog, a)
  {
    if TickMarksDown(s.mem.state, l.now) {
      var a :| a in s.mem.state.memberLog && s.mem.state.memberLog[a].alive
               && !OnTickOne(s.mem.state.memberLog[a], l.now).alive;
      assert IsAlive(s.mem.state.memberLog, a) && !IsAlive(t.mem.state.memberLog, a);
    }
  }

  // ---------------------------------------------------------------- Attempts, writes and counters

  predicate Begins(labels: seq<Label>, sid: int, k: nat) {
    k < |labels| && labels[k].Begin? && labels[k].sid == sid
  }

  /** The attempts are exactly the stores that have begun, each once, with what they carry. */
  lemma {:induction false} AttemptsAreBegins(cfg: Config, run: seq<Sys>, labels: seq<Label>, sid: int, j: nat)
    requires IsExecution(cfg, run, labels) && j < |run|
    ensures sid in run[j].attempts <==> HasBegun(labels, sid, j)
    ensures forall k :: 0 <= k < j && Begins(labels, sid, k) ==> Carries(run[j], sid, labels[k])
  {
    if j > 0 {
      hide Enabled, Next, Begins;
      AttemptsAreBegins(cfg, run, labels, sid, j - 1);
      StepRecordsBegin(cfg, run, labels, sid, j - 1);
    }
  }

  ghost predicate HasBegun(labels: seq<Label>, sid: int, j: nat) {
    exists k :: 0 <= k < j && Begins(labels, sid, k)
  }

  ghost predicate Carries(s: Sys, sid: int, l: Label) {
    l.Begin? && sid in s.attempts && s.attempts[sid] == Attempt(l.id, l.text)
  }

  lemma StepRecordsBegin(cfg: Config, run: seq<Sys>, labels: seq<Label>, sid: int, k: nat)
    requires IsRun(cfg, run, labels) && k < |labels|
    ensures Begins(labels, sid, k) ==> sid !in run[k].attempts && Carries(run[k + 1], sid, labels[k])
    ensures !Begins(labels, sid, k) ==> (sid in run[k + 1].attempts <==> sid in run[k].attempts)
    ensures sid in run[k].attempts ==> forall l :: Carries(run[k], sid, l) ==> Carries(run[k + 1], sid, l)
  {
    assert Step(cfg, run[k], labels[k], run[k + 1]);
  }

  /** The writes recorded for a member are exactly the requests it has applied. */
  lemma {:induction false} WritesAreApplies(cfg: Config, run: seq<Sys>, labels: seq<Label>, sid: int, a: Addr, j: nat)
    requires IsExecution(cfg, run, labels) && j < |run|
    ensures sid in AppliedOn(run[j].applied, a) <==> Apply(sid, a) in labels[..j]
  {
    if j > 0 {
      WritesAreApplies(cfg, run, labels, sid, a, j - 1);
      StepRecordsApply(cfg, run[j - 1], labels[j - 1], run[j], sid, a);
      assert labels[..j] == labels[..j - 1] + [labels[j - 1]];
    }
  }

  lemma StepRecordsApply(cfg: Config, s: Sys, l: Label, t: Sys, sid: int, a: Addr)
    requires Step(cfg, s, l, t)
    ensures sid in AppliedOn(t.applied, a) <==> sid in AppliedOn(s.applied, a) || l == Apply(sid, a)
  {
  }

  /** Step `k` finishes a store that targeted `a` without its ack. */
  predicate MissesAck(run: seq<Sys>, labels: seq<Label>, a: Addr, k: nat)
    requires |run| == |labels| + 1
  {
    && k < |labels| && labels[k].Finish? && labels[k].sid in run[k].stores
    && a in run[k].stores[labels[k].sid].targets && a !in run[k].stores[labels[k].sid].acked
  }

  /** How often `a` has failed to acknowledge a finished store is the number of those steps. */
  lemma {:induction false} FailsAreMissedAcks(cfg: Config, run: seq<Sys>, labels: seq<Label>, a: Addr, j: nat)
    requires IsExecution(cfg, run, labels) && j < |run|
    ensures FailsOf(run[j].fails, a) == |set k: nat | k < j && MissesAck(run, labels, a, k)|
  {
    hide Inv, Enabled, Next, MissesAck;
    var now := set k: nat | k < j && MissesAck(run, labels, a, k);
    if j > 0 {
      FailsAreMissedAcks(cfg, run, labels, a, j - 1);
      ExecutionInv(cfg, run, labels, j - 1);
      var before := set k: nat | k < j - 1 && MissesAck(run, labels, a, k);
      StepCountsFail(cfg, run, labels, a, j - 1);
      assert now == before + if MissesAck(run, labels, a, j - 1) then {j - 1} else {};
    } else {
      assert now == {};
    }
  }

  lemma StepCountsFail(cfg: Config, run: seq<Sys>, labels: seq<Label>, a: Addr, k: nat)
    requires IsRun(cfg, run, labels) && k < |labels| && Inv(cfg, run[k])
    ensures FailsOf(run[k + 1].fails, a)
            == FailsOf(run[k].fails, a) + if MissesAck(run, labels, a, k) then 1 else 0
  {
    var s, l := run[k], labels[k];
    assert Step(cfg, s, l, run[k + 1]);
    if l.Finish? {
      var op := s.stores[l.sid];
      assert StoreOk(cfg.tolerance, s.attempts, s.applied, s.mem.counted, l.sid, op);
      assert a in op.failed <==> a in op.targets && a !in op.acked by {
        assert a in op.targets <==> a in Elems(op.targets);
        assert a in op.acked <==> a in Elems(op.acked);
      }
    }
  }

  predicate Finishes(labels: seq<Label>, k: nat) {
    k < |labels| && labels[k].Finish?
  }

  /** The acks that the store finished by step `k` had collected. */
  function AcksAt(run: seq<Sys>, labels: seq<Label>, k: nat): nat
    requires |run| == |labels| + 1 && k < |labels|
  {
    if labels[k].Finish? && labels[k].sid in run[k].stores then |run[k].stores[labels[k].sid].acked| else 0
  }

  function AcksUpTo(run: seq<Sys>, labels: seq<Label>, j: nat): nat
    requires |run| == |labels| + 1 && j <= |labels|
  {
    if j == 0 then 0 else AcksUpTo(run, labels, j - 1) + AcksAt(run, labels, j - 1)
  }

  /** The counters of finished stores and of their acks are what the run shows. */
  lemma {:induction false} CountersAreHistory(cfg: Config, run: seq<Sys>, labels: seq<Label>, j: nat)
    requires IsExecution(cfg, run, labels) && j < |run|
    ensures run[j].finished == |set k: nat | k < j && Finishes(labels, k)|
    ensures run[j].acks == AcksUpTo(run, labels, j)
  {
    hide Enabled, Next, Finishes;
    var now := set k: nat | k < j && Finishes(labels, k);
    if j > 0 {
      CountersAreHistory(cfg, run, labels, j - 1);
      var before := set k: nat | k < j - 1 && Finishes(labels, k);
      StepCounts(cfg, run, labels, j - 1);
      assert now == before + if Finishes(labels, j - 1) then {j - 1} else {};
    } else {
      assert now == {};
    }
  }

  lemma StepCounts(cfg: Config, run: seq<Sys>, labels: seq<Label>, k: nat)
    requires IsRun(cfg, run, labels) && k < |labels|
    ensures run[k + 1].finished == run[k].finished + if Finishes(labels, k) then 1 else 0
    ensures run[k + 1].acks == run[k].acks + AcksAt(run, labels, k)
  {
    assert Step(cfg, run[k], labels[k], run[k + 1]);
  }

  // ---------------------------------------------------------------- Counts and index between restarts

  /** Step `k` finishes a store that `a` acknowledged. */
  predicate CountsAck(run: seq<Sys>, labels: seq<Label>, a: Addr, k: nat)
    requires |run| == |labels| + 1
  {
    k < |labels| && labels[k].Finish? && labels[k].sid in run[k].stores && a in run[k].stores[labels[k].sid].acked
  }

  /** Between restarts a member's count grows by one for each finished store that it acknowledged. */
  lemma {:induction false} CountIsItsAcks(cfg: Config, run: seq<Sys>, labels: seq<Label>, a: Addr, i: nat, j: nat)
    requires IsExecution(cfg, run, labels) && i <= j < |run| && CrashFree(labels, i, j)
    requires a in run[i].mem.state.memberLog
    ensures a in run[j].mem.state.memberLog
    ensures run[j].mem.state.memberLog[a].messageCnt
            == run[i].mem.state.memberLog[a].messageCnt + |set k: nat | i <= k < j && CountsAck(run, labels, a, k)|
  {
    hide Inv, Enabled, Next, CountsAck;
    var now := set k: nat | i <= k < j && CountsAck(run, labels, a, k);
    if i < j {
      CountIsItsAcks(cfg, run, labels, a, i, j - 1);
      ExecutionInv(cfg, run, labels, j - 1);
      var before := set k: nat | i <= k < j - 1 && CountsAck(run, labels, a, k);
      StepCountsAck(cfg, run, labels, a, j - 1);
      assert now == before + if CountsAck(run, labels, a, j - 1) then {j - 1} else {};
    } else {
      assert now == {};
    }
  }

  lemma StepCountsAck(cfg: Config, run: seq<Sys>, labels: seq<Label>, a: Addr, k: nat)
    requires IsRun(cfg, run, labels) && k < |labels| && Inv(cfg, run[k]) && !labels[k].Crash?
    requires a in run[k].mem.state.memberLog
    ensures a in run[k + 1].mem.state.memberLog
    ensures run[k + 1].mem.state.memberLog[a].messageCnt
            == run[k].mem.state.memberLog[a].messageCnt + if CountsAck(run, labels, a, k) then 1 else 0
  {
    var s, l := run[k], labels[k];
    assert Step(cfg, s, l, run[k + 1]);
    EntryChangesOnlyBy(cfg, s, l, run[k + 1], a);
    if l.Finish? {
      assert StoreOk(cfg.tolerance, s.attempts, s.applied, s.mem.counted, l.sid, s.stores[l.sid]);
      CountAcksEffect(s.mem.state.memberLog, s.stores[l.sid].acked);
    }
  }

  /** Step `k` finishes a store for `id` that all its targets acknowledged. */
  predicate Indexes(cfg: Config, run: seq<Sys>, labels: seq<Label>, id: int, k: nat)
    requires |run| == |labels| + 1
  {
    && k < |labels| && labels[k].Finish?
    && labels[k].sid in run[k].stores && labels[k].sid in run[k].attempts
    && run[k].attempts[labels[k].sid].id == id
    && forall a :: a in run[k].stores[labels[k].sid].targets ==> a in run[k].stores[labels[k].sid].acked
  }

  lemma StepIndexes(cfg: Config, run: seq<Sys>, labels: seq<Label>, id: int, k: nat)
    requires ConfigOk(cfg) && IsRun(cfg, run, labels) && k < |labels| && Inv(cfg, run[k]) && !labels[k].Crash?
    ensures Indexes(cfg, run, labels, id, k) ==>
              && id in run[k + 1].mem.state.msgMap
              && run[k + 1].mem.state.msgMap[id] == run[k].stores[labels[k].sid].acked
    ensures !Indexes(cfg, run, labels, id, k) ==>
              && (id in run[k + 1].mem.state.msgMap <==> id in run[k].mem.state.msgMap)
              && (id in run[k].mem.state.msgMap ==>
                    run[k + 1].mem.state.msgMap[id] == run[k].mem.state.msgMap[id])
  {
    var s, l := run[k], labels[k];
    assert Step(cfg, s, l, run[k + 1]);
    if l.Finish? {
      FullMeansAll(cfg, s, l.sid);
    }
  }

  lemma FullMeansAll(cfg: Config, s: Sys, sid: int)
    requires ConfigOk(cfg) && Inv(cfg, s) && sid in s.stores
    ensures var op := s.stores[sid];
            |op.acked| >= cfg.tolerance <==> forall a :: a in op.targets ==> a in op.acked
    ensures s.stores[sid].acked == [] ==> |s.stores[sid].acked| < cfg.tolerance
  {
    var op := s.stores[sid];
    assert StoreOk(cfg.tolerance, s.attempts, s.applied, s.mem.counted, sid, op);
    NoDupSize(op.targets);
    NoDupSize(op.acked);
    SubsetSize(Elems(op.acked), Elems(op.targets));
    assert forall a :: a in op.acked <==> a in Elems(op.acked);
    assert forall a :: a in op.targets <==> a in Elems(op.targets);
    if forall a :: a in op.targets ==> a in op.acked {
      assert Elems(op.acked) == Elems(op.targets);
    }
  }

  /** Between restarts an id's replicas are the acks, in their order, of the last full store that finished for it. */
  lemma {:induction false} IndexIsLastFullStore(cfg: Config, run: seq<Sys>, labels: seq<Label>, id: int, k: nat, j: nat)
    requires IsExecution(cfg, run, labels) && k < j < |run| && CrashFree(labels, k, j)
    requires Indexes(cfg, run, labels, id, k)
    requires forall m :: k < m < j ==> !Indexes(cfg, run, labels, id, m)
    ensures id in run[j].mem.state.msgMap
    ensures run[j].mem.state.msgMap[id] == run[k].stores[labels[k].sid].acked
  {
    hide Inv, Indexes, Enabled, Next;
    ExecutionInv(cfg, run, labels, j - 1);
    StepIndexes(cfg, run, labels, id, j - 1);
    if k < j - 1 {
      IndexIsLastFullStore(cfg, run, labels, id, k, j - 1);
    }
  }

  // ---------------------------------------------------------------- Progress of a store

  /** A store in progress can always go on: to an outcome for one of its targets, or to its commit. */
  lemma StoreCanMove(cfg: Config, s: Sys, sid: int) returns (l: Label)
    requires Inv(cfg, s) && sid in s.stores
    ensures Enabled(cfg, s, l) && (l == Finish(sid) || exists a :: l == Fail(sid, a))
  {
    assert StoreOk(cfg.tolerance, s.attempts, s.applied, s.mem.counted, sid, s.stores[sid]);
    if AllSettled(s.stores[sid]) {
      l := Finish(sid);
    } else {
      var a :| a in s.stores[sid].targets && a !in s.stores[sid].acked && a !in s.stores[sid].failed;
      l := Fail(sid, a);
    }
  }
}
