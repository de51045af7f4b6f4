/**
 What a store does to the copies an earlier one has left: when the text of a store that failed can be read,
 and what two overlapping stores that both succeed leave behind.
 */
module Overwrites {
  import opened Decimal
  import opened Seqs
  import opened Balancer
  import opened Leader
  import opened Cluster
  import opened Invariants
  import opened Replicas

  // ---------------------------------------------------------------- Stores that have settled

  /** Requests go to targets, and a store that waits for its save has none of its requests under way. */
  ghost predicate SavingSettled(s: Sys) {
    && (forall sid, a :: (sid, a) in s.wire && sid in s.stores ==> a in s.stores[sid].targets)
    && (forall sid :: sid in s.saving ==> Settled(s, sid))
  }

  /** The store has finished its fan-out, and none of its requests can still be written. */
  ghost predicate Settled(s: Sys, sid: int) {
    sid in s.attempts && sid !in s.stores && forall p :: p in s.wire ==> p.0 != sid
  }

  lemma StepKeepsSettled(cfg: Config, s: Sys, l: Label, t: Sys, sid: int)
    requires Settled(s, sid) && Step(cfg, s, l, t)
    ensures Settled(t, sid) && t.attempts[sid] == s.attempts[sid]
  {
    if !l.Begin? {
      OnlyBeginSends(cfg, s, l, t);
    }
  }

  lemma FinishSettles(cfg: Config, s: Sys, sid: int)
    requires Inv(cfg, s) && SavingSettled(s) && Enabled(cfg, s, Finish(sid))
    requires |s.stores[sid].acked| >= cfg.tolerance
    ensures Settled(DoFinish(cfg, s, sid), sid)
  {
    var op := s.stores[sid];
    StoreIsSound(cfg, s, sid);
    NoDupSize(op.targets);
    NoDupSize(op.acked);
    SubsetSize(Elems(op.acked), Elems(op.targets));
    assert forall a :: a in op.targets ==> a in Elems(op.targets) && a in op.acked;
  }

  lemma StoreIsSound(cfg: Config, s: Sys, sid: int)
    requires Inv(cfg, s) && sid in s.stores
    ensures StoreOk(cfg.tolerance, s.attempts, s.applied, s.mem.counted, sid, s.stores[sid])
    ensures forall a :: (sid, a) in s.wire ==> sid !in AppliedOn(s.applied, a)
  {
    forall a | (sid, a) in s.wire ensures sid !in AppliedOn(s.applied, a) {
      assert (sid, a).0 !in AppliedOn(s.applied, (sid, a).1);
    }
  }

  lemma NewStore(cfg: Config, s: Sys, sid: int, picked: seq<MemberLoad>)
    requires Inv(cfg, s) && CanBegin(cfg, s, sid, picked)
    ensures sid !in s.saving && sid !in s.stores && forall a :: (sid, a) !in s.wire
    ensures ConfigOk(cfg) ==> NoDup(Addrs(picked))
  {
    assert forall p :: p in s.wire ==> p.0 in s.attempts;
    assert forall a :: (sid, a) in s.wire ==> (sid, a).0 in s.attempts;
    if ConfigOk(cfg) {
      TargetsSound(cfg, s, sid, picked);
    }
  }

  lemma StepKeepsAim(cfg: Config, s: Sys, l: Label, t: Sys)
    requires Inv(cfg, s) && SavingSettled(s) && Step(cfg, s, l, t)
    ensures forall sid, a :: (sid, a) in t.wire && sid in t.stores ==> a in t.stores[sid].targets
  {
    if l.Begin? {
      NewStore(cfg, s, l.sid, l.picked);
    }
  }

  lemma StepKeepsSavingSettled(cfg: Config, s: Sys, l: Label, t: Sys)
    requires Inv(cfg, s) && SavingSettled(s) && Step(cfg, s, l, t)
    ensures SavingSettled(t)
  {
    StepKeepsAim(cfg, s, l, t);
    forall sid | sid in t.saving ensures Settled(t, sid) {
      if sid in s.saving {
        StepKeepsSettled(cfg, s, l, t, sid);
      } else {
        FinishSettles(cfg, s, sid);
      }
    }
  }

  lemma {:induction false} ExecutionSavingSettled(cfg: Config, run: seq<Sys>, labels: seq<Label>, i: nat)
    requires IsExecution(cfg, run, labels) && i < |run|
    ensures SavingSettled(run[i])
  {
    if i > 0 {
      ExecutionSavingSettled(cfg, run, labels, i - 1);
      ExecutionInv(cfg, run, labels, i - 1);
      StepKeepsSavingSettled(cfg, run[i - 1], labels[i - 1], run[i]);
    }
  }

  // ---------------------------------------------------------------- A store with a failed target

  /** The store has lost a target, or has ended without waiting for a save. */
  ghost predicate Failing(s: Sys, sid: int) {
    sid in s.attempts && sid !in s.saving && (sid in s.stores ==> s.stores[sid].failed != {})
  }

  lemma FailedMeansFewer(op: StoreOp)
    requires NoDup(op.targets) && NoDup(op.acked) && Elems(op.acked) <= Elems(op.targets)
    requires op.failed <= Elems(op.targets) && op.failed !! Elems(op.acked) && op.failed != {}
    ensures |op.acked| < |op.targets|
  {
    NoDupSize(op.targets);
    NoDupSize(op.acked);
    SubsetSize(Elems(op.acked), Elems(op.targets));
  }

  /** The commit of a store with a failed target queues no save and indexes nothing. */
  lemma FailedCommit(cfg: Config, s: Sys, sid: int)
    requires Inv(cfg, s) && Enabled(cfg, s, Finish(sid)) && s.stores[sid].failed != {}
    ensures var t := DoFinish(cfg, s, sid); t.saving == s.saving && t.mem.state.msgMap == s.mem.state.msgMap
  {
    hide Inv;
    StoreIsSound(cfg, s, sid);
    FailedMeansFewer(s.stores[sid]);
  }

  lemma StepKeepsFailing(cfg: Config, s: Sys, l: Label, t: Sys, sid: int)
    requires Inv(cfg, s) && Failing(s, sid) && Step(cfg, s, l, t)
    ensures Failing(t, sid)
  {
    hide Inv;
    if l == Finish(sid) {
      FailedCommit(cfg, s, sid);
    }
  }

  /** A store that has lost a target never returns Ok, in any continuation. */
  lemma FailedStoreIsNeverOk(cfg: Config, run: seq<Sys>, labels: seq<Label>, k: nat, m: nat, sid: int, a: Addr)
    requires IsExecution(cfg, run, labels) && k < m < |labels| && labels[k] == Fail(sid, a)
    ensures labels[m] != SaveStore(sid)
  {
    assert Step(cfg, run[k], labels[k], run[k + 1]);
    assert Step(cfg, run[m], labels[m], run[m + 1]);
    ExecutionSavingSettled(cfg, run, labels, k);
    ExecutionInv(cfg, run, labels, k);
    StoreIsSound(cfg, run[k], sid);
    assert Failing(run[k + 1], sid);
    var p := (s: Sys) => Failing(s, sid);
    forall n | k + 1 <= n < m && p(run[n]) ensures p(run[n + 1]) {
      ExecutionInv(cfg, run, labels, n);
      StepKeepsFailing(cfg, run[n], labels[n], run[n + 1], sid);
    }
    AlongRun(run, p, k + 1, m);
  }

  // ---------------------------------------------------------------- Building runs

  /** Neither a new store nor a restart. */
  predicate Passive(labels: seq<Label>) {
    forall k :: 0 <= k < |labels| ==> !labels[k].Begin? && !labels[k].Crash?
  }

  lemma {:induction false} FailAll(cfg: Config, s: Sys, sid: int, n: nat) returns (run: seq<Sys>, labels: seq<Label>)
    requires sid in s.stores && NoDup(s.stores[sid].targets) && n <= |s.stores[sid].targets|
    requires s.stores[sid].acked == [] && s.stores[sid].failed == {}
    ensures IsRun(cfg, run, labels) && run[0] == s && Passive(labels) && |labels| == n
    ensures run[n] == s.(stores := s.stores[sid := s.stores[sid].(failed := Elems(s.stores[sid].targets[..n]))])
  {
    var op := s.stores[sid];
    if n == 0 {
      run, labels := [s], [];
      assert Elems(op.targets[..0]) == {};
      assert s.stores[sid := op.(failed := {})] == s.stores;
    } else {
      run, labels := FailAll(cfg, s, sid, n - 1);
      var a := op.targets[n - 1];
      var t := DoFail(run[n - 1], sid, a);
      assert op.targets[..n] == op.targets[..n - 1] + [a];
      assert Elems(op.targets[..n]) == Elems(op.targets[..n - 1]) + {a};
      Extend(cfg, run, labels, Fail(sid, a), t);
      run, labels := run + [t], labels + [Fail(sid, a)];
    }
  }

  /** A store whose targets have all failed has nothing to commit. */
  lemma FinishEmpty(cfg: Config, s: Sys, sid: int)
    requires cfg.tolerance >= 1 && sid in s.stores && sid in s.attempts && s.stores[sid].acked == []
    ensures var t := DoFinish(cfg, s, sid);
            t.mem == s.mem && t.saved == s.saved && t.saving == s.saving && t.readers == s.readers
            && t.files == s.files && t.applied == s.applied && t.attempts == s.attempts
  {
    assert CountedAfter(s.mem.counted, sid, []) == s.mem.counted;
  }

  lemma FailAndFinish(cfg: Config, s: Sys, sid: int) returns (run: seq<Sys>, labels: seq<Label>)
    requires cfg.tolerance >= 1 && sid in s.stores && sid in s.attempts && NoDup(s.stores[sid].targets)
    requires s.stores[sid].acked == [] && s.stores[sid].failed == {}
    ensures IsRun(cfg, run, labels) && run[0] == s && Passive(labels)
    ensures labels != [] && labels[|labels| - 1] == Finish(sid)
    ensures var t := run[|labels|];
            t.mem == s.mem && t.saved == s.saved && t.saving == s.saving && t.readers == s.readers
            && t.files == s.files && t.applied == s.applied && t.attempts == s.attempts
  {
    var n := |s.stores[sid].targets|;
    run, labels := FailAll(cfg, s, sid, n);
    assert s.stores[sid].targets[..n] == s.stores[sid].targets;
    FinishEmpty(cfg, run[n], sid);
    Extend(cfg, run, labels, Finish(sid), DoFinish(cfg, run[n], sid));
    run, labels := run + [DoFinish(cfg, run[n], sid)], labels + [Finish(sid)];
  }

  lemma BeginAndApply(cfg: Config, s: Sys, sid: int, id: int, text: string, picked: seq<MemberLoad>, a: Addr)
    returns (run: seq<Sys>, labels: seq<Label>)
    requires CanBegin(cfg, s, sid, picked) && a in Addrs(picked)
    ensures IsRun(cfg, run, labels) && run[0] == s && labels == [Begin(sid, id, text, picked), Apply(sid, a)]
    ensures run[2].mem == s.mem && run[2].saved == s.saved && run[2].saving == s.saving && run[2].readers == s.readers
    ensures sid in run[2].stores && run[2].stores[sid] == StoreOp(Addrs(picked), [], {}) && sid in run[2].attempts
    ensures Holds(run[2], a, id, text) && sid in AppliedOn(run[2].applied, a)
  {
    var t := DoBegin(s, sid, id, text, picked);
    run, labels := [s, t, DoApply(t, sid, a)], [Begin(sid, id, text, picked), Apply(sid, a)];
    assert Step(cfg, s, labels[0], t);
    assert Step(cfg, t, labels[1], run[2]);
  }

  /** A store that writes on one of its targets, fails on all of them and answers. */
  lemma WriteAndFail(cfg: Config, s: Sys, sid: int, id: int, text: string, picked: seq<MemberLoad>, a: Addr)
    returns (run: seq<Sys>, labels: seq<Label>)
    requires cfg.tolerance >= 1 && CanBegin(cfg, s, sid, picked) && a in Addrs(picked)
    requires NoDup(Addrs(picked)) && sid !in s.saving
    ensures IsRun(cfg, run, labels) && run[0] == s && |labels| > 1
    ensures labels[0] == Begin(sid, id, text, picked) && Passive(labels[1..])
    ensures labels[|labels| - 1] == Finish(sid)
    ensures var t := run[|labels|];
            t.mem == s.mem && t.saved == s.saved && t.readers == s.readers && sid !in t.saving
            && Holds(t, a, id, text) && sid in AppliedOn(t.applied, a)
  {
    hide CanBegin, Enabled, Next;
    var first, names := BeginAndApply(cfg, s, sid, id, text, picked, a);
    var last, more := FailAndFinish(cfg, first[2], sid);
    JoinRuns(cfg, first, names, last, more);
    run, labels := first + last[1..], names + more;
    assert labels[1..] == [Apply(sid, a)] + more;
    assert run[|labels|] == last[|more|];
  }

  /** A read that has passed over the first `m` replicas. */
  lemma {:induction false} ReadUpTo(cfg: Config, s: Sys, rid: int, id: int, m: nat)
    returns (run: seq<Sys>, labels: seq<Label>)
    requires id in s.mem.state.msgMap && m < |s.mem.state.msgMap[id]| && rid !in s.readers
    ensures IsRun(cfg, run, labels) && run[0] == s && Passive(labels)
    ensures labels != [] && labels[0] == ReadStart(rid, id)
    ensures forall k :: 0 < k <= |labels| ==> rid in run[k].readers
    ensures var t := run[|labels|];
            && t == s.(readers := t.readers)
            && t.readers[rid].id == id && t.readers[rid].targets == s.mem.state.msgMap[id]
            && t.readers[rid].next == m && !t.readers[rid].calling
  {
    if m == 0 {
      run, labels := [s, DoReadStart(s, rid, id)], [ReadStart(rid, id)];
      assert Step(cfg, s, labels[0], run[1]);
    } else {
      run, labels := ReadUpTo(cfg, s, rid, id, m - 1);
      var more, names := PassOver(cfg, run[|labels|], rid);
      JoinRuns(cfg, run, labels, more, names);
      run, labels := run + more[1..], labels + names;
    }
  }

  lemma PassOver(cfg: Config, s: Sys, rid: int) returns (run: seq<Sys>, labels: seq<Label>)
    requires AtTarget(s, rid, false)
    ensures IsRun(cfg, run, labels) && run[0] == s && Passive(labels) && labels != []
    ensures forall k :: 0 < k <= |labels| ==> rid in run[k].readers
    ensures var t := run[|labels|];
            && t == s.(readers := t.readers)
            && t.readers[rid].id == s.readers[rid].id && t.readers[rid].targets == s.readers[rid].targets
            && t.readers[rid].next == s.readers[rid].next + 1 && !t.readers[rid].calling
  {
    if IsAlive(s.mem.state.memberLog, Current(s, rid)) {
      run, labels := CallAndFail(cfg, s, rid);
    } else {
      run, labels := [s, DoAdvance(s, rid, true)], [ReadSkip(rid)];
      assert Step(cfg, s, labels[0], run[1]);
    }
  }

  lemma CallAndFail(cfg: Config, s: Sys, rid: int) returns (run: seq<Sys>, labels: seq<Label>)
    requires AtTarget(s, rid, false) && IsAlive(s.mem.state.memberLog, Current(s, rid))
    ensures IsRun(cfg, run, labels) && run[0] == s && labels == [ReadCall(rid), ReadFail(rid)]
    ensures rid in run[1].readers && run[2] == DoAdvance(s, rid, true)
  {
    var t := s.(readers := s.readers[rid := s.readers[rid].(calling := true)]);
    run, labels := [s, t, DoAdvance(t, rid, true)], [ReadCall(rid), ReadFail(rid)];
    assert Step(cfg, s, labels[0], t);
    assert Step(cfg, t, labels[1], run[2]);
  }

  lemma CallAndHit(cfg: Config, s: Sys, rid: int) returns (run: seq<Sys>, labels: seq<Label>)
    requires AtTarget(s, rid, false) && IsAlive(s.mem.state.memberLog, Current(s, rid))
    requires s.readers[rid].id in DiskOf(s.files, Current(s, rid))
    ensures IsRun(cfg, run, labels) && run[0] == s && labels == [ReadCall(rid), ReadHit(rid)]
    ensures run[1] == s.(readers := s.readers[rid := s.readers[rid].(calling := true)])
  {
    var t := s.(readers := s.readers[rid := s.readers[rid].(calling := true)]);
    run, labels := [s, t, t.(readers := t.readers - {rid})], [ReadCall(rid), ReadHit(rid)];
    assert Step(cfg, s, labels[0], t);
    assert Step(cfg, t, labels[1], run[2]);
  }

  /** Any replica that is alive and has the id may be the one that answers a read. */
  lemma ReadReaches(cfg: Config, s: Sys, rid: int, id: int, m: nat) returns (run: seq<Sys>, labels: seq<Label>, j: nat)
    requires id in s.mem.state.msgMap && m < |s.mem.state.msgMap[id]| && rid !in s.readers
    requires var a := s.mem.state.msgMap[id][m]; IsAlive(s.mem.state.memberLog, a) && id in DiskOf(s.files, a)
    ensures IsRun(cfg, run, labels) && run[0] == s && Passive(labels)
    ensures ReadLasts(run, labels, rid, id, 0, j) && labels[j] == ReadHit(rid)
    ensures AtTarget(run[j], rid, true) && run[j].readers[rid].id == id
    ensures Current(run[j], rid) == s.mem.state.msgMap[id][m]
    ensures run[j].files == s.files && run[j].applied == s.applied
  {
    var first, names := ReadUpTo(cfg, s, rid, id, m);
    var last, more := CallAndHit(cfg, first[|names|], rid);
    JoinRuns(cfg, first, names, last, more);
    run, labels, j := first + last[1..], names + more, |names| + 1;
    assert run[j] == last[1];
    assert forall k :: 0 < k <= |names| ==> run[k] == first[k];
  }

  // ---------------------------------------------------------------- When a failed store's text is read

  /** The state file lists the same replicas of the id as the leader's memory. */
  ghost predicate SavedAgrees(s: Sys, id: int)
    requires id in s.mem.state.msgMap
  {
    && s.saved.Some? && id in s.saved.value.state.msgMap
    && s.saved.value.state.msgMap[id] == s.mem.state.msgMap[id]
  }

  /**
   A run that begins with the store `sid`, in which that store answers failure at step `f` and no other store
   for the id begins. It may contain restarts if the state file agrees with memory on the id.
   */
  ghost predicate StoreFails(cfg: Config, s: Sys, sid: int, id: int, text: string, picked: seq<MemberLoad>,
                             run: seq<Sys>, labels: seq<Label>, f: nat)
    requires id in s.mem.state.msgMap
  {
    && IsRun(cfg, run, labels) && run[0] == s
    && 0 < f < |labels| && labels[0] == Begin(sid, id, text, picked) && NoNewStore(labels, 1, id)
    && (CrashFree(labels, 0, |labels|) || SavedAgrees(s, id))
    && labels[f] == Finish(sid) && sid !in run[f + 1].saving
  }

  /** After the failure a read of the id begins at step `i`, and at step `j` a copy written by `sid` answers it. */
  ghost predicate FailedCopyIsRead(run: seq<Sys>, labels: seq<Label>, sid: int, id: int, f: nat, i: nat, j: nat,
                                   rid: int)
    requires |run| == |labels| + 1
  {
    && f < i && ReadLasts(run, labels, rid, id, i, j) && labels[j] == ReadHit(rid)
    && AtTarget(run[j], rid, true) && sid in AppliedOn(run[j].applied, Current(run[j], rid))
  }

  ghost predicate Overlaps(s: Sys, id: int, picked: seq<MemberLoad>)
    requires id in s.mem.state.msgMap
  {
    exists a :: a in s.mem.state.msgMap[id] && a in Addrs(picked)
  }

  /** Up to here the store has touched only its targets, and the id's replicas are listed as before. */
  ghost predicate Spared(s: Sys, sid: int, id: int, targets: seq<Addr>, replicas: seq<Addr>, crashes: bool) {
    && sid in s.attempts && s.attempts[sid].id == id
    && (forall o, a :: (o, a) in s.wire && o in s.attempts && s.attempts[o].id == id ==> o == sid && a in targets)
    && (forall o :: o in s.stores && o in s.attempts && s.attempts[o].id == id ==> o == sid)
    && (forall a :: sid in AppliedOn(s.applied, a) ==> a in targets)
    && id in s.mem.state.msgMap && s.mem.state.msgMap[id] == replicas
    && (crashes ==> SavedAgrees(s, id))
  }

  lemma BeginSpares(cfg: Config, s: Sys, sid: int, id: int, text: string, picked: seq<MemberLoad>, crashes: bool)
    requires Inv(cfg, s) && Quiet(s, id) && id in s.mem.state.msgMap && CanBegin(cfg, s, sid, picked)
    requires crashes ==> SavedAgrees(s, id)
    ensures Spared(DoBegin(s, sid, id, text, picked), sid, id, Addrs(picked), s.mem.state.msgMap[id], crashes)
  {
    NewStore(cfg, s, sid, picked);
    var t := DoBegin(s, sid, id, text, picked);
    forall a ensures sid !in AppliedOn(s.applied, a) {
      assert DiskOk(DiskOf(s.files, a), s.attempts, AppliedOn(s.applied, a));
    }
    assert forall o, a :: (o, a) in s.wire ==> (o, a).0 in s.attempts && s.attempts[(o, a).0].id != id;
  }

  lemma StepSpares(cfg: Config, s: Sys, l: Label, t: Sys, sid: int, id: int, targets: seq<Addr>, replicas: seq<Addr>,
                   crashes: bool)
    requires Inv(cfg, s) && Spared(s, sid, id, targets, replicas, crashes) && Step(cfg, s, l, t)
    requires l.Begin? ==> l.id != id
    requires l.Crash? ==> crashes
    requires l == Finish(sid) ==> sid !in t.saving
    ensures Spared(t, sid, id, targets, replicas, crashes)
  {
    StepSparesIndex(cfg, s, l, t, sid, id, targets, replicas, crashes);
    StepSparesCopies(cfg, s, l, t, sid, id, targets, replicas, crashes);
  }

  lemma StepSparesIndex(cfg: Config, s: Sys, l: Label, t: Sys, sid: int, id: int, targets: seq<Addr>,
                        replicas: seq<Addr>, crashes: bool)
    requires Spared(s, sid, id, targets, replicas, crashes) && Step(cfg, s, l, t)
    requires l.Crash? ==> crashes
    requires l == Finish(sid) ==> sid !in t.saving
    ensures id in t.mem.state.msgMap && t.mem.state.msgMap[id] == replicas
    ensures crashes ==> SavedAgrees(t, id)
  {
    SavedChanges(cfg, s, l, t);
  }

  lemma StepSparesCopies(cfg: Config, s: Sys, l: Label, t: Sys, sid: int, id: int, targets: seq<Addr>,
                         replicas: seq<Addr>, crashes: bool)
    requires Inv(cfg, s) && Spared(s, sid, id, targets, replicas, crashes) && Step(cfg, s, l, t)
    requires l.Begin? ==> l.id != id
    ensures sid in t.attempts && t.attempts[sid].id == id
    ensures forall o, a :: (o, a) in t.wire && o in t.attempts && t.attempts[o].id == id ==> o == sid && a in targets
    ensures forall o :: o in t.stores && o in t.attempts && t.attempts[o].id == id ==> o == sid
    ensures forall a :: sid in AppliedOn(t.applied, a) ==> a in targets
  {
    StepSparesOthers(cfg, s, l, t, sid, id, targets, replicas, crashes);
    if l.Begin? {
      NewStore(cfg, s, l.sid, l.picked);
    } else {
      OnlyBeginSends(cfg, s, l, t);
    }
  }

  lemma StepSparesOthers(cfg: Config, s: Sys, l: Label, t: Sys, sid: int, id: int, targets: seq<Addr>,
                         replicas: seq<Addr>, crashes: bool)
    requires Spared(s, sid, id, targets, replicas, crashes) && Step(cfg, s, l, t)
    ensures forall a :: sid in AppliedOn(t.applied, a) ==> a in targets
  {
    if l.Apply? {
      assert (l.sid, l.a) in s.wire;
      assert forall a :: a != l.a ==> AppliedOn(t.applied, a) == AppliedOn(s.applied, a);
    } else {
      assert t.applied == s.applied;
    }
  }

  /** A store finishes its fan-out once. */
  lemma FinishesOnce(cfg: Config, run: seq<Sys>, labels: seq<Label>, sid: int, k: nat, f: nat)
    requires IsRun(cfg, run, labels) && k < |labels| && f < |labels|
    requires labels[k] == Finish(sid) && labels[f] == Finish(sid)
    ensures k == f
  {
    if k < f {
      NeverAgain(cfg, run, labels, sid, k, f);
    } else if f < k {
      NeverAgain(cfg, run, labels, sid, f, k);
    }
  }

  lemma NeverAgain(cfg: Config, run: seq<Sys>, labels: seq<Label>, sid: int, k: nat, f: nat)
    requires IsRun(cfg, run, labels) && k < f < |labels| && labels[k] == Finish(sid)
    ensures labels[f] != Finish(sid)
  {
    var p := (s: Sys) => sid in s.attempts && sid !in s.stores;
    assert Step(cfg, run[k], labels[k], run[k + 1]);
    assert Step(cfg, run[f], labels[f], run[f + 1]);
    forall n | k + 1 <= n < f && p(run[n]) ensures p(run[n + 1]) {
      StaysGone(cfg, run[n], labels[n], run[n + 1], sid);
    }
    AlongRun(run, p, k + 1, f);
  }

  lemma StaysGone(cfg: Config, s: Sys, l: Label, t: Sys, sid: int)
    requires Step(cfg, s, l, t) && sid in s.attempts && sid !in s.stores
    ensures sid in t.attempts && sid !in t.stores
  {
    if !l.Begin? {
      OnlyBeginSends(cfg, s, l, t);
    }
  }

  /** Throughout such a run the id's replicas are listed as before, and the store is written only on its targets. */
  lemma FailingStoreSpares(cfg: Config, s: Sys, sid: int, id: int, text: string, picked: seq<MemberLoad>,
                           run: seq<Sys>, labels: seq<Label>, f: nat, k: nat)
    requires ConfigOk(cfg) && Inv(cfg, s) && Quiet(s, id) && id in s.mem.state.msgMap && CanBegin(cfg, s, sid, picked)
    requires StoreFails(cfg, s, sid, id, text, picked, run, labels, f) && 0 < k < |run|
    ensures Spared(run[k], sid, id, Addrs(picked), s.mem.state.msgMap[id], SavedAgrees(s, id))
  {
    var targets, replicas, crashes := Addrs(picked), s.mem.state.msgMap[id], SavedAgrees(s, id);
    assert Step(cfg, run[0], labels[0], run[1]);
    BeginSpares(cfg, s, sid, id, text, picked, crashes);
    var p := (u: Sys) => Spared(u, sid, id, targets, replicas, crashes);
    forall n | 1 <= n < k && p(run[n]) ensures p(run[n + 1]) {
      RunKeepsInv(cfg, run, labels, n);
      if labels[n] == Finish(sid) {
        FinishesOnce(cfg, run, labels, sid, n, f);
      }
      StepSpares(cfg, run[n], labels[n], run[n + 1], sid, id, targets, replicas, crashes);
    }
    AlongRun(run, p, 1, k);
  }

  lemma IndexIsSpared(cfg: Config, s: Sys, sid: int, id: int, text: string, picked: seq<MemberLoad>,
                      run: seq<Sys>, labels: seq<Label>, f: nat, k: nat)
    requires ConfigOk(cfg) && Inv(cfg, s) && Quiet(s, id) && id in s.mem.state.msgMap && CanBegin(cfg, s, sid, picked)
    requires StoreFails(cfg, s, sid, id, text, picked, run, labels, f) && 0 < k < |run|
    ensures id in run[k].mem.state.msgMap && run[k].mem.state.msgMap[id] == s.mem.state.msgMap[id] != []
  {
    FailingStoreSpares(cfg, s, sid, id, text, picked, run, labels, f, k);
    assert |s.mem.state.msgMap[id]| == cfg.tolerance;
  }

  /** A read of the id that begins later asks the listed replicas. */
  lemma LaterReadAsksReplicas(cfg: Config, run: seq<Sys>, labels: seq<Label>, id: int, replicas: seq<Addr>,
                              i: nat, j: nat, rid: int)
    requires IsRun(cfg, run, labels) && ReadLasts(run, labels, rid, id, i, j) && labels[j] == ReadHit(rid)
    requires id in run[i].mem.state.msgMap && run[i].mem.state.msgMap[id] == replicas && replicas != []
    ensures AtTarget(run[j], rid, true) && run[j].readers[rid].id == id && Current(run[j], rid) in replicas
    ensures id in DiskOf(run[j].files, Current(run[j], rid))
  {
    assert Step(cfg, run[i], labels[i], run[i + 1]);
    assert Step(cfg, run[j], labels[j], run[j + 1]);
    ReadKeepsTargets(cfg, run, labels, rid, i + 1, j);
  }

  lemma ReadCopyMeansOverlap(cfg: Config, s: Sys, sid: int, id: int, text: string, picked: seq<MemberLoad>,
                             run: seq<Sys>, labels: seq<Label>, f: nat, i: nat, j: nat, rid: int)
    requires ConfigOk(cfg) && Inv(cfg, s) && Quiet(s, id) && id in s.mem.state.msgMap && CanBegin(cfg, s, sid, picked)
    requires StoreFails(cfg, s, sid, id, text, picked, run, labels, f)
    requires FailedCopyIsRead(run, labels, sid, id, f, i, j, rid)
    ensures Overlaps(s, id, picked)
  {
    FailingStoreSpares(cfg, s, sid, id, text, picked, run, labels, f, i);
    FailingStoreSpares(cfg, s, sid, id, text, picked, run, labels, f, j);
    assert |s.mem.state.msgMap[id]| == cfg.tolerance;
    LaterReadAsksReplicas(cfg, run, labels, id, s.mem.state.msgMap[id], i, j, rid);
    assert Current(run[j], rid) in Addrs(picked);
  }

  lemma FailThenRead(cfg: Config, s: Sys, sid: int, id: int, text: string, picked: seq<MemberLoad>, a: Addr)
    returns (run: seq<Sys>, labels: seq<Label>, f: nat, i: nat, j: nat, rid: int)
    requires cfg.tolerance >= 1 && CanBegin(cfg, s, sid, picked) && NoDup(Addrs(picked)) && sid !in s.saving
    requires id in s.mem.state.msgMap && a in s.mem.state.msgMap[id] && a in Addrs(picked)
    requires IsAlive(s.mem.state.memberLog, a)
    ensures StoreFails(cfg, s, sid, id, text, picked, run, labels, f)
    ensures run[f + 1].mem == s.mem && run[f + 1].saved == s.saved
    ensures FailedCopyIsRead(run, labels, sid, id, f, i, j, rid)
    ensures Current(run[j], rid) == a && Holds(run[j], a, id, text)
  {
    hide CanBegin, Enabled, Next, ReadLasts;
    var first, names := WriteAndFail(cfg, s, sid, id, text, picked, a);
    var n := |names|;
    rid := NewNumber(s.readers.Keys);
    var m :| 0 <= m < |s.mem.state.msgMap[id]| && s.mem.state.msgMap[id][m] == a;
    var last, more, k := ReadReaches(cfg, first[n], rid, id, m);
    JoinRuns(cfg, first, names, last, more);
    run, labels := first + last[1..], names + more;
    f, i, j := n - 1, n, n + k;
    JoinedLabels(names, more);
    ReadAfter(cfg, first, names, last, more, id, k, rid);
  }

  /**
   The failing run: the store writes on a shared member, fails on all its targets and answers, which leaves
   memory and state file as they were; a read begun after that is answered with the failed store's text.
   */
  lemma FailingStoreIsRead(cfg: Config, s: Sys, sid: int, id: int, text: string, picked: seq<MemberLoad>, a: Addr)
    returns (run: seq<Sys>, labels: seq<Label>, f: nat, i: nat, j: nat, rid: int)
    requires ConfigOk(cfg) && Inv(cfg, s) && id in s.mem.state.msgMap && CanBegin(cfg, s, sid, picked)
    requires a in s.mem.state.msgMap[id] && a in Addrs(picked)
    ensures StoreFails(cfg, s, sid, id, text, picked, run, labels, f)
    ensures run[f + 1].mem == s.mem && run[f + 1].saved == s.saved
    ensures FailedCopyIsRead(run, labels, sid, id, f, i, j, rid)
    ensures Current(run[j], rid) == a && Holds(run[j], a, id, text)
  {
    NewStore(cfg, s, sid, picked);
    TargetsSound(cfg, s, sid, picked);
    run, labels, f, i, j, rid := FailThenRead(cfg, s, sid, id, text, picked, a);
  }

  /** A read in the second of two joined runs is a read in the whole. */
  lemma ReadAfter(cfg: Config, run: seq<Sys>, labels: seq<Label>, next: seq<Sys>, more: seq<Label>, id: int, k: nat,
                  rid: int)
    requires IsRun(cfg, run, labels) && IsRun(cfg, next, more) && next[0] == run[|labels|]
    requires ReadLasts(next, more, rid, id, 0, k)
    ensures |run + next[1..]| == |labels + more| + 1
    ensures ReadLasts(run + next[1..], labels + more, rid, id, |labels|, |labels| + k)
    ensures (run + next[1..])[|labels| + k] == next[k] && (labels + more)[|labels| + k] == more[k]
  {
    hide Step;
    var n := |labels|;
    assert forall q :: n < q <= n + k ==> (run + next[1..])[q] == next[q - n];
  }

  lemma JoinedLabels(names: seq<Label>, more: seq<Label>)
    requires names != [] && names[0].Begin? && Passive(names[1..]) && Passive(more)
    ensures var labels := names + more;
            CrashFree(labels, 0, |labels|) && forall k :: 1 <= k < |labels| ==> !labels[k].Begin?
  {
    var labels := names + more;
    forall k | 1 <= k < |labels| ensures !labels[k].Begin? && !labels[k].Crash? {
      assert labels[k] == if k < |names| then names[1..][k - 1] else more[k - |names|];
    }
  }

  /**
   When nothing else stores the id, a store that answers failure can be read afterwards if and only if one
   of its targets is among the replicas listed for the id.
   */
  lemma FailedStoreIsReadIffOverlap(cfg: Config, s: Sys, sid: int, id: int, text: string, picked: seq<MemberLoad>)
    requires ConfigOk(cfg) && Inv(cfg, s) && Quiet(s, id) && id in s.mem.state.msgMap && CanBegin(cfg, s, sid, picked)
    ensures (exists run, labels, f, i, j, rid ::
               && StoreFails(cfg, s, sid, id, text, picked, run, labels, f)
               && FailedCopyIsRead(run, labels, sid, id, f, i, j, rid))
            <==> Overlaps(s, id, picked)
  {
    forall run, labels, f, i, j, rid |
      && StoreFails(cfg, s, sid, id, text, picked, run, labels, f)
      && FailedCopyIsRead(run, labels, sid, id, f, i, j, rid)
      ensures Overlaps(s, id, picked)
    {
      ReadCopyMeansOverlap(cfg, s, sid, id, text, picked, run, labels, f, i, j, rid);
    }
    if Overlaps(s, id, picked) {
      var a :| a in s.mem.state.msgMap[id] && a in Addrs(picked);
      var run, labels, f, i, j, rid := FailingStoreIsRead(cfg, s, sid, id, text, picked, a);
    }
  }

  /** What is read from such a copy is the failed store's text. */
  lemma FailedCopyHasItsText(cfg: Config, s: Sys, sid: int, id: int, text: string, picked: seq<MemberLoad>,
                             run: seq<Sys>, labels: seq<Label>, f: nat, i: nat, j: nat, rid: int)
    requires ConfigOk(cfg) && Inv(cfg, s) && Quiet(s, id) && id in s.mem.state.msgMap
    requires StoreFails(cfg, s, sid, id, text, picked, run, labels, f)
    requires FailedCopyIsRead(run, labels, sid, id, f, i, j, rid)
    ensures Holds(run[j], Current(run[j], rid), id, text)
  {
    assert Step(cfg, run[0], labels[0], run[1]);
    BeginBecomesLastWriter(cfg, s, labels[0], run[1]);
    RunKeepsLastWriter(cfg, run, labels, sid, run[1].attempts[sid], 1, j);
  }

  // ---------------------------------------------------------------- A failed store elsewhere is harmless

  lemma StepSparesText(cfg: Config, s: Sys, l: Label, t: Sys, sid: int, id: int, targets: seq<Addr>,
                       replicas: seq<Addr>, crashes: bool, a: Addr, before: string)
    requires Spared(s, sid, id, targets, replicas, crashes) && Step(cfg, s, l, t)
    requires a !in targets && Holds(s, a, id, before)
    ensures Holds(t, a, id, before)
  {
    if l.Apply? {
      assert (l.sid, l.a) in s.wire;
      assert a == l.a ==> s.attempts[l.sid].id != id;
    } else {
      assert t.files == s.files;
    }
  }

  /**
   A store that answers failure and shares no member with the replicas of the id leaves them as they were:
   all of them hold the earlier text throughout, and every read of the id begun meanwhile or later returns it
   or nothing.
   */
  lemma DisjointStoreIsHarmless(cfg: Config, s: Sys, sid: int, id: int, text: string, picked: seq<MemberLoad>,
                                run: seq<Sys>, labels: seq<Label>, f: nat, before: string, j: nat)
    requires ConfigOk(cfg) && Inv(cfg, s) && Quiet(s, id) && AllHold(s, s.mem, id, before)
    requires CanBegin(cfg, s, sid, picked) && !Overlaps(s, id, picked)
    requires StoreFails(cfg, s, sid, id, text, picked, run, labels, f) && j < |run|
    ensures AllHold(run[j], run[j].mem, id, before)
    ensures forall i, rid :: 0 < i && j < |labels| && ReadLasts(run, labels, rid, id, i, j)
                             && labels[j] == ReadHit(rid) ==>
                               AtTarget(run[j], rid, true) && Holds(run[j], Current(run[j], rid), id, before)
  {
    hide CanBegin, Spared;
    var replicas := s.mem.state.msgMap[id];
    forall a | a in replicas ensures Holds(run[j], a, id, before) {
      ReplicaKeepsText(cfg, s, sid, id, text, picked, run, labels, f, before, j, a);
    }
    if j > 0 {
      IndexIsSpared(cfg, s, sid, id, text, picked, run, labels, f, j);
    }
    forall i, rid | 0 < i && j < |labels| && ReadLasts(run, labels, rid, id, i, j) && labels[j] == ReadHit(rid)
      ensures AtTarget(run[j], rid, true) && Holds(run[j], Current(run[j], rid), id, before)
    {
      IndexIsSpared(cfg, s, sid, id, text, picked, run, labels, f, i);
      LaterReadAsksReplicas(cfg, run, labels, id, replicas, i, j, rid);
    }
  }

  lemma {:induction false} ReplicaKeepsText(cfg: Config, s: Sys, sid: int, id: int, text: string,
                                            picked: seq<MemberLoad>, run: seq<Sys>, labels: seq<Label>, f: nat,
                                            before: string, j: nat, a: Addr)
    requires ConfigOk(cfg) && Inv(cfg, s) && Quiet(s, id) && AllHold(s, s.mem, id, before)
    requires CanBegin(cfg, s, sid, picked) && !Overlaps(s, id, picked) && a in s.mem.state.msgMap[id]
    requires StoreFails(cfg, s, sid, id, text, picked, run, labels, f) && j < |run|
    ensures Holds(run[j], a, id, before)
  {
    if j > 0 {
      ReplicaKeepsText(cfg, s, sid, id, text, picked, run, labels, f, before, j - 1, a);
      assert Step(cfg, run[j - 1], labels[j - 1], run[j]);
      if j > 1 {
        FailingStoreSpares(cfg, s, sid, id, text, picked, run, labels, f, j - 1);
        StepSparesText(cfg, run[j - 1], labels[j - 1], run[j], sid, id, Addrs(picked), s.mem.state.msgMap[id],
                       SavedAgrees(s, id), a, before);
      }
    }
  }

  // ---------------------------------------------------------------- After an Ok store

  lemma StepKeepsQuiet(cfg: Config, s: Sys, l: Label, t: Sys, id: int)
    requires Inv(cfg, s) && Quiet(s, id) && Step(cfg, s, l, t)
    requires l.Begin? ==> l.id != id
    ensures Quiet(t, id)
  {
    if !l.Begin? {
      OnlyBeginSends(cfg, s, l, t);
    }
  }

  lemma StepKeepsAgreement(cfg: Config, s: Sys, l: Label, t: Sys, id: int)
    requires Quiet(s, id) && id in s.mem.state.msgMap && SavedAgrees(s, id) && Step(cfg, s, l, t)
    ensures id in t.mem.state.msgMap && SavedAgrees(t, id)
  {
    SavedChanges(cfg, s, l, t);
  }

  /**
   After an Ok store without a concurrent, later or unapplied other store for the id, nothing for the id is
   in progress, and memory and state file list the same replicas: the next store meets the conditions above.
   */
  lemma OkStoreSettles(cfg: Config, run: seq<Sys>, labels: seq<Label>, b: nat, e: nat, j: nat)
    requires IsExecution(cfg, run, labels) && b < e < j < |run|
    requires labels[b].Begin? && Quiet(run[b], labels[b].id) && NoNewStore(labels, b + 1, labels[b].id)
    requires labels[e] == SaveStore(labels[b].sid)
    ensures Quiet(run[j], labels[b].id)
    ensures AllHold(run[j], run[j].mem, labels[b].id, labels[b].text) && SavedAgrees(run[j], labels[b].id)
  {
    var id := labels[b].id;
    LastOkStoreIsRead(cfg, run, labels, b, e, j);
    QuietAfterSave(cfg, run, labels, b, e);
    var p := (s: Sys) => Quiet(s, id) && id in s.mem.state.msgMap && SavedAgrees(s, id);
    forall k | e + 1 <= k < j && p(run[k]) ensures p(run[k + 1]) {
      ExecutionInv(cfg, run, labels, k);
      StepKeepsQuiet(cfg, run[k], labels[k], run[k + 1], id);
      StepKeepsAgreement(cfg, run[k], labels[k], run[k + 1], id);
    }
    AlongRun(run, p, e + 1, j);
  }

  lemma QuietAfterSave(cfg: Config, run: seq<Sys>, labels: seq<Label>, b: nat, e: nat)
    requires IsExecution(cfg, run, labels) && b < e < |labels|
    requires labels[b].Begin? && Quiet(run[b], labels[b].id) && NoNewStore(labels, b + 1, labels[b].id)
    requires labels[e] == SaveStore(labels[b].sid)
    ensures Quiet(run[e + 1], labels[b].id)
    ensures labels[b].id in run[e + 1].mem.state.msgMap && SavedAgrees(run[e + 1], labels[b].id)
  {
    var sid := labels[b].sid;
    hide Inv, SavingSettled;
    ExecutionInv(cfg, run, labels, 0);
    ExecutionInv(cfg, run, labels, b);
    ExecutionInv(cfg, run, labels, e);
    ExecutionSavingSettled(cfg, run, labels, e);
    assert Step(cfg, run[b], labels[b], run[b + 1]);
    BeginBecomesLastWriter(cfg, run[b], labels[b], run[b + 1]);
    RunKeepsLastWriter(cfg, run, labels, sid, run[b + 1].attempts[sid], b + 1, e);
    SaveSettles(cfg, run[e], sid, run[e + 1]);
  }

  lemma SaveSettles(cfg: Config, s: Sys, sid: int, t: Sys)
    requires Inv(cfg, s) && LastWriter(s, sid) && SavingSettled(s) && Step(cfg, s, SaveStore(sid), t)
    ensures var id := s.attempts[sid].id; Quiet(t, id) && id in t.mem.state.msgMap && SavedAgrees(t, id)
  {
    AloneAndSettled(cfg, s, sid);
  }

  lemma AloneAndSettled(cfg: Config, s: Sys, sid: int)
    requires Inv(cfg, s) && Alone(s, sid) && Settled(s, sid)
    ensures Quiet(s, s.attempts[sid].id)
  {
    forall p | p in s.wire ensures p.0 in s.attempts && s.attempts[p.0].id != s.attempts[sid].id {
      assert p == (p.0, p.1) && p.0 != sid;
    }
  }

  // ---------------------------------------------------------------- Two overlapping stores that both succeed

  /** Only the disks, the requests under way and the record of writes differ. */
  ghost predicate OnlyWrites(s: Sys, t: Sys) {
    t == s.(wire := t.wire, files := t.files, applied := t.applied)
  }

  lemma WritePair(cfg: Config, s: Sys, first: int, second: int, a: Addr) returns (run: seq<Sys>, labels: seq<Label>)
    requires first in s.attempts && second in s.attempts && first != second
    requires (first, a) in s.wire && (second, a) in s.wire
    ensures IsRun(cfg, run, labels) && run[0] == s && labels == [Apply(first, a), Apply(second, a)]
    ensures OnlyWrites(s, run[2])
    ensures first in AppliedOn(run[2].applied, a) && second in AppliedOn(run[2].applied, a)
    ensures Holds(run[2], a, s.attempts[second].id, s.attempts[second].text)
    ensures forall b :: b != a ==>
                          && DiskOf(run[2].files, b) == DiskOf(s.files, b)
                          && AppliedOn(run[2].applied, b) == AppliedOn(s.applied, b)
    ensures forall p :: p in s.wire && p.1 != a ==> p in run[2].wire
  {
    var t := DoApply(s, first, a);
    run, labels := [s, t, DoApply(t, second, a)], [Apply(first, a), Apply(second, a)];
    assert Step(cfg, s, labels[0], t);
    assert Step(cfg, t, labels[1], run[2]);
  }

  /** Both stores have requests under way to this target. */
  ghost predicate BothSent(s: Sys, x: int, y: int, a: Addr) {
    (x, a) in s.wire && (y, a) in s.wire
  }

  ghost predicate BothWritten(s: Sys, x: int, y: int, a: Addr, id: int, text: string) {
    x in AppliedOn(s.applied, a) && y in AppliedOn(s.applied, a) && Holds(s, a, id, text)
  }

  /** The first target is written by `x` and then `y`, the others by `y` and then `x`. */
  lemma {:induction false} WriteCrosswise(cfg: Config, s: Sys, x: int, y: int, id: int, targets: seq<Addr>, n: nat)
    returns (run: seq<Sys>, labels: seq<Label>)
    requires x != y && x in s.attempts && y in s.attempts && s.attempts[x].id == id == s.attempts[y].id
    requires NoDup(targets) && n <= |targets| && forall k :: 0 <= k < |targets| ==> BothSent(s, x, y, targets[k])
    ensures IsRun(cfg, run, labels) && run[0] == s && Passive(labels)
    ensures OnlyWrites(s, run[|labels|])
    ensures forall k :: 0 <= k < n ==> BothWritten(run[|labels|], x, y, targets[k], id,
                                                   s.attempts[if k == 0 then y else x].text)
    ensures forall k :: n <= k < |targets| ==> BothSent(run[|labels|], x, y, targets[k])
  {
    if n == 0 {
      run, labels := [s], [];
    } else {
      run, labels := WriteCrosswise(cfg, s, x, y, id, targets, n - 1);
      var u, a := run[|labels|], targets[n - 1];
      assert BothSent(u, x, y, a);
      var first, second := if n == 1 then x else y, if n == 1 then y else x;
      var more, names := WritePair(cfg, u, first, second, a);
      assert forall k :: 0 <= k < n - 1 ==> BothWritten(u, x, y, targets[k], id,
                                                        s.attempts[if k == 0 then y else x].text);
      JoinRuns(cfg, run, labels, more, names);
      run, labels := run + more[1..], labels + names;
    }
  }

  lemma {:induction false} AckAll(cfg: Config, s: Sys, sid: int, n: nat) returns (run: seq<Sys>, labels: seq<Label>)
    requires sid in s.stores && NoDup(s.stores[sid].targets) && n <= |s.stores[sid].targets|
    requires s.stores[sid].acked == [] && s.stores[sid].failed == {}
    requires forall a :: a in s.stores[sid].targets ==> sid in AppliedOn(s.applied, a)
    ensures IsRun(cfg, run, labels) && run[0] == s && Passive(labels) && |labels| == n
    ensures run[n] == s.(stores := s.stores[sid := s.stores[sid].(acked := s.stores[sid].targets[..n])])
  {
    var op := s.stores[sid];
    if n == 0 {
      run, labels := [s], [];
      assert s.stores[sid := op.(acked := [])] == s.stores;
    } else {
      run, labels := AckAll(cfg, s, sid, n - 1);
      var a := op.targets[n - 1];
      var t := DoAck(run[n - 1], sid, a);
      assert op.targets[..n] == op.targets[..n - 1] + [a];
      Extend(cfg, run, labels, Ack(sid, a), t);
      run, labels := run + [t], labels + [Ack(sid, a)];
    }
  }

  /** The store is between snapshot and commit, written on all its targets and not yet acknowledged by any. */
  ghost predicate Written(cfg: Config, s: Sys, sid: int, id: int, targets: seq<Addr>) {
    && sid in s.stores && s.stores[sid] == StoreOp(targets, [], {})
    && sid in s.attempts && s.attempts[sid].id == id
    && NoDup(targets) && |targets| == cfg.tolerance
    && forall a :: a in targets ==> sid in AppliedOn(s.applied, a)
  }

  lemma FinishAndSave(cfg: Config, s: Sys, sid: int, id: int, targets: seq<Addr>)
    returns (run: seq<Sys>, labels: seq<Label>)
    requires ConfigOk(cfg) && sid in s.stores && s.stores[sid] == StoreOp(targets, targets, {})
    requires sid in s.attempts && s.attempts[sid].id == id && NoDup(targets) && |targets| == cfg.tolerance
    ensures IsRun(cfg, run, labels) && run[0] == s && labels == [Finish(sid), SaveStore(sid)]
    ensures id in run[2].mem.state.msgMap && run[2].mem.state.msgMap[id] == targets
    ensures forall a :: IsAlive(s.mem.state.memberLog, a) ==> IsAlive(run[2].mem.state.memberLog, a)
    ensures run[2].files == s.files && run[2].applied == s.applied && run[2].attempts == s.attempts
    ensures run[2].stores == s.stores - {sid} && run[2].readers == s.readers
  {
    CountAcksEffect(s.mem.state.memberLog, targets);
    var t := DoFinish(cfg, s, sid);
    run, labels := [s, t, t.(saved := Some(t.mem), saving := t.saving - {sid})], [Finish(sid), SaveStore(sid)];
    assert Step(cfg, s, labels[0], t);
    assert Step(cfg, t, labels[1], run[2]);
  }

  /** Such a store is acknowledged by all its targets, commits and returns Ok. */
  lemma Succeeds(cfg: Config, s: Sys, sid: int, id: int, targets: seq<Addr>)
    returns (run: seq<Sys>, labels: seq<Label>)
    requires ConfigOk(cfg) && Written(cfg, s, sid, id, targets)
    ensures IsRun(cfg, run, labels) && run[0] == s && Passive(labels) && SaveStore(sid) in labels
    ensures var t := run[|labels|];
            && id in t.mem.state.msgMap && t.mem.state.msgMap[id] == targets
            && (forall a :: IsAlive(s.mem.state.memberLog, a) ==> IsAlive(t.mem.state.memberLog, a))
            && t.files == s.files && t.applied == s.applied && t.attempts == s.attempts
            && t.stores == s.stores - {sid} && t.readers == s.readers
  {
    var n := |targets|;
    var first, names := AckAll(cfg, s, sid, n);
    assert targets[..n] == targets;
    var last, more := FinishAndSave(cfg, first[n], sid, id, targets);
    assert first[n].stores - {sid} == s.stores - {sid};
    JoinRuns(cfg, first, names, last, more);
    run, labels := first + last[1..], names + more;
    assert more[1] == SaveStore(sid);
    assert labels[n + 1] == more[1];
  }

  lemma BeginBoth(cfg: Config, s: Sys, x: int, y: int, id: int, xText: string, yText: string, picked: seq<MemberLoad>)
    returns (run: seq<Sys>, labels: seq<Label>)
    requires CanBegin(cfg, s, x, picked) && CanBegin(cfg, s, y, picked) && x != y
    ensures IsRun(cfg, run, labels) && run[0] == s
    ensures labels == [Begin(x, id, xText, picked), Begin(y, id, yText, picked)]
    ensures run[2].mem == s.mem && run[2].readers == s.readers
    ensures x in run[2].stores && run[2].stores[x] == StoreOp(Addrs(picked), [], {})
    ensures y in run[2].stores && run[2].stores[y] == StoreOp(Addrs(picked), [], {})
    ensures x in run[2].attempts && run[2].attempts[x] == Attempt(id, xText)
    ensures y in run[2].attempts && run[2].attempts[y] == Attempt(id, yText)
    ensures forall k :: 0 <= k < |picked| ==> BothSent(run[2], x, y, Addrs(picked)[k])
  {
    var t := DoBegin(s, x, id, xText, picked);
    run := [s, t, DoBegin(t, y, id, yText, picked)];
    labels := [Begin(x, id, xText, picked), Begin(y, id, yText, picked)];
    assert Step(cfg, s, labels[0], t);
    assert Step(cfg, t, labels[1], run[2]);
  }

  /** Both stores begin, and their requests are applied in different orders. */
  lemma BothWrite(cfg: Config, s: Sys, x: int, y: int, id: int, xText: string, yText: string, picked: seq<MemberLoad>)
    returns (run: seq<Sys>, labels: seq<Label>)
    requires NoDup(Addrs(picked)) && |picked| == cfg.tolerance
    requires CanBegin(cfg, s, x, picked) && CanBegin(cfg, s, y, picked) && x != y
    ensures IsRun(cfg, run, labels) && run[0] == s && |labels| >= 2 && Passive(labels[2..])
    ensures labels[0] == Begin(x, id, xText, picked) && labels[1] == Begin(y, id, yText, picked)
    ensures var u, targets := run[|labels|], Addrs(picked);
            && u.mem == s.mem && u.readers == s.readers
            && Written(cfg, u, x, id, targets) && Written(cfg, u, y, id, targets)
            && forall k :: 0 <= k < |targets| ==> Holds(u, targets[k], id, if k == 0 then yText else xText)
  {
    hide CanBegin, Enabled, Next;
    var targets := Addrs(picked);
    var first, names := BeginBoth(cfg, s, x, y, id, xText, yText, picked);
    var last, more := WriteCrosswise(cfg, first[2], x, y, id, targets, |targets|);
    var u := last[|more|];
    assert forall k :: 0 <= k < |targets| ==> BothWritten(u, x, y, targets[k], id, if k == 0 then yText else xText);
    JoinRuns(cfg, first, names, last, more);
    run, labels := first + last[1..], names + more;
    assert labels[2..] == more;
  }

  lemma BothReturnOk(cfg: Config, s: Sys, x: int, y: int, id: int, targets: seq<Addr>)
    returns (run: seq<Sys>, labels: seq<Label>)
    requires ConfigOk(cfg) && x != y && Written(cfg, s, x, id, targets) && Written(cfg, s, y, id, targets)
    ensures IsRun(cfg, run, labels) && run[0] == s && Passive(labels)
    ensures SaveStore(x) in labels && SaveStore(y) in labels
    ensures var t := run[|labels|];
            && id in t.mem.state.msgMap && t.mem.state.msgMap[id] == targets && t.readers == s.readers
            && (forall a :: IsAlive(s.mem.state.memberLog, a) ==> IsAlive(t.mem.state.memberLog, a))
            && t.files == s.files
  {
    var first, names := Succeeds(cfg, s, x, id, targets);
    var last, more := Succeeds(cfg, first[|names|], y, id, targets);
    JoinRuns(cfg, first, names, last, more);
    run, labels := first + last[1..], names + more;
  }

  /** Two stores of one id that overlap and both return Ok may leave different texts on its replicas. */
  lemma OkStoresDisagree(cfg: Config, s: Sys, x: int, y: int, id: int, xText: string, yText: string,
                         picked: seq<MemberLoad>)
    returns (run: seq<Sys>, labels: seq<Label>)
    requires ConfigOk(cfg) && NoDup(Addrs(picked)) && |picked| == cfg.tolerance
    requires CanBegin(cfg, s, x, picked) && CanBegin(cfg, s, y, picked) && x != y
    ensures IsRun(cfg, run, labels) && run[0] == s && |labels| >= 2 && Passive(labels[2..])
    ensures labels[0] == Begin(x, id, xText, picked) && labels[1] == Begin(y, id, yText, picked)
    ensures SaveStore(x) in labels && SaveStore(y) in labels
    ensures var t, targets := run[|labels|], Addrs(picked);
            && id in t.mem.state.msgMap && t.mem.state.msgMap[id] == targets && t.readers == s.readers
            && (forall a :: IsAlive(s.mem.state.memberLog, a) ==> IsAlive(t.mem.state.memberLog, a))
            && forall k :: 0 <= k < |targets| ==> Holds(t, targets[k], id, if k == 0 then yText else xText)
  {
    hide CanBegin, Written, Enabled, Next;
    var first, names := BothWrite(cfg, s, x, y, id, xText, yText, picked);
    var last, more := BothReturnOk(cfg, first[|names|], x, y, id, Addrs(picked));
    JoinRuns(cfg, first, names, last, more);
    run, labels := first + last[1..], names + more;
    assert labels[2..] == names[2..] + more;
  }

  /**
   With a tolerance of at least 2, two overlapping stores of one id can both return Ok, and a read begun after
   both have returned may be answered with the text of either: `m` says by which replica.
   */
  lemma EitherOkTextIsRead(cfg: Config, s: Sys, x: int, y: int, id: int, xText: string, yText: string,
                           picked: seq<MemberLoad>, m: nat)
    returns (run: seq<Sys>, labels: seq<Label>, i: nat, j: nat, rid: int)
    requires ConfigOk(cfg) && Inv(cfg, s) && m < cfg.tolerance
    requires CanBegin(cfg, s, x, picked) && CanBegin(cfg, s, y, picked) && x != y
    ensures IsRun(cfg, run, labels) && run[0] == s && 2 <= i < |labels| && Passive(labels[2..])
    ensures labels[0] == Begin(x, id, xText, picked) && labels[1] == Begin(y, id, yText, picked)
    ensures ReadLasts(run, labels, rid, id, i, j) && labels[j] == ReadHit(rid)
    ensures SaveStore(x) in labels[..i] && SaveStore(y) in labels[..i]
    ensures AtTarget(run[j], rid, true) && Holds(run[j], Current(run[j], rid), id, if m == 0 then yText else xText)
  {
    TargetsSound(cfg, s, x, picked);
    var first, names := OkStoresDisagree(cfg, s, x, y, id, xText, yText, picked);
    run, labels, i, j, rid := ThenRead(cfg, s, first, names, id, Addrs(picked), m, if m == 0 then yText else xText);
  }

  lemma ThenRead(cfg: Config, s: Sys, first: seq<Sys>, names: seq<Label>, id: int, replicas: seq<Addr>, m: nat,
                 text: string)
    returns (run: seq<Sys>, labels: seq<Label>, i: nat, j: nat, rid: int)
    requires IsRun(cfg, first, names) && first[0] == s && |names| >= 2 && Passive(names[2..])
    requires m < |replicas| && id in first[|names|].mem.state.msgMap && first[|names|].mem.state.msgMap[id] == replicas
    requires IsAlive(first[|names|].mem.state.memberLog, replicas[m]) && Holds(first[|names|], replicas[m], id, text)
    ensures IsRun(cfg, run, labels) && run[0] == s && i == |names| < |labels| && labels[..i] == names
    ensures Passive(labels[2..])
    ensures ReadLasts(run, labels, rid, id, i, j) && labels[j] == ReadHit(rid)
    ensures AtTarget(run[j], rid, true) && Holds(run[j], Current(run[j], rid), id, text)
  {
    hide Enabled, Next, ReadLasts;
    rid := NewNumber(first[|names|].readers.Keys);
    var last, more, k := ReadReaches(cfg, first[|names|], rid, id, m);
    JoinRuns(cfg, first, names, last, more);
    ReadAfter(cfg, first, names, last, more, id, k, rid);
    run, labels := first + last[1..], names + more;
    i, j := |names|, |names| + k;
    assert labels[2..] == names[2..] + more;
  }
}
