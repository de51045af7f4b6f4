/** What the replica index promises, and what a read can return. */
module Replicas {
  import opened Seqs
  import opened Leader
  import opened Cluster
  import opened Invariants

  /** Some store attempt for `id` carried this text. */
  ghost predicate WasSent(s: Sys, id: int, text: string) {
    exists sid :: sid in s.attempts && s.attempts[sid] == Attempt(id, text)
  }

  /** `a` has a file for `id`, and a store attempt for `id` carried its text. */
  ghost predicate HoldsSent(s: Sys, id: int, a: Addr) {
    id in DiskOf(s.files, a) && WasSent(s, id, DiskOf(s.files, a)[id])
  }

  ghost predicate IndexBacked(cfg: Config, s: Sys, st: LeaderState) {
    && NoDup(st.members) && Elems(st.members) == st.memberLog.Keys
    && forall id :: id in st.msgMap ==>
                      && |st.msgMap[id]| == cfg.tolerance && NoDup(st.msgMap[id])
                      && forall a :: a in st.msgMap[id] ==> a in st.members && a in st.memberLog && HoldsSent(s, id, a)
  }

  lemma FilesWereSent(s: Sys, id: int, a: Addr)
    requires DisksOk(s) && id in DiskOf(s.files, a)
    ensures HoldsSent(s, id, a)
  {
    assert DiskOk(DiskOf(s.files, a), s.attempts, AppliedOn(s.applied, a));
    assert Carried(s.attempts, AppliedOn(s.applied, a), id, DiskOf(s.files, a)[id]);
  }

  lemma ImageIsBacked(cfg: Config, s: Sys, im: Image)
    requires DisksOk(s) && ImageOk(cfg.tolerance, s.attempts, s.applied, im)
    ensures IndexBacked(cfg, s, im.state)
  {
    var st := im.state;
    forall id, a | id in st.msgMap && a in st.msgMap[id]
      ensures a in st.members && a in st.memberLog && HoldsSent(s, id, a)
    {
      assert a in Elems(st.msgMap[id]);
      assert a in Elems(st.members);
      assert Backed(s.attempts, im.counted, id, a);
      assert DiskOk(DiskOf(s.files, a), s.attempts, AppliedOn(s.applied, a));
      FilesWereSent(s, id, a);
    }
  }

  /**
   In every state of every execution, in memory and on file: the members are pairwise different and are
   the keys of the member log, and every indexed id has exactly `tolerance` different replicas, all
   registered, each with a file whose text some store attempt for that id carried.
   */
  lemma ReplicaIndexHolds(cfg: Config, run: seq<Sys>, labels: seq<Label>, i: nat)
    requires IsExecution(cfg, run, labels) && i < |run|
    ensures IndexBacked(cfg, run[i], run[i].mem.state)
    ensures run[i].saved.Some? ==> IndexBacked(cfg, run[i], run[i].saved.value.state)
  {
    ExecutionInv(cfg, run, labels, i);
    ImageIsBacked(cfg, run[i], run[i].mem);
    if run[i].saved.Some? {
      ImageIsBacked(cfg, run[i], run[i].saved.value);
    }
  }

  // ---------------------------------------------------------------- Reads

  /** The text that a read returns when its current target answers. */
  function HitText(s: Sys, rid: int): string
    requires AtTarget(s, rid, true) && s.readers[rid].id in DiskOf(s.files, Current(s, rid))
  {
    DiskOf(s.files, Current(s, rid))[s.readers[rid].id]
  }

  /** No read ever returns a text that no store attempt for its id carried. */
  lemma ReadsReturnSentTexts(cfg: Config, run: seq<Sys>, labels: seq<Label>, i: nat, rid: int)
    requires IsExecution(cfg, run, labels) && i < |labels| && labels[i] == ReadHit(rid)
    ensures AtTarget(run[i], rid, true) && run[i].readers[rid].id in DiskOf(run[i].files, Current(run[i], rid))
    ensures WasSent(run[i], run[i].readers[rid].id, HitText(run[i], rid))
  {
    assert Step(cfg, run[i], labels[i], run[i + 1]);
    ExecutionInv(cfg, run, labels, i);
    FilesWereSent(run[i], run[i].readers[rid].id, Current(run[i], rid));
  }

  lemma StepKeepsRead(cfg: Config, s: Sys, l: Label, t: Sys, rid: int)
    requires Step(cfg, s, l, t) && rid in s.readers && rid in t.readers
    ensures t.readers[rid].id == s.readers[rid].id
    ensures t.readers[rid].targets == s.readers[rid].targets
    ensures t.readers[rid].indexed == s.readers[rid].indexed
  {
  }

  /** While the same read goes on, its id and its targets do not change. */
  lemma {:induction false} ReadKeepsTargets(cfg: Config, run: seq<Sys>, labels: seq<Label>, rid: int, i: nat, j: nat)
    requires IsRun(cfg, run, labels) && i <= j < |run|
    requires forall k :: i <= k <= j ==> rid in run[k].readers
    ensures run[j].readers[rid].id == run[i].readers[rid].id
    ensures run[j].readers[rid].targets == run[i].readers[rid].targets
    ensures run[j].readers[rid].indexed == run[i].readers[rid].indexed
  {
    if i < j {
      ReadKeepsTargets(cfg, run, labels, rid, i, j - 1);
      hide Enabled, Next;
      assert Step(cfg, run[j - 1], labels[j - 1], run[j]);
      StepKeepsRead(cfg, run[j - 1], labels[j - 1], run[j], rid);
    }
  }

  /** Step `k` of the read passes over `a`: it is down when looked at, or its call brings no answer. */
  ghost predicate PassesOver(run: seq<Sys>, labels: seq<Label>, rid: int, a: Addr, k: nat)
    requires |run| == |labels| + 1
  {
    && k < |labels|
    && rid in run[k].readers && run[k].readers[rid].next < |run[k].readers[rid].targets|
    && Current(run[k], rid) == a
    && (labels[k] == ReadFail(rid)
        || (labels[k] == ReadSkip(rid) && !IsAlive(run[k].mem.state.memberLog, a)))
  }

  ghost predicate PassedOver(run: seq<Sys>, labels: seq<Label>, rid: int, a: Addr, i: nat, j: nat)
    requires |run| == |labels| + 1
  {
    exists k :: i < k < j && PassesOver(run, labels, rid, a, k)
  }

  lemma StepFillsSilent(cfg: Config, s: Sys, l: Label, t: Sys, rid: int, a: Addr)
    requires Step(cfg, s, l, t) && rid in s.readers && rid in t.readers
    requires a in t.readers[rid].silent && a !in s.readers[rid].silent
    ensures PassesOver([s, t], [l], rid, a, 0)
  {
  }

  lemma {:induction false} SilentWerePassedOver(cfg: Config, run: seq<Sys>, labels: seq<Label>, rid: int, a: Addr,
                                                i: nat, j: nat)
    requires IsRun(cfg, run, labels) && i < j < |run|
    requires labels[i].ReadStart? && labels[i].rid == rid
    requires forall k :: i < k <= j ==> rid in run[k].readers
    requires a in run[j].readers[rid].silent
    ensures PassedOver(run, labels, rid, a, i, j)
  {
    assert Step(cfg, run[j - 1], labels[j - 1], run[j]);
    if j > i + 1 {
      if a in run[j - 1].readers[rid].silent {
        SilentWerePassedOver(cfg, run, labels, rid, a, i, j - 1);
        var k :| i < k < j - 1 && PassesOver(run, labels, rid, a, k);
        assert i < k < j;
      } else {
        StepFillsSilent(cfg, run[j - 1], labels[j - 1], run[j], rid, a);
        assert PassesOver(run, labels, rid, a, j - 1);
      }
    }
  }

  /** The same read goes on from step `i` to step `j`. */
  ghost predicate ReadLasts(run: seq<Sys>, labels: seq<Label>, rid: int, id: int, i: nat, j: nat)
    requires |run| == |labels| + 1
  {
    i < j < |labels| && labels[i] == ReadStart(rid, id) && forall k :: i < k <= j ==> rid in run[k].readers
  }

  /**
   Step `k` of the read tries its target number `m` in vain: it is down when looked at, its call brings no
   answer, or it has no file for the id.
   */
  ghost predicate TriesInVain(run: seq<Sys>, labels: seq<Label>, rid: int, m: nat, k: nat)
    requires |run| == |labels| + 1
  {
    && k < |labels|
    && rid in run[k].readers && run[k].readers[rid].next == m < |run[k].readers[rid].targets|
    && (labels[k] == ReadFail(rid)
        || (labels[k] == ReadSkip(rid) && !IsAlive(run[k].mem.state.memberLog, Current(run[k], rid)))
        || (labels[k] == ReadMiss(rid) && run[k].readers[rid].id !in DiskOf(run[k].files, Current(run[k], rid))))
  }

  ghost predicate TriedInVain(run: seq<Sys>, labels: seq<Label>, rid: int, m: nat, i: nat, j: nat)
    requires |run| == |labels| + 1
  {
    exists k :: i < k < j && TriesInVain(run, labels, rid, m, k)
  }

  lemma StartsAtFirst(cfg: Config, s: Sys, l: Label, t: Sys)
    requires Step(cfg, s, l, t) && l.ReadStart?
    ensures l.rid in t.readers && t.readers[l.rid].next == 0
  {
  }

  lemma StepTries(cfg: Config, s: Sys, l: Label, t: Sys, rid: int)
    requires Step(cfg, s, l, t) && rid in s.readers && rid in t.readers
    ensures t.readers[rid].next == s.readers[rid].next
            || (t.readers[rid].next == s.readers[rid].next + 1
                && TriesInVain([s, t], [l], rid, s.readers[rid].next, 0))
  {
  }

  lemma {:induction false} EarlierTargetsTried(cfg: Config, run: seq<Sys>, labels: seq<Label>, rid: int, i: nat, j: nat,
                                               m: nat)
    requires IsRun(cfg, run, labels) && i < j < |run|
    requires labels[i].ReadStart? && labels[i].rid == rid
    requires forall k :: i < k <= j ==> rid in run[k].readers
    requires m < run[j].readers[rid].next
    ensures TriedInVain(run, labels, rid, m, i, j)
  {
    hide Enabled, Next;
    if j == i + 1 {
      StartsAtFirst(cfg, run[i], labels[i], run[j]);
    } else {
      StepTries(cfg, run[j - 1], labels[j - 1], run[j], rid);
      if m < run[j - 1].readers[rid].next {
        EarlierTargetsTried(cfg, run, labels, rid, i, j - 1, m);
        var k :| i < k < j - 1 && TriesInVain(run, labels, rid, m, k);
        assert i < k < j;
      } else {
        assert TriesInVain(run, labels, rid, m, j - 1);
      }
    }
  }

  /**
   A read goes through its targets in order: the listed replicas when it starts on an indexed id, or else all
   members. Those before the current one have been tried in vain, and it ends without a text only after all.
   */
  lemma ReadTriesInOrder(cfg: Config, run: seq<Sys>, labels: seq<Label>, i: nat, j: nat, rid: int, id: int)
    requires IsExecution(cfg, run, labels) && ReadLasts(run, labels, rid, id, i, j)
    ensures var st, op := run[i].mem.state, run[j].readers[rid];
            && op.id == id && op.targets == (if id in st.msgMap then st.msgMap[id] else st.members)
            && (forall m :: 0 <= m < op.next ==> TriedInVain(run, labels, rid, m, i, j))
            && (labels[j] == ReadEnd(rid) ==> op.next == |op.targets|)
  {
    assert Step(cfg, run[i], labels[i], run[i + 1]);
    ExecutionInv(cfg, run, labels, i);
    ExecutionInv(cfg, run, labels, j);
    ReadKeepsTargets(cfg, run, labels, rid, i + 1, j);
    ReadEndsAtTheEnd(cfg, run[j], labels[j], run[j + 1], rid);
    forall m | 0 <= m < run[j].readers[rid].next ensures TriedInVain(run, labels, rid, m, i, j) {
      EarlierTargetsTried(cfg, run, labels, rid, i, j, m);
    }
  }

  lemma ReadEndsAtTheEnd(cfg: Config, s: Sys, l: Label, t: Sys, rid: int)
    requires Inv(cfg, s) && Step(cfg, s, l, t) && rid in s.readers
    ensures s.readers[rid].next <= |s.readers[rid].targets|
    ensures l == ReadEnd(rid) ==> s.readers[rid].next == |s.readers[rid].targets|
  {
    assert ReaderOk(cfg.tolerance, s.files, s.readers[rid]);
  }

  /**
   A read of an id without replicas ends without a text only after asking every member: each was down when
   looked at, did not answer, or had no file for the id.
   */
  lemma UnindexedReadAsksAll(cfg: Config, run: seq<Sys>, labels: seq<Label>, i: nat, j: nat, rid: int, id: int, a: Addr)
    requires IsExecution(cfg, run, labels) && ReadLasts(run, labels, rid, id, i, j) && labels[j] == ReadEnd(rid)
    requires id !in run[i].mem.state.msgMap && a in run[i].mem.state.members
    ensures exists k :: i < k < j && rid in run[k].readers && AsksInVain(run, labels, rid, id, a, k)
  {
    ReadTriesInOrder(cfg, run, labels, i, j, rid, id);
    var m :| 0 <= m < |run[i].mem.state.members| && run[i].mem.state.members[m] == a;
    assert TriedInVain(run, labels, rid, m, i, j);
    var k :| i < k < j && TriesInVain(run, labels, rid, m, k);
    assert Step(cfg, run[i], labels[i], run[i + 1]);
    ReadKeepsTargets(cfg, run, labels, rid, i + 1, k);
    ReadKeepsTargets(cfg, run, labels, rid, i + 1, j);
    assert AsksInVain(run, labels, rid, id, a, k);
  }

  /** Step `k` of the read tries `a` in vain. */
  ghost predicate AsksInVain(run: seq<Sys>, labels: seq<Label>, rid: int, id: int, a: Addr, k: nat)
    requires |run| == |labels| + 1
  {
    && k < |labels|
    && rid in run[k].readers && run[k].readers[rid].next < |run[k].readers[rid].targets|
    && Current(run[k], rid) == a
    && (labels[k] == ReadFail(rid)
        || (labels[k] == ReadSkip(rid) && !IsAlive(run[k].mem.state.memberLog, a))
        || (labels[k] == ReadMiss(rid) && id !in DiskOf(run[k].files, a)))
  }

  /**
   A read that starts on an indexed id ends without a text only after passing over every one of its
   `tolerance` different replicas, each because it was down when looked at or did not answer.
   */
  lemma NotFoundNeedsAllSilent(cfg: Config, run: seq<Sys>, labels: seq<Label>, i: nat, j: nat, rid: int, id: int)
    requires IsExecution(cfg, run, labels) && ReadLasts(run, labels, rid, id, i, j) && labels[j] == ReadEnd(rid)
    requires id in run[i].mem.state.msgMap
    ensures |Elems(run[i].mem.state.msgMap[id])| == cfg.tolerance
    ensures forall a :: a in run[i].mem.state.msgMap[id] ==> PassedOver(run, labels, rid, a, i, j)
  {
    assert Step(cfg, run[i], labels[i], run[i + 1]);
    assert Step(cfg, run[j], labels[j], run[j + 1]);
    ExecutionInv(cfg, run, labels, i);
    ExecutionInv(cfg, run, labels, j);
    ReadKeepsTargets(cfg, run, labels, rid, i + 1, j);
    var op := run[j].readers[rid];
    assert ReaderOk(cfg.tolerance, run[j].files, op);
    assert op.targets[..op.next] == op.targets;
    NoDupSize(op.targets);
    forall a | a in op.targets ensures PassedOver(run, labels, rid, a, i, j) {
      SilentWerePassedOver(cfg, run, labels, rid, a, i, j);
    }
  }

  ghost function LostReplicas(run: seq<Sys>, labels: seq<Label>, rid: int, replicas: seq<Addr>, i: nat, j: nat)
    : set<Addr>
    requires |run| == |labels| + 1
  {
    set a | a in replicas && PassedOver(run, labels, rid, a, i, j)
  }

  lemma AllLost(run: seq<Sys>, labels: seq<Label>, rid: int, replicas: seq<Addr>, i: nat, j: nat)
    requires |run| == |labels| + 1
    requires forall a :: a in replicas ==> PassedOver(run, labels, rid, a, i, j)
    ensures LostReplicas(run, labels, rid, replicas, i, j) == Elems(replicas)
  {
  }

  lemma ReadEndsOwn(cfg: Config, s: Sys, l: Label, t: Sys, rid: int)
    requires Step(cfg, s, l, t) && rid in s.readers && rid !in t.readers && !l.Crash?
    ensures l == ReadHit(rid) || l == ReadEnd(rid)
  {
  }

  /**
   The fault-tolerant read: when a read of an indexed id ends, and fewer than `tolerance` of the replicas
   were down when looked at or did not answer, it ends with a text.
   */
  lemma FaultTolerantRead(cfg: Config, run: seq<Sys>, labels: seq<Label>, i: nat, j: nat, rid: int, id: int)
    requires IsExecution(cfg, run, labels) && ReadLasts(run, labels, rid, id, i, j)
    requires rid !in run[j + 1].readers && !labels[j].Crash?
    requires id in run[i].mem.state.msgMap
    requires |LostReplicas(run, labels, rid, run[i].mem.state.msgMap[id], i, j)| < cfg.tolerance
    ensures labels[j] == ReadHit(rid)
  {
    assert Step(cfg, run[j], labels[j], run[j + 1]);
    ReadEndsOwn(cfg, run[j], labels[j], run[j + 1], rid);
    if labels[j] == ReadEnd(rid) {
      NotFoundNeedsAllSilent(cfg, run, labels, i, j, rid, id);
      AllLost(run, labels, rid, run[i].mem.state.msgMap[id], i, j);
    }
  }

  predicate OwnStep(l: Label, rid: int) {
    l == ReadSkip(rid) || l == ReadCall(rid) || l == ReadFail(rid) || l == ReadMiss(rid) || l == ReadHit(rid)
    || l == ReadEnd(rid)
  }

  function ReadMeasure(op: ReadOp): int {
    2 * (|op.targets| - op.next) - if op.calling then 1 else 0
  }

  /** A read in progress can always take a step of its own. */
  lemma ReadCanMove(cfg: Config, s: Sys, rid: int) returns (l: Label)
    requires ConfigOk(cfg) && Inv(cfg, s) && rid in s.readers
    ensures OwnStep(l, rid) && Enabled(cfg, s, l)
  {
    var op := s.readers[rid];
    assert ReaderOk(cfg.tolerance, s.files, op);
    if op.calling {
      l := ReadFail(rid);
    } else if op.next >= |op.targets| {
      l := ReadEnd(rid);
    } else if IsAlive(s.mem.state.memberLog, op.targets[op.next]) {
      l := ReadCall(rid);
    } else {
      l := ReadSkip(rid);
    }
  }

  /** Each step of its own ends a read or brings it closer to its end. */
  lemma ReadMovesOn(cfg: Config, s: Sys, l: Label, t: Sys, rid: int)
    requires ReadersOk(cfg, s) && rid in s.readers && OwnStep(l, rid) && Step(cfg, s, l, t)
    ensures ReadMeasure(s.readers[rid]) >= 0
    ensures rid in t.readers ==> ReadMeasure(t.readers[rid]) < ReadMeasure(s.readers[rid])
  {
    assert ReaderOk(cfg.tolerance, s.files, s.readers[rid]);
  }

  // ---------------------------------------------------------------- The last writer's text

  /** No other attempt for the id of `sid` is still collecting acks or may still be written. */
  ghost predicate Alone(s: Sys, sid: int) {
    && sid in s.attempts
    && (forall other :: other in s.attempts && other != sid && s.attempts[other].id == s.attempts[sid].id ==>
                          other !in s.stores && forall a :: (other, a) !in s.wire)
  }

  /** Whatever member wrote `sid` holds its text. */
  ghost predicate HoldsText(s: Sys, sid: int) {
    && sid in s.attempts
    && forall a :: sid in AppliedOn(s.applied, a) ==>
                     && s.attempts[sid].id in DiskOf(s.files, a)
                     && DiskOf(s.files, a)[s.attempts[sid].id] == s.attempts[sid].text
  }

  /** The id is indexed, at members that wrote `sid`. */
  ghost predicate IndexedBy(s: Sys, sid: int, im: Image)
    requires sid in s.attempts
  {
    && s.attempts[sid].id in im.state.msgMap
    && forall a :: a in im.state.msgMap[s.attempts[sid].id] ==> sid in AppliedOn(s.applied, a)
  }

  /** Reads of the id that are not among `old` go to members that wrote `sid`. */
  ghost predicate NewReadsAt(s: Sys, sid: int, older: set<int>)
    requires sid in s.attempts
  {
    forall rid :: rid in s.readers && rid !in older && s.readers[rid].id == s.attempts[sid].id ==>
                    forall a :: a in s.readers[rid].targets ==> sid in AppliedOn(s.applied, a)
  }

  /** From its snapshot on, `sid` is the last writer of its id. */
  ghost predicate LastWriter(s: Sys, sid: int) {
    && Alone(s, sid) && HoldsText(s, sid)
    && (sid in s.saving ==> IndexedBy(s, sid, s.mem))
  }

  /** And after it has returned Ok, the index in memory and on file points at its copies. */
  ghost predicate LastWriterOk(s: Sys, sid: int, older: set<int>) {
    && LastWriter(s, sid)
    && IndexedBy(s, sid, s.mem)
    && s.saved.Some? && IndexedBy(s, sid, s.saved.value)
    && NewReadsAt(s, sid, older)
  }

  ghost predicate NoNewStore(labels: seq<Label>, from: nat, id: int) {
    forall k :: from <= k < |labels| && labels[k].Begin? ==> labels[k].id != id
  }

  lemma OnlyBeginSends(cfg: Config, s: Sys, l: Label, t: Sys)
    requires Step(cfg, s, l, t) && !l.Begin?
    ensures t.attempts == s.attempts && t.wire <= s.wire && t.stores.Keys <= s.stores.Keys
  {
  }

  lemma StepKeepsAlone(cfg: Config, s: Sys, l: Label, t: Sys, sid: int)
    requires Inv(cfg, s) && Step(cfg, s, l, t) && Alone(s, sid)
    requires l.Begin? ==> l.id != s.attempts[sid].id
    ensures Alone(t, sid) && t.attempts[sid] == s.attempts[sid]
  {
    if !l.Begin? {
      OnlyBeginSends(cfg, s, l, t);
    }
  }

  lemma ApplyKeepsText(s: Sys, w: int, b: Addr, sid: int)
    requires (w, b) in s.wire && w in s.attempts && Alone(s, sid) && HoldsText(s, sid)
    ensures HoldsText(DoApply(s, w, b), sid)
  {
    var t := DoApply(s, w, b);
    var id := s.attempts[sid].id;
    forall a | sid in AppliedOn(t.applied, a)
      ensures id in DiskOf(t.files, a) && DiskOf(t.files, a)[id] == s.attempts[sid].text
    {
      if a != b {
        assert AppliedOn(t.applied, a) == AppliedOn(s.applied, a);
        assert DiskOf(t.files, a) == DiskOf(s.files, a);
      } else if w != sid {
        assert s.attempts[w].id != id;
        assert sid in AppliedOn(s.applied, a);
      }
    }
  }

  lemma StepKeepsText(cfg: Config, s: Sys, l: Label, t: Sys, sid: int)
    requires Step(cfg, s, l, t) && Alone(s, sid) && HoldsText(s, sid)
    requires l.Begin? ==> l.id != s.attempts[sid].id
    ensures HoldsText(t, sid)
  {
    if l.Apply? {
      ApplyKeepsText(s, l.sid, l.a, sid);
    }
  }

  /** Committing anything keeps the id indexed at members that wrote `sid`; committing `sid` in full puts it there. */
  lemma FinishKeepsIndexed(cfg: Config, s: Sys, sid: int, other: int)
    requires ConfigOk(cfg) && Inv(cfg, s) && Alone(s, sid) && Enabled(cfg, s, Finish(other))
    ensures var t := DoFinish(cfg, s, other);
            && (IndexedBy(s, sid, s.mem) ==> IndexedBy(t, sid, t.mem))
            && (other == sid && sid in t.saving && sid !in s.saving ==> IndexedBy(t, sid, t.mem))
  {
    assert StoreOk(cfg.tolerance, s.attempts, s.applied, s.mem.counted, other, s.stores[other]);
  }

  lemma StepKeepsIndexed(cfg: Config, s: Sys, l: Label, t: Sys, sid: int)
    requires ConfigOk(cfg) && Inv(cfg, s) && Step(cfg, s, l, t) && Alone(s, sid) && !l.Crash?
    requires IndexedBy(s, sid, s.mem)
    requires l.Begin? ==> l.id != s.attempts[sid].id
    ensures sid in t.attempts && IndexedBy(t, sid, t.mem)
  {
    if l.Finish? {
      FinishKeepsIndexed(cfg, s, sid, l.sid);
    }
  }

  lemma StepKeepsLastWriter(cfg: Config, s: Sys, l: Label, t: Sys, sid: int)
    requires ConfigOk(cfg) && Inv(cfg, s) && Step(cfg, s, l, t) && LastWriter(s, sid)
    requires l.Begin? ==> l.id != s.attempts[sid].id
    ensures LastWriter(t, sid) && t.attempts[sid] == s.attempts[sid]
  {
    StepKeepsAlone(cfg, s, l, t, sid);
    StepKeepsText(cfg, s, l, t, sid);
    if sid in t.saving {
      if sid in s.saving {
        StepKeepsIndexed(cfg, s, l, t, sid);
      } else {
        FinishKeepsIndexed(cfg, s, sid, l.sid);
      }
    }
  }

  lemma StepKeepsNewReads(cfg: Config, s: Sys, l: Label, t: Sys, sid: int, older: set<int>)
    requires ConfigOk(cfg) && IndexOk(s.mem.state, cfg.tolerance) && Step(cfg, s, l, t)
    requires sid in s.attempts && IndexedBy(s, sid, s.mem) && NewReadsAt(s, sid, older)
    ensures sid in t.attempts && t.attempts[sid] == s.attempts[sid] && NewReadsAt(t, sid, older)
  {
    forall rid | rid in t.readers && rid !in older && t.readers[rid].id == t.attempts[sid].id
      ensures forall a :: a in t.readers[rid].targets ==> sid in AppliedOn(t.applied, a)
    {
      if rid in s.readers {
        StepKeepsRead(cfg, s, l, t, rid);
      }
    }
  }

  lemma StepKeepsLastWriterOk(cfg: Config, s: Sys, l: Label, t: Sys, sid: int, older: set<int>)
    requires ConfigOk(cfg) && Inv(cfg, s) && Step(cfg, s, l, t) && LastWriterOk(s, sid, older)
    requires l.Begin? ==> l.id != s.attempts[sid].id
    ensures LastWriterOk(t, sid, older) && t.attempts[sid] == s.attempts[sid]
  {
    StepKeepsAlone(cfg, s, l, t, sid);
    StepKeepsLastWriter(cfg, s, l, t, sid);
    StepKeepsNewReads(cfg, s, l, t, sid, older);
    if !l.Crash? {
      StepKeepsIndexed(cfg, s, l, t, sid);
    }
  }

  lemma RunKeepsLastWriter(cfg: Config, run: seq<Sys>, labels: seq<Label>, sid: int, at: Attempt, i: nat, j: nat)
    requires ConfigOk(cfg) && IsRun(cfg, run, labels) && Inv(cfg, run[0]) && i <= j < |run|
    requires LastWriter(run[i], sid) && run[i].attempts[sid] == at && NoNewStore(labels, i, at.id)
    ensures LastWriter(run[j], sid) && run[j].attempts[sid] == at
  {
    var p := (s: Sys) => LastWriter(s, sid) && s.attempts[sid] == at;
    forall k | i <= k < j && p(run[k]) ensures p(run[k + 1]) {
      RunKeepsInv(cfg, run, labels, k);
      assert labels[k].Begin? ==> labels[k].id != at.id;
      StepKeepsLastWriter(cfg, run[k], labels[k], run[k + 1], sid);
    }
    AlongRun(run, p, i, j);
  }

  lemma RunKeepsLastWriterOk(cfg: Config, run: seq<Sys>, labels: seq<Label>, sid: int, at: Attempt, older: set<int>,
                             i: nat, j: nat)
    requires ConfigOk(cfg) && IsRun(cfg, run, labels) && Inv(cfg, run[0]) && i <= j < |run|
    requires LastWriterOk(run[i], sid, older) && run[i].attempts[sid] == at && NoNewStore(labels, i, at.id)
    ensures LastWriterOk(run[j], sid, older) && run[j].attempts[sid] == at
  {
    var p := (s: Sys) => LastWriterOk(s, sid, older) && s.attempts[sid] == at;
    forall k | i <= k < j && p(run[k]) ensures p(run[k + 1]) {
      RunKeepsInv(cfg, run, labels, k);
      assert labels[k].Begin? ==> labels[k].id != at.id;
      StepKeepsLastWriterOk(cfg, run[k], labels[k], run[k + 1], sid, older);
    }
    AlongRun(run, p, i, j);
  }

  /** No store for `id` is between snapshot and commit, and no request for it may still be written. */
  ghost predicate Quiet(s: Sys, id: int) {
    && (forall sid :: sid in s.stores ==> sid in s.attempts && s.attempts[sid].id != id)
    && (forall p :: p in s.wire ==> p.0 in s.attempts && s.attempts[p.0].id != id)
  }

  ghost predicate Holds(s: Sys, a: Addr, id: int, text: string) {
    id in DiskOf(s.files, a) && DiskOf(s.files, a)[id] == text
  }

  /** All the replicas that `im` lists for `id` hold `text`. */
  ghost predicate AllHold(s: Sys, im: Image, id: int, text: string) {
    && id in im.state.msgMap
    && forall a :: a in im.state.msgMap[id] ==> Holds(s, a, id, text)
  }

  lemma BeginBecomesLastWriter(cfg: Config, s: Sys, l: Label, t: Sys)
    requires ConfigOk(cfg) && Inv(cfg, s) && l.Begin? && Step(cfg, s, l, t) && Quiet(s, l.id)
    ensures LastWriter(t, l.sid) && t.attempts[l.sid] == Attempt(l.id, l.text)
  {
    forall a ensures l.sid !in AppliedOn(t.applied, a) {
      assert DiskOk(DiskOf(s.files, a), s.attempts, AppliedOn(s.applied, a));
    }
  }

  /**
   A store for `id` begins when no other store for it is in progress or has a request under way, none
   begins later, and it returns Ok (step `e`). From then on, across restarts, every replica listed in
   memory and on file holds its text, and every read of `id` begun since returns that text or nothing.
   */
  lemma LastOkStoreIsRead(cfg: Config, run: seq<Sys>, labels: seq<Label>, b: nat, e: nat, j: nat)
    requires IsExecution(cfg, run, labels) && b < e < j < |run|
    requires labels[b].Begin? && Quiet(run[b], labels[b].id) && NoNewStore(labels, b + 1, labels[b].id)
    requires labels[e] == SaveStore(labels[b].sid)
    ensures AllHold(run[j], run[j].mem, labels[b].id, labels[b].text)
    ensures run[j].saved.Some? && AllHold(run[j], run[j].saved.value, labels[b].id, labels[b].text)
    ensures forall i, rid :: e < i && j < |labels| && ReadLasts(run, labels, rid, labels[b].id, i, j)
                             && labels[j] == ReadHit(rid) ==>
                               && AtTarget(run[j], rid, true)
                               && labels[b].id in DiskOf(run[j].files, Current(run[j], rid))
                               && run[j].readers[rid].id == labels[b].id
                               && HitText(run[j], rid) == labels[b].text
  {
    var sid := labels[b].sid;
    ExecutionInv(cfg, run, labels, 0);
    ExecutionInv(cfg, run, labels, b);
    ExecutionInv(cfg, run, labels, e);
    assert Step(cfg, run[b], labels[b], run[b + 1]);
    BeginBecomesLastWriter(cfg, run[b], labels[b], run[b + 1]);
    RunKeepsLastWriter(cfg, run, labels, sid, run[b + 1].attempts[sid], b + 1, e);
    assert Step(cfg, run[e], labels[e], run[e + 1]);
    assert LastWriterOk(run[e + 1], sid, run[e + 1].readers.Keys);
    RunKeepsLastWriterOk(cfg, run, labels, sid, run[e + 1].attempts[sid], run[e + 1].readers.Keys, e + 1, j);
    forall i, rid | e < i && j < |labels| && ReadLasts(run, labels, rid, labels[b].id, i, j)
                    && labels[j] == ReadHit(rid)
      ensures AtTarget(run[j], rid, true) && run[j].readers[rid].id == labels[b].id
      ensures labels[b].id in DiskOf(run[j].files, Current(run[j], rid)) && HitText(run[j], rid) == labels[b].text
    {
      RunKeepsLastWriterOk(cfg, run, labels, sid, run[e + 1].attempts[sid], run[e + 1].readers.Keys, e + 1, i);
      LaterReadHits(cfg, run, labels, sid, run[i].attempts[sid], i, j, rid);
    }
  }

  /** A read begun when `sid` is the last writer returns its text, or nothing. */
  lemma LaterReadHits(cfg: Config, run: seq<Sys>, labels: seq<Label>, sid: int, at: Attempt, i: nat, j: nat, rid: int)
    requires ConfigOk(cfg) && IsRun(cfg, run, labels) && Inv(cfg, run[0])
    requires ReadLasts(run, labels, rid, at.id, i, j) && labels[j] == ReadHit(rid) && NoNewStore(labels, i, at.id)
    requires LastWriterOk(run[i], sid, run[i].readers.Keys) && run[i].attempts[sid] == at
    ensures AtTarget(run[j], rid, true) && run[j].readers[rid].id == at.id
    ensures at.id in DiskOf(run[j].files, Current(run[j], rid)) && HitText(run[j], rid) == at.text
  {
    assert Step(cfg, run[i], labels[i], run[i + 1]);
    assert Step(cfg, run[j], labels[j], run[j + 1]);
    ReadKeepsTargets(cfg, run, labels, rid, i + 1, j);
    RunKeepsLastWriterOk(cfg, run, labels, sid, at, run[i].readers.Keys, i, j);
  }

  // ---------------------------------------------------------------- When all replicas hold one text

  /** Step `k` writes a text for `id` on `a`. */
  predicate Writes(run: seq<Sys>, labels: seq<Label>, a: Addr, id: int, k: nat)
    requires |run| == |labels| + 1
  {
    && k < |labels| && labels[k].Apply? && labels[k].a == a
    && labels[k].sid in run[k].attempts && run[k].attempts[labels[k].sid].id == id
  }

  /** The last write for `id` on `a` before step `j` was of `text`. */
  ghost predicate LastWritten(run: seq<Sys>, labels: seq<Label>, a: Addr, id: int, text: string, j: nat)
    requires |run| == |labels| + 1
  {
    exists k :: 0 <= k < j && Writes(run, labels, a, id, k) && run[k].attempts[labels[k].sid].text == text
                && forall m :: k < m < j ==> !Writes(run, labels, a, id, m)
  }

  lemma StepKeepsHolding(cfg: Config, run: seq<Sys>, labels: seq<Label>, a: Addr, id: int, text: string, k: nat)
    requires IsRun(cfg, run, labels) && k < |labels|
    ensures Holds(run[k + 1], a, id, text) <==>
            if Writes(run, labels, a, id, k) then run[k].attempts[labels[k].sid].text == text
            else Holds(run[k], a, id, text)
  {
    assert Step(cfg, run[k], labels[k], run[k + 1]);
  }

  /** In every run from empty disks a member's file for an id holds exactly the text last written for it. */
  lemma {:induction false} FileIsLastWritten(cfg: Config, run: seq<Sys>, labels: seq<Label>, a: Addr, id: int,
                                             text: string, j: nat)
    requires IsExecution(cfg, run, labels) && j < |run|
    ensures Holds(run[j], a, id, text) <==> LastWritten(run, labels, a, id, text, j)
  {
    if j > 0 {
      FileIsLastWritten(cfg, run, labels, a, id, text, j - 1);
      StepKeepsHolding(cfg, run, labels, a, id, text, j - 1);
      LastWrittenStep(run, labels, a, id, text, j - 1);
    }
  }

  lemma LastWrittenStep(run: seq<Sys>, labels: seq<Label>, a: Addr, id: int, text: string, j: nat)
    requires |run| == |labels| + 1 && j < |labels|
    ensures LastWritten(run, labels, a, id, text, j + 1) <==>
            if Writes(run, labels, a, id, j) then run[j].attempts[labels[j].sid].text == text
            else LastWritten(run, labels, a, id, text, j)
  {
    if LastWritten(run, labels, a, id, text, j) && !Writes(run, labels, a, id, j) {
      var k :| 0 <= k < j && Writes(run, labels, a, id, k) && run[k].attempts[labels[k].sid].text == text
               && forall m :: k < m < j ==> !Writes(run, labels, a, id, m);
      assert forall m :: k < m < j + 1 ==> !Writes(run, labels, a, id, m);
    }
  }

  /** All listed replicas of an id hold one text if and only if it was the last one written for it on each. */
  lemma ReplicasAgree(cfg: Config, run: seq<Sys>, labels: seq<Label>, id: int, text: string, j: nat)
    requires IsExecution(cfg, run, labels) && j < |run|
    requires id in run[j].mem.state.msgMap
    ensures AllHold(run[j], run[j].mem, id, text) <==>
            forall a :: a in run[j].mem.state.msgMap[id] ==> LastWritten(run, labels, a, id, text, j)
  {
    forall a ensures Holds(run[j], a, id, text) <==> LastWritten(run, labels, a, id, text, j) {
      FileIsLastWritten(cfg, run, labels, a, id, text, j);
    }
  }

  /** A read of an indexed id returns the text last written for it on one of the replicas listed when it began. */
  lemma ReadReturnsALastText(cfg: Config, run: seq<Sys>, labels: seq<Label>, i: nat, j: nat, rid: int, id: int)
    requires IsExecution(cfg, run, labels) && ReadLasts(run, labels, rid, id, i, j) && labels[j] == ReadHit(rid)
    requires id in run[i].mem.state.msgMap
    ensures AtTarget(run[j], rid, true) && run[j].readers[rid].id == id
    ensures id in DiskOf(run[j].files, Current(run[j], rid))
    ensures exists a :: a in run[i].mem.state.msgMap[id] && LastWritten(run, labels, a, id, HitText(run[j], rid), j)
  {
    assert Step(cfg, run[i], labels[i], run[i + 1]);
    assert Step(cfg, run[j], labels[j], run[j + 1]);
    ExecutionInv(cfg, run, labels, i);
    ReadKeepsTargets(cfg, run, labels, rid, i + 1, j);
    var a := Current(run[j], rid);
    assert run[j].readers[rid].targets == run[i].mem.state.msgMap[id];
    FileIsLastWritten(cfg, run, labels, a, id, HitText(run[j], rid), j);
  }
}
