/** What every reachable state of the cluster satisfies, and the proof that every step keeps it. */
module Invariants {
  import opened Decimal
  import opened Seqs
  import opened Balancer
  import opened Leader
  import opened Cluster

  // ---------------------------------------------------------------- The invariant

  /** Some counted attempt stored `id` on `a`. */
  ghost predicate Backed(attempts: map<int, Attempt>, counted: map<Addr, set<int>>, id: int, a: Addr) {
    a in counted && exists sid :: sid in counted[a] && sid in attempts && attempts[sid].id == id
  }

  /** The counts are exactly the counted attempts, which were all written and back every index entry. */
  ghost predicate ImageOk(tolerance: nat, attempts: map<int, Attempt>, applied: map<Addr, set<int>>, im: Image) {
    && MembersOk(im.state)
    && IndexOk(im.state, tolerance)
    && im.counted.Keys == im.state.memberLog.Keys
    && (forall a :: a in im.counted ==> im.state.memberLog[a].messageCnt == |im.counted[a]|)
    && (forall a :: a in im.counted ==> im.counted[a] <= AppliedOn(applied, a))
    && (forall id, a :: id in im.state.msgMap && a in im.state.msgMap[id] ==> Backed(attempts, im.counted, id, a))
  }

  ghost predicate StoreOk(tolerance: nat, attempts: map<int, Attempt>, applied: map<Addr, set<int>>,
                          counted: map<Addr, set<int>>, sid: int, op: StoreOp)
  {
    && sid in attempts
    && NoDup(op.targets) && |op.targets| == tolerance && Elems(op.targets) <= counted.Keys
    && NoDup(op.acked) && Elems(op.acked) <= Elems(op.targets)
    && op.failed <= Elems(op.targets) && op.failed !! Elems(op.acked)
    && (forall a :: a in op.acked ==> sid in AppliedOn(applied, a))
    && (forall a :: a in counted ==> sid !in counted[a])
  }

  ghost predicate Carried(attempts: map<int, Attempt>, sids: set<int>, id: int, text: string) {
    exists sid :: sid in sids && sid in attempts && attempts[sid] == Attempt(id, text)
  }

  /** Every file holds what some applied attempt carried, and every applied attempt left its file. */
  ghost predicate DiskOk(disk: map<int, string>, attempts: map<int, Attempt>, sids: set<int>) {
    && (forall id :: id in disk ==> Carried(attempts, sids, id, disk[id]))
    && (forall sid :: sid in sids ==> sid in attempts && attempts[sid].id in disk)
  }

  ghost predicate DisksOk(s: Sys) {
    forall a :: DiskOk(DiskOf(s.files, a), s.attempts, AppliedOn(s.applied, a))
  }

  ghost predicate WireOk(s: Sys) {
    forall p :: p in s.wire ==> p.0 in s.attempts && p.0 !in AppliedOn(s.applied, p.1)
  }

  ghost predicate ImagesOk(cfg: Config, s: Sys) {
    && ImageOk(cfg.tolerance, s.attempts, s.applied, s.mem)
    && (s.saved.Some? ==> ImageOk(cfg.tolerance, s.attempts, s.applied, s.saved.value))
  }

  ghost predicate StoresOk(cfg: Config, s: Sys) {
    forall sid :: sid in s.stores ==>
                    StoreOk(cfg.tolerance, s.attempts, s.applied, s.mem.counted, sid, s.stores[sid])
  }

  /** An indexed read works through different replicas that all hold the id. */
  ghost predicate ReaderOk(tolerance: nat, files: map<Addr, map<int, string>>, op: ReadOp) {
    && op.next <= |op.targets|
    && (op.calling ==> op.next < |op.targets|)
    && (op.indexed ==>
          && NoDup(op.targets) && |op.targets| == tolerance
          && (forall a :: a in op.targets ==> op.id in DiskOf(files, a))
          && op.silent == Elems(op.targets[..op.next]))
  }

  ghost predicate ReadersOk(cfg: Config, s: Sys) {
    forall rid :: rid in s.readers ==> ReaderOk(cfg.tolerance, s.files, s.readers[rid])
  }

  /** A restart would lose nothing that has been saved: members and ids in memory include the saved ones. */
  ghost predicate SavedIncluded(cfg: Config, s: Sys) {
    && Elems(Restored(cfg, s, 0).state.members) <= Elems(s.mem.state.members)
    && Restored(cfg, s, 0).state.msgMap.Keys <= s.mem.state.msgMap.Keys
  }

  ghost predicate PendingOk(s: Sys) {
    && (forall sid :: sid in s.saving ==> sid in s.attempts && s.attempts[sid].id in s.mem.state.msgMap)
    && (forall rid :: rid in s.joining ==> s.joining[rid] in s.mem.state.members)
  }

  ghost predicate Inv(cfg: Config, s: Sys) {
    && ImagesOk(cfg, s)
    && StoresOk(cfg, s)
    && DisksOk(s)
    && WireOk(s)
    && ReadersOk(cfg, s)
    && SavedIncluded(cfg, s)
    && PendingOk(s)
  }

  // ---------------------------------------------------------------- Targets

  /** Both balancers choose at most `tolerance` of the candidates, no address twice. */
  lemma PickSound(cfg: Config, candidates: seq<MemberLoad>, picked: seq<MemberLoad>)
    requires cfg.tolerance >= 1 && MayPick(cfg, candidates, picked) && DistinctAddrs(candidates)
    ensures |picked| <= cfg.tolerance
    ensures DistinctAddrs(picked)
    ensures forall p :: p in picked ==> p in candidates
  {
    if cfg.strategy.UseLeastLoaded? {
      LeastLoadedSplit(candidates, cfg.tolerance);
      SubBagDistinct(picked, candidates);
    } else if |candidates| > cfg.tolerance {
      var draws :|
        |draws| == cfg.tolerance && ValidDraws(draws, |candidates|) && picked == Duels(candidates, draws).out;
      DuelsConserve(candidates, draws);
      SubBagDistinct(picked, candidates);
    }
  }

  /** A fan-out has exactly `tolerance` different targets, each alive at the snapshot. */
  lemma TargetsSound(cfg: Config, s: Sys, sid: int, picked: seq<MemberLoad>)
    requires ConfigOk(cfg) && MembersOk(s.mem.state) && CanBegin(cfg, s, sid, picked)
    ensures |Addrs(picked)| == cfg.tolerance && NoDup(Addrs(picked))
    ensures forall a :: a in Addrs(picked) ==> IsAlive(s.mem.state.memberLog, a)
  {
    var st := s.mem.state;
    CandidatesAre(st.members, st.memberLog);
    PickSound(cfg, Candidates(st.members, st.memberLog), picked);
  }

  // ---------------------------------------------------------------- Images

  lemma FreshImageOk(cfg: Config, now: int, attempts: map<int, Attempt>, applied: map<Addr, set<int>>)
    requires ConfigOk(cfg)
    ensures ImageOk(cfg.tolerance, attempts, applied, FreshImage(cfg.initial, now))
  {
  }

  /** An image stays good as more is attempted and written. */
  lemma ImageGrows(tolerance: nat, at: map<int, Attempt>, ap: map<Addr, set<int>>,
                   at': map<int, Attempt>, ap': map<Addr, set<int>>, im: Image)
    requires ImageOk(tolerance, at, ap, im)
    requires forall sid :: sid in at ==> sid in at' && at'[sid] == at[sid]
    requires forall a :: AppliedOn(ap, a) <= AppliedOn(ap', a)
    ensures ImageOk(tolerance, at', ap', im)
  {
    forall id, a | id in im.state.msgMap && a in im.state.msgMap[id]
      ensures Backed(at', im.counted, id, a)
    {
      assert Backed(at, im.counted, id, a);
    }
  }

  /** Sections that only touch liveness keep the image. */
  lemma LivenessKeepsImage(tolerance: nat, at: map<int, Attempt>, ap: map<Addr, set<int>>, im: Image, log: MemberLog)
    requires ImageOk(tolerance, at, ap, im)
    requires log.Keys == im.state.memberLog.Keys
    requires forall a :: a in log ==> log[a].messageCnt == im.state.memberLog[a].messageCnt
    ensures ImageOk(tolerance, at, ap, WithState(im, im.state.(memberLog := log)))
  {
  }

  lemma JoinKeepsImage(tolerance: nat, at: map<int, Attempt>, ap: map<Addr, set<int>>, im: Image, a: Addr, now: int)
    requires ImageOk(tolerance, at, ap, im) && a !in im.state.memberLog
    ensures ImageOk(tolerance, at, ap, Image(OnRegister(im.state, a, now), im.counted[a := {}]))
  {
    var t := Image(OnRegister(im.state, a, now), im.counted[a := {}]);
    assert a !in Elems(im.state.members);
    assert Elems(t.state.members) == Elems(im.state.members) + {a};
    forall id, b | id in t.state.msgMap && b in t.state.msgMap[id]
      ensures Backed(at, t.counted, id, b)
    {
      assert Backed(at, im.counted, id, b);
      assert b in Elems(im.state.msgMap[id]);
    }
  }

  /** Counting an attempt that was not counted before raises the count by one for each ack. */
  lemma CommitKeepsCounts(log: MemberLog, counted: map<Addr, set<int>>, sid: int, acked: seq<Addr>)
    requires NoDup(acked)
    requires counted.Keys == log.Keys
    requires forall a :: a in counted ==> log[a].messageCnt == |counted[a]| && sid !in counted[a]
    ensures var log', counted' := CountAcks(log, acked), CountedAfter(counted, sid, acked);
            && log'.Keys == counted'.Keys == log.Keys
            && forall a :: a in counted' ==> log'[a].messageCnt == |counted'[a]|
  {
    CountAcksEffect(log, acked);
  }

  lemma CommitKeepsImage(tolerance: nat, at: map<int, Attempt>, ap: map<Addr, set<int>>, im: Image, sid: int,
                         op: StoreOp)
    requires tolerance >= 1
    requires ImageOk(tolerance, at, ap, im) && StoreOk(tolerance, at, ap, im.counted, sid, op)
    ensures ImageOk(tolerance, at, ap, Image(OnCommit(im.state, at[sid].id, op.acked, tolerance),
                                             CountedAfter(im.counted, sid, op.acked)))
  {
    CommitKeepsCounts(im.state.memberLog, im.counted, sid, op.acked);
    CommitKeepsIndex(tolerance, im.state, at[sid].id, op);
    CommitKeepsBacking(tolerance, at, ap, im, sid, op);
  }

  /** A new index entry is backed by the store itself, the others as before. */
  lemma CommitKeepsBacking(tolerance: nat, at: map<int, Attempt>, ap: map<Addr, set<int>>, im: Image, sid: int,
                           op: StoreOp)
    requires tolerance >= 1
    requires ImageOk(tolerance, at, ap, im) && StoreOk(tolerance, at, ap, im.counted, sid, op)
    ensures var index := OnCommit(im.state, at[sid].id, op.acked, tolerance).msgMap;
            forall i, a :: i in index && a in index[i] ==> Backed(at, CountedAfter(im.counted, sid, op.acked), i, a)
  {
    var id, counted := at[sid].id, CountedAfter(im.counted, sid, op.acked);
    var index := OnCommit(im.state, id, op.acked, tolerance).msgMap;
    forall i, a | i in index && a in index[i] ensures Backed(at, counted, i, a) {
      if i == id && |op.acked| >= tolerance {
        assert a in Elems(op.acked);
        assert sid in counted[a];
      } else {
        assert Backed(at, im.counted, i, a);
      }
    }
  }

  /** Only a full set of acks, from all the targets, is recorded as replicas. */
  lemma CommitKeepsIndex(tolerance: nat, st: LeaderState, id: int, op: StoreOp)
    requires IndexOk(st, tolerance) && |op.targets| == tolerance
    requires NoDup(op.targets) && NoDup(op.acked) && Elems(op.acked) <= Elems(op.targets) <= st.memberLog.Keys
    ensures IndexOk(OnCommit(st, id, op.acked, tolerance), tolerance)
    ensures |op.acked| <= tolerance
    ensures |op.acked| == tolerance ==> Elems(op.acked) == Elems(op.targets)
  {
    CountAcksEffect(st.memberLog, op.acked);
    NoDupSize(op.acked);
    NoDupSize(op.targets);
    SubsetSize(Elems(op.acked), Elems(op.targets));
  }

  // ---------------------------------------------------------------- Steps

  lemma BeginKeeps(cfg: Config, s: Sys, sid: int, id: int, text: string, picked: seq<MemberLoad>)
    requires ConfigOk(cfg) && Inv(cfg, s) && CanBegin(cfg, s, sid, picked)
    ensures Inv(cfg, DoBegin(s, sid, id, text, picked))
  {
    var t := DoBegin(s, sid, id, text, picked);
    TargetsSound(cfg, s, sid, picked);
    ImageGrows(cfg.tolerance, s.attempts, s.applied, t.attempts, t.applied, s.mem);
    if s.saved.Some? {
      ImageGrows(cfg.tolerance, s.attempts, s.applied, t.attempts, t.applied, s.saved.value);
    }
    assert DiskOk(map[], s.attempts, {});
    forall a ensures DiskOk(DiskOf(t.files, a), t.attempts, AppliedOn(t.applied, a)) {
      DiskGrows(DiskOf(s.files, a), s.attempts, AppliedOn(s.applied, a), t.attempts);
    }
    forall a ensures sid !in AppliedOn(t.applied, a) {
      assert DiskOk(DiskOf(s.files, a), s.attempts, AppliedOn(s.applied, a));
    }
  }

  lemma DiskGrows(disk: map<int, string>, at: map<int, Attempt>, sids: set<int>, at': map<int, Attempt>)
    requires DiskOk(disk, at, sids)
    requires forall sid :: sid in at ==> sid in at' && at'[sid] == at[sid]
    ensures DiskOk(disk, at', sids)
  {
    forall id | id in disk ensures Carried(at', sids, id, disk[id]) {
      assert Carried(at, sids, id, disk[id]);
    }
  }

  lemma WriteKeepsDisk(disk: map<int, string>, at: map<int, Attempt>, sids: set<int>, sid: int)
    requires DiskOk(disk, at, sids) && sid in at
    ensures DiskOk(disk[at[sid].id := at[sid].text], at, sids + {sid})
  {
    var disk' := disk[at[sid].id := at[sid].text];
    forall id | id in disk' ensures Carried(at, sids + {sid}, id, disk'[id]) {
      if id == at[sid].id {
        assert sid in sids + {sid};
      } else {
        assert Carried(at, sids, id, disk[id]);
      }
    }
  }

  lemma ApplyKeepsDisks(s: Sys, sid: int, a: Addr)
    requires DisksOk(s) && sid in s.attempts
    ensures DisksOk(DoApply(s, sid, a))
    ensures forall b :: DiskOf(s.files, b).Keys <= DiskOf(DoApply(s, sid, a).files, b).Keys
  {
    var t := DoApply(s, sid, a);
    forall b ensures DiskOk(DiskOf(t.files, b), t.attempts, AppliedOn(t.applied, b)) {
      assert DiskOk(DiskOf(s.files, b), s.attempts, AppliedOn(s.applied, b));
      if b == a {
        WriteKeepsDisk(DiskOf(s.files, a), s.attempts, AppliedOn(s.applied, a), sid);
      }
    }
  }

  lemma ApplyKeeps(cfg: Config, s: Sys, sid: int, a: Addr)
    requires Inv(cfg, s) && (sid, a) in s.wire && sid in s.attempts
    ensures Inv(cfg, DoApply(s, sid, a))
  {
    var t := DoApply(s, sid, a);
    ApplyKeepsDisks(s, sid, a);
    ImageGrows(cfg.tolerance, s.attempts, s.applied, t.attempts, t.applied, s.mem);
    if s.saved.Some? {
      ImageGrows(cfg.tolerance, s.attempts, s.applied, t.attempts, t.applied, s.saved.value);
    }
  }

  lemma AckKeepsStore(tolerance: nat, at: map<int, Attempt>, ap: map<Addr, set<int>>, counted: map<Addr, set<int>>,
                      sid: int, op: StoreOp, a: Addr)
    requires StoreOk(tolerance, at, ap, counted, sid, op)
    requires a in op.targets && a !in op.acked && a !in op.failed && sid in AppliedOn(ap, a)
    ensures StoreOk(tolerance, at, ap, counted, sid, op.(acked := op.acked + [a]))
  {
    assert Elems(op.acked + [a]) == Elems(op.acked) + {a};
  }

  lemma AckKeeps(cfg: Config, s: Sys, sid: int, a: Addr)
    requires Inv(cfg, s) && Waiting(s, sid, a) && sid in AppliedOn(s.applied, a)
    ensures Inv(cfg, DoAck(s, sid, a))
  {
    AckKeepsStore(cfg.tolerance, s.attempts, s.applied, s.mem.counted, sid, s.stores[sid], a);
  }

  lemma FailKeeps(cfg: Config, s: Sys, sid: int, a: Addr)
    requires Inv(cfg, s) && Waiting(s, sid, a)
    ensures Inv(cfg, DoFail(s, sid, a))
  {
    assert StoreOk(cfg.tolerance, s.attempts, s.applied, s.mem.counted, sid, s.stores[sid]);
  }

  lemma FinishKeeps(cfg: Config, s: Sys, sid: int)
    requires ConfigOk(cfg) && Inv(cfg, s) && Enabled(cfg, s, Finish(sid))
    ensures Inv(cfg, DoFinish(cfg, s, sid))
  {
    var t := DoFinish(cfg, s, sid);
    var op := s.stores[sid];
    CommitKeepsImage(cfg.tolerance, s.attempts, s.applied, s.mem, sid, op);
    CountAcksEffect(s.mem.state.memberLog, op.acked);
    forall other | other in t.stores
      ensures StoreOk(cfg.tolerance, t.attempts, t.applied, t.mem.counted, other, t.stores[other])
    {
      assert StoreOk(cfg.tolerance, s.attempts, s.applied, s.mem.counted, other, s.stores[other]);
    }
  }

  lemma SaveKeeps(cfg: Config, s: Sys, t: Sys)
    requires Inv(cfg, s)
    requires t == s.(saved := Some(s.mem), saving := t.saving, joining := t.joining, ticking := t.ticking)
    requires t.saving <= s.saving
    requires forall rid :: rid in t.joining ==> rid in s.joining && t.joining[rid] == s.joining[rid]
    ensures Inv(cfg, t)
  {
  }

  lemma JoinKeepsStores(cfg: Config, s: Sys, a: Addr)
    requires StoresOk(cfg, s) && a !in s.mem.counted
    ensures forall sid :: sid in s.stores ==>
                            StoreOk(cfg.tolerance, s.attempts, s.applied, s.mem.counted[a := {}], sid, s.stores[sid])
  {
    forall sid | sid in s.stores
      ensures StoreOk(cfg.tolerance, s.attempts, s.applied, s.mem.counted[a := {}], sid, s.stores[sid])
    {
      assert StoreOk(cfg.tolerance, s.attempts, s.applied, s.mem.counted, sid, s.stores[sid]);
    }
  }

  lemma JoinKeeps(cfg: Config, s: Sys, rid: int, a: Addr, now: int)
    requires Inv(cfg, s) && a !in s.mem.state.memberLog
    ensures Inv(cfg, DoJoinNew(s, rid, a, now))
  {
    var t := DoJoinNew(s, rid, a, now);
    JoinKeepsImage(cfg.tolerance, s.attempts, s.applied, s.mem, a, now);
    JoinKeepsStores(cfg, s, a);
    assert t.mem.state.members == s.mem.state.members + [a];
  }

  lemma LivenessKeeps(cfg: Config, s: Sys, log: MemberLog, ticking: nat)
    requires Inv(cfg, s)
    requires log.Keys == s.mem.state.memberLog.Keys
    requires forall a :: a in log ==> log[a].messageCnt == s.mem.state.memberLog[a].messageCnt
    ensures Inv(cfg, s.(mem := WithState(s.mem, s.mem.state.(memberLog := log)), ticking := ticking))
  {
    LivenessKeepsImage(cfg.tolerance, s.attempts, s.applied, s.mem, log);
  }

  lemma JoinKnownKeeps(cfg: Config, s: Sys, a: Addr, now: int)
    requires Inv(cfg, s) && a in s.mem.state.memberLog
    ensures Inv(cfg, s.(mem := WithState(s.mem, OnRegister(s.mem.state, a, now))))
  {
    LivenessKeeps(cfg, s, OnRegister(s.mem.state, a, now).memberLog, s.ticking);
  }

  lemma BeatKeeps(cfg: Config, s: Sys, a: Addr, now: int)
    requires Inv(cfg, s)
    ensures Inv(cfg, s.(mem := WithState(s.mem, OnHeartbeat(s.mem.state, a, now))))
  {
    var log := OnHeartbeat(s.mem.state, a, now).memberLog;
    assert OnHeartbeat(s.mem.state, a, now) == s.mem.state.(memberLog := log);
    LivenessKeeps(cfg, s, log, s.ticking);
  }

  lemma TickKeepsCounts(st: LeaderState, now: int)
    ensures OnTick(st, now).memberLog.Keys == st.memberLog.Keys
    ensures forall a :: a in st.memberLog ==>
                          OnTick(st, now).memberLog[a].messageCnt == st.memberLog[a].messageCnt
  {
  }

  lemma TickKeeps(cfg: Config, s: Sys, now: int)
    requires Inv(cfg, s)
    ensures Inv(cfg, DoTick(s, now))
  {
    var log := OnTick(s.mem.state, now).memberLog;
    TickKeepsCounts(s.mem.state, now);
    LivenessKeeps(cfg, s, log, DoTick(s, now).ticking);
  }

  lemma ReadersKeep(cfg: Config, s: Sys, readers: map<int, ReadOp>)
    requires Inv(cfg, s)
    requires forall rid :: rid in readers ==> ReaderOk(cfg.tolerance, s.files, readers[rid])
    ensures Inv(cfg, s.(readers := readers))
  {
  }

  lemma ReadStartKeeps(cfg: Config, s: Sys, rid: int, id: int)
    requires Inv(cfg, s)
    ensures Inv(cfg, DoReadStart(s, rid, id))
  {
    var t := DoReadStart(s, rid, id);
    var op := t.readers[rid];
    if op.indexed {
      forall a | a in op.targets ensures id in DiskOf(s.files, a) {
        assert Backed(s.attempts, s.mem.counted, id, a);
        assert DiskOk(DiskOf(s.files, a), s.attempts, AppliedOn(s.applied, a));
      }
    }
    assert op.targets[..0] == [];
  }

  /** An indexed target always has the file, so it is passed over only when down or silent. */
  lemma AdvanceKeeps(cfg: Config, s: Sys, rid: int, silent: bool)
    requires Inv(cfg, s)
    requires rid in s.readers && s.readers[rid].next < |s.readers[rid].targets|
    requires !silent ==> s.readers[rid].id !in DiskOf(s.files, Current(s, rid))
    ensures Inv(cfg, DoAdvance(s, rid, silent))
  {
    var op := s.readers[rid];
    assert ReaderOk(cfg.tolerance, s.files, op);
    assert op.targets[..op.next + 1] == op.targets[..op.next] + [op.targets[op.next]];
    ReadersKeep(cfg, s, DoAdvance(s, rid, silent).readers);
  }

  lemma ReadCallKeeps(cfg: Config, s: Sys, rid: int)
    requires Inv(cfg, s) && AtTarget(s, rid, false)
    ensures Inv(cfg, s.(readers := s.readers[rid := s.readers[rid].(calling := true)]))
  {
    assert ReaderOk(cfg.tolerance, s.files, s.readers[rid]);
    ReadersKeep(cfg, s, s.readers[rid := s.readers[rid].(calling := true)]);
  }

  lemma CrashKeeps(cfg: Config, s: Sys, now: int)
    requires ConfigOk(cfg) && Inv(cfg, s)
    ensures Inv(cfg, DoCrash(cfg, s, now))
  {
    FreshImageOk(cfg, now, s.attempts, s.applied);
  }

  lemma StoreStepKeeps(cfg: Config, s: Sys, l: Label)
    requires ConfigOk(cfg) && Inv(cfg, s) && Enabled(cfg, s, l)
    requires l.Begin? || l.Apply? || l.Drop? || l.Ack? || l.Fail? || l.Finish? || l.SaveStore?
    ensures Inv(cfg, Next(cfg, s, l))
  {
    match l
    case Begin(sid, id, text, picked) => BeginKeeps(cfg, s, sid, id, text, picked);
    case Apply(sid, a) => ApplyKeeps(cfg, s, sid, a);
    case Drop(sid, a) =>
    case Ack(sid, a) => AckKeeps(cfg, s, sid, a);
    case Fail(sid, a) => FailKeeps(cfg, s, sid, a);
    case Finish(sid) => FinishKeeps(cfg, s, sid);
    case SaveStore(sid) => SaveKeeps(cfg, s, Next(cfg, s, l));
  }

  lemma MemberStepKeeps(cfg: Config, s: Sys, l: Label)
    requires ConfigOk(cfg) && Inv(cfg, s) && Enabled(cfg, s, l)
    requires l.JoinNew? || l.JoinKnown? || l.SaveJoin? || l.Beat? || l.Tick? || l.SaveTick? || l.Crash?
    ensures Inv(cfg, Next(cfg, s, l))
  {
    match l
    case JoinNew(rid, a, now) => JoinKeeps(cfg, s, rid, a, now);
    case JoinKnown(a, now) => JoinKnownKeeps(cfg, s, a, now);
    case SaveJoin(rid) => SaveKeeps(cfg, s, Next(cfg, s, l));
    case Beat(a, now) => BeatKeeps(cfg, s, a, now);
    case Tick(now) => TickKeeps(cfg, s, now);
    case SaveTick => SaveKeeps(cfg, s, Next(cfg, s, l));
    case Crash(now) => CrashKeeps(cfg, s, now);
  }

  lemma ReadStepKeeps(cfg: Config, s: Sys, l: Label)
    requires ConfigOk(cfg) && Inv(cfg, s) && Enabled(cfg, s, l)
    requires l.ReadStart? || l.ReadSkip? || l.ReadCall? || l.ReadFail? || l.ReadMiss? || l.ReadHit? || l.ReadEnd?
    ensures Inv(cfg, Next(cfg, s, l))
  {
    match l
    case ReadStart(rid, id) => ReadStartKeeps(cfg, s, rid, id);
    case ReadSkip(rid) => AdvanceKeeps(cfg, s, rid, true);
    case ReadCall(rid) => ReadCallKeeps(cfg, s, rid);
    case ReadFail(rid) => AdvanceKeeps(cfg, s, rid, true);
    case ReadMiss(rid) => AdvanceKeeps(cfg, s, rid, false);
    case ReadHit(rid) => ReadersKeep(cfg, s, s.readers - {rid});
    case ReadEnd(rid) => ReadersKeep(cfg, s, s.readers - {rid});
  }

  lemma StepKeepsInv(cfg: Config, s: Sys, l: Label, t: Sys)
    requires ConfigOk(cfg) && Inv(cfg, s) && Step(cfg, s, l, t)
    ensures Inv(cfg, t)
  {
    if l.Begin? || l.Apply? || l.Drop? || l.Ack? || l.Fail? || l.Finish? || l.SaveStore? {
      StoreStepKeeps(cfg, s, l);
    } else if l.JoinNew? || l.JoinKnown? || l.SaveJoin? || l.Beat? || l.Tick? || l.SaveTick? || l.Crash? {
      MemberStepKeeps(cfg, s, l);
    } else {
      ReadStepKeeps(cfg, s, l);
    }
  }

  lemma InitInv(cfg: Config, now: int)
    requires ConfigOk(cfg)
    ensures Inv(cfg, Init(cfg, now))
  {
  }

  /** The invariant holds all along every run that starts in it. */
  lemma {:induction false} RunKeepsInv(cfg: Config, run: seq<Sys>, labels: seq<Label>, i: nat)
    requires ConfigOk(cfg) && IsRun(cfg, run, labels) && Inv(cfg, run[0])
    requires i < |run|
    ensures Inv(cfg, run[i])
  {
    if i > 0 {
      RunKeepsInv(cfg, run, labels, i - 1);
      StepKeepsInv(cfg, run[i - 1], labels[i - 1], run[i]);
    }
  }

  lemma ExecutionInv(cfg: Config, run: seq<Sys>, labels: seq<Label>, i: nat)
    requires IsExecution(cfg, run, labels) && i < |run|
    ensures Inv(cfg, run[i])
  {
    var now :| run[0] == Init(cfg, now);
    InitInv(cfg, now);
    RunKeepsInv(cfg, run, labels, i);
  }
}
