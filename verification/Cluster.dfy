/**
 The replication protocol as a step system: one leader process, its state file, the members' disks and
 the requests in between. Every step is one critical section or one message event, so runs interleave
 stores, reads, registrations, heartbeats, watcher passes, late member writes and leader restarts.
 */
module Cluster {
  import opened Decimal
  import opened Seqs
  import opened Balancer
  import opened Leader

  datatype Config = Config(tolerance: nat, strategy: Strategy, initial: seq<Addr>)

  ghost predicate ConfigOk(cfg: Config) {
    cfg.tolerance >= 1 && NoDup(cfg.initial)
  }

  /** One store attempt: the id and the text that its requests carry. */
  datatype Attempt = Attempt(id: int, text: string)

  /** A fan-out in progress: its targets, the acks in arrival order, and the targets given up on. */
  datatype StoreOp = StoreOp(targets: seq<Addr>, acked: seq<Addr>, failed: set<Addr>)

  /**
   A read in progress. `next` is the target being tried, `calling` says that it was seen alive, and
   `silent` collects the targets that were down or did not answer.
   */
  datatype ReadOp = ReadOp(id: int, targets: seq<Addr>, indexed: bool, next: nat, calling: bool, silent: set<Addr>)

  /** A leader state with the attempts whose ack is included in each member's count. */
  datatype Image = Image(state: LeaderState, counted: map<Addr, set<int>>)

  datatype Sys = Sys(
    mem: Image,
    saved: Option<Image>,
    stores: map<int, StoreOp>,           // between snapshot and commit
    saving: set<int>,                    // committed in full, not yet saved
    joining: map<int, Addr>,             // registrations recorded in memory, not yet saved
    ticking: nat,                        // watcher passes that still have to save
    readers: map<int, ReadOp>,
    wire: set<(int, Addr)>,              // requests that a member may still apply
    files: map<Addr, map<int, string>>,  // the members' disks
    attempts: map<int, Attempt>,         // every attempt so far
    applied: map<Addr, set<int>>,        // the attempts each member has written
    finished: nat,                       // stores that have finished their fan-out
    acks: nat,                           // acks collected by finished stores
    fails: map<Addr, nat>)               // finished stores that targeted the member without its ack

  function DiskOf(files: map<Addr, map<int, string>>, a: Addr): map<int, string> {
    if a in files then files[a] else map[]
  }

  function AppliedOn(applied: map<Addr, set<int>>, a: Addr): set<int> {
    if a in applied then applied[a] else {}
  }

  function FailsOf(fails: map<Addr, nat>, a: Addr): nat {
    if a in fails then fails[a] else 0
  }

  function FreshImage(initial: seq<Addr>, now: int): Image {
    Image(FreshState(initial, now), map a | a in initial :: {})
  }

  function Init(cfg: Config, now: int): Sys {
    Sys(FreshImage(cfg.initial, now), None, map[], {}, map[], 0, map[], {}, map[], map[], map[], 0, 0, map[])
  }

  datatype Label =
    | Begin(sid: int, id: int, text: string, picked: seq<MemberLoad>)
    | Apply(sid: int, a: Addr)
    | Drop(sid: int, a: Addr)
    | Ack(sid: int, a: Addr)
    | Fail(sid: int, a: Addr)
    | Finish(sid: int)
    | SaveStore(sid: int)
    | JoinNew(rid: int, a: Addr, now: int)
    | JoinKnown(a: Addr, now: int)
    | SaveJoin(rid: int)
    | Beat(a: Addr, now: int)
    | Tick(now: int)
    | SaveTick
    | ReadStart(rid: int, id: int)
    | ReadSkip(rid: int)
    | ReadCall(rid: int)
    | ReadFail(rid: int)
    | ReadMiss(rid: int)
    | ReadHit(rid: int)
    | ReadEnd(rid: int)
    | Crash(now: int)

  // ---------------------------------------------------------------- Stores

  /** What the configured balancer may return for these candidates. */
  ghost predicate MayPick(cfg: Config, candidates: seq<MemberLoad>, picked: seq<MemberLoad>) {
    match cfg.strategy
    case UseLeastLoaded => picked == LeastLoaded(candidates, cfg.tolerance)
    case UseTwoChoices =>
      if |candidates| <= cfg.tolerance then picked == candidates
      else exists draws ::
             |draws| == cfg.tolerance && ValidDraws(draws, |candidates|) && picked == Duels(candidates, draws).out
  }

  /** The leader's own store picks as the step system allows. */
  lemma PickByMayPick(cfg: Config, candidates: seq<MemberLoad>, rolls: seq<Roll>)
    requires RollsFit(cfg.strategy, |candidates|, cfg.tolerance, rolls)
    ensures MayPick(cfg, candidates, PickBy(cfg.strategy, candidates, cfg.tolerance, rolls))
  {
    if cfg.strategy.UseTwoChoices? && |candidates| > cfg.tolerance {
      var draws := Settled(rolls, |candidates|);
      assert |draws| == cfg.tolerance && ValidDraws(draws, |candidates|);
    }
  }

  /** A fan-out starts only with enough targets; a rejected store changes nothing. */
  ghost predicate CanBegin(cfg: Config, s: Sys, sid: int, picked: seq<MemberLoad>) {
    && sid !in s.attempts
    && MayPick(cfg, Candidates(s.mem.state.members, s.mem.state.memberLog), picked)
    && |picked| >= cfg.tolerance
  }

  function DoBegin(s: Sys, sid: int, id: int, text: string, picked: seq<MemberLoad>): Sys {
    var targets := Addrs(picked);
    s.(stores := s.stores[sid := StoreOp(targets, [], {})],
       attempts := s.attempts[sid := Attempt(id, text)],
       wire := s.wire + set a | a in targets :: (sid, a))
  }

  /** The member writes the file, whether or not the leader still waits for it. */
  function DoApply(s: Sys, sid: int, a: Addr): Sys
    requires sid in s.attempts
  {
    var w := s.attempts[sid];
    s.(wire := s.wire - {(sid, a)},
       files := s.files[a := DiskOf(s.files, a)[w.id := w.text]],
       applied := s.applied[a := AppliedOn(s.applied, a) + {sid}])
  }

  predicate Waiting(s: Sys, sid: int, a: Addr) {
    sid in s.stores && a in s.stores[sid].targets && a !in s.stores[sid].acked && a !in s.stores[sid].failed
  }

  function DoAck(s: Sys, sid: int, a: Addr): Sys
    requires sid in s.stores
  {
    s.(stores := s.stores[sid := s.stores[sid].(acked := s.stores[sid].acked + [a])])
  }

  function DoFail(s: Sys, sid: int, a: Addr): Sys
    requires sid in s.stores
  {
    s.(stores := s.stores[sid := s.stores[sid].(failed := s.stores[sid].failed + {a})])
  }

  predicate AllSettled(op: StoreOp) {
    forall a :: a in op.targets ==> a in op.acked || a in op.failed
  }

  function CountedAfter(counted: map<Addr, set<int>>, sid: int, acked: seq<Addr>): map<Addr, set<int>> {
    map a | a in counted :: if a in acked then counted[a] + {sid} else counted[a]
  }

  function FailsAfter(fails: map<Addr, nat>, failed: set<Addr>): map<Addr, nat> {
    map a | a in fails.Keys + failed :: FailsOf(fails, a) + if a in failed then 1 else 0
  }

  function DoFinish(cfg: Config, s: Sys, sid: int): Sys
    requires sid in s.stores && sid in s.attempts
  {
    var op := s.stores[sid];
    s.(mem := Image(OnCommit(s.mem.state, s.attempts[sid].id, op.acked, cfg.tolerance),
                    CountedAfter(s.mem.counted, sid, op.acked)),
       stores := s.stores - {sid},
       saving := if |op.acked| >= cfg.tolerance then s.saving + {sid} else s.saving,
       finished := s.finished + 1,
       acks := s.acks + |op.acked|,
       fails := FailsAfter(s.fails, op.failed))
  }

  // ---------------------------------------------------------------- Membership

  function WithState(im: Image, st: LeaderState): Image {
    im.(state := st)
  }

  function DoJoinNew(s: Sys, rid: int, a: Addr, now: int): Sys {
    s.(mem := Image(OnRegister(s.mem.state, a, now), s.mem.counted[a := {}]),
       joining := s.joining[rid := a])
  }

  ghost function DoTick(s: Sys, now: int): Sys {
    s.(mem := WithState(s.mem, OnTick(s.mem.state, now)),
       ticking := if TickMarksDown(s.mem.state, now) then s.ticking + 1 else s.ticking)
  }

  // ---------------------------------------------------------------- Reads

  /** The targets are fixed under one lock: the replicas of the id, or else all members. */
  function DoReadStart(s: Sys, rid: int, id: int): Sys {
    var st := s.mem.state;
    var indexed := id in st.msgMap && |st.msgMap[id]| > 0;
    var targets := if indexed then st.msgMap[id] else st.members;
    s.(readers := s.readers[rid := ReadOp(id, targets, indexed, 0, false, {})])
  }

  predicate AtTarget(s: Sys, rid: int, calling: bool) {
    rid in s.readers && s.readers[rid].calling == calling && s.readers[rid].next < |s.readers[rid].targets|
  }

  function Current(s: Sys, rid: int): Addr
    requires rid in s.readers && s.readers[rid].next < |s.readers[rid].targets|
  {
    s.readers[rid].targets[s.readers[rid].next]
  }

  /** On to the next target; a target that was down or gave no answer joins `silent`. */
  function DoAdvance(s: Sys, rid: int, silent: bool): Sys
    requires rid in s.readers && s.readers[rid].next < |s.readers[rid].targets|
  {
    var op := s.readers[rid];
    s.(readers := s.readers[rid := op.(next := op.next + 1, calling := false,
                                   silent := if silent then op.silent + {Current(s, rid)} else op.silent)])
  }

  // ---------------------------------------------------------------- Restart

  /** What a new leader process starts from. */
  function Restored(cfg: Config, s: Sys, now: int): Image {
    if s.saved.Some? then s.saved.value else FreshImage(cfg.initial, now)
  }

  /** The process is lost with everything it was doing; requests already sent are not. */
  function DoCrash(cfg: Config, s: Sys, now: int): Sys {
    s.(mem := Restored(cfg, s, now), stores := map[], saving := {}, joining := map[], ticking := 0, readers := map[])
  }

  // ---------------------------------------------------------------- Steps and runs

  ghost predicate Enabled(cfg: Config, s: Sys, l: Label) {
    match l
    case Begin(sid, _, _, picked) => CanBegin(cfg, s, sid, picked)
    case Apply(sid, a) => (sid, a) in s.wire && sid in s.attempts
    case Drop(sid, a) => (sid, a) in s.wire
    case Ack(sid, a) => Waiting(s, sid, a) && sid in AppliedOn(s.applied, a)
    case Fail(sid, a) => Waiting(s, sid, a)
    case Finish(sid) => sid in s.stores && sid in s.attempts && AllSettled(s.stores[sid])
    case SaveStore(sid) => sid in s.saving
    case JoinNew(rid, a, _) => a !in s.mem.state.memberLog && rid !in s.joining
    case JoinKnown(a, _) => a in s.mem.state.memberLog
    case SaveJoin(rid) => rid in s.joining
    case Beat(_, _) => true
    case Tick(_) => true
    case SaveTick => s.ticking > 0
    case ReadStart(rid, _) => rid !in s.readers
    case ReadSkip(rid) => AtTarget(s, rid, false) && !IsAlive(s.mem.state.memberLog, Current(s, rid))
    case ReadCall(rid) => AtTarget(s, rid, false) && IsAlive(s.mem.state.memberLog, Current(s, rid))
    case ReadFail(rid) => AtTarget(s, rid, true)
    case ReadMiss(rid) => AtTarget(s, rid, true) && s.readers[rid].id !in DiskOf(s.files, Current(s, rid))
    case ReadHit(rid) => AtTarget(s, rid, true) && s.readers[rid].id in DiskOf(s.files, Current(s, rid))
    case ReadEnd(rid) => rid in s.readers && !s.readers[rid].calling && s.readers[rid].next >= |s.readers[rid].targets|
    case Crash(_) => true
  }

  ghost function Next(cfg: Config, s: Sys, l: Label): Sys
    requires Enabled(cfg, s, l)
  {
    match l
    case Begin(sid, id, text, picked) => DoBegin(s, sid, id, text, picked)
    case Apply(sid, a) => DoApply(s, sid, a)
    case Drop(sid, a) => s.(wire := s.wire - {(sid, a)})
    case Ack(sid, a) => DoAck(s, sid, a)
    case Fail(sid, a) => DoFail(s, sid, a)
    case Finish(sid) => DoFinish(cfg, s, sid)
    case SaveStore(sid) => s.(saved := Some(s.mem), saving := s.saving - {sid})
    case JoinNew(rid, a, now) => DoJoinNew(s, rid, a, now)
    case JoinKnown(a, now) => s.(mem := WithState(s.mem, OnRegister(s.mem.state, a, now)))
    case SaveJoin(rid) => s.(saved := Some(s.mem), joining := s.joining - {rid})
    case Beat(a, now) => s.(mem := WithState(s.mem, OnHeartbeat(s.mem.state, a, now)))
    case Tick(now) => DoTick(s, now)
    case SaveTick => s.(saved := Some(s.mem), ticking := s.ticking - 1)
    case ReadStart(rid, id) => DoReadStart(s, rid, id)
    case ReadSkip(rid) => DoAdvance(s, rid, true)
    case ReadCall(rid) => s.(readers := s.readers[rid := s.readers[rid].(calling := true)])
    case ReadFail(rid) => DoAdvance(s, rid, true)
    case ReadMiss(rid) => DoAdvance(s, rid, false)
    case ReadHit(rid) => s.(readers := s.readers - {rid})
    case ReadEnd(rid) => s.(readers := s.readers - {rid})
    case Crash(now) => DoCrash(cfg, s, now)
  }

  ghost predicate Step(cfg: Config, s: Sys, l: Label, t: Sys) {
    Enabled(cfg, s, l) && t == Next(cfg, s, l)
  }

  /** `run[i]` goes to `run[i + 1]` by `labels[i]`. */
  ghost predicate IsRun(cfg: Config, run: seq<Sys>, labels: seq<Label>) {
    && |run| == |labels| + 1
    && forall i :: 0 <= i < |labels| ==> Step(cfg, run[i], labels[i], run[i + 1])
  }

  ghost predicate StartsFresh(cfg: Config, run: seq<Sys>) {
    run != [] && exists now :: run[0] == Init(cfg, now)
  }

  ghost predicate IsExecution(cfg: Config, run: seq<Sys>, labels: seq<Label>) {
    ConfigOk(cfg) && IsRun(cfg, run, labels) && StartsFresh(cfg, run)
  }

  ghost predicate CrashFree(labels: seq<Label>, i: nat, j: nat)
    requires j <= |labels|
  {
    forall k :: i <= k < j ==> !labels[k].Crash?
  }

  /** The state file is only ever replaced by the state in memory. */
  lemma SavedChanges(cfg: Config, s: Sys, l: Label, t: Sys)
    requires Step(cfg, s, l, t)
    ensures t.saved == s.saved || t.saved == Some(s.mem)
    ensures l.Crash? || l.Finish? ==> t.saved == s.saved
  {
  }

  /** A run goes on from where another one ended. */
  lemma JoinRuns(cfg: Config, run: seq<Sys>, labels: seq<Label>, next: seq<Sys>, more: seq<Label>)
    requires IsRun(cfg, run, labels) && IsRun(cfg, next, more) && next[0] == run[|labels|]
    ensures IsRun(cfg, run + next[1..], labels + more)
    ensures |run + next[1..]| == |labels| + |more| + 1
    ensures forall k :: 0 <= k < |run| ==> (run + next[1..])[k] == run[k]
    ensures forall k :: 0 <= k < |next| ==> (run + next[1..])[|labels| + k] == next[k]
  {
    var all, names := run + next[1..], labels + more;
    forall i | 0 <= i < |names| ensures Step(cfg, all[i], names[i], all[i + 1]) {
      if i < |labels| {
        assert Step(cfg, run[i], labels[i], run[i + 1]);
      } else {
        assert Step(cfg, next[i - |labels|], more[i - |labels|], next[i - |labels| + 1]);
      }
    }
  }

  lemma Extend(cfg: Config, run: seq<Sys>, labels: seq<Label>, l: Label, t: Sys)
    requires IsRun(cfg, run, labels) && Step(cfg, run[|labels|], l, t)
    ensures IsRun(cfg, run + [t], labels + [l])
  {
    var all, names := run + [t], labels + [l];
    forall i | 0 <= i < |names| ensures Step(cfg, all[i], names[i], all[i + 1]) {
      if i < |labels| {
        assert Step(cfg, run[i], labels[i], run[i + 1]);
      }
    }
  }

  /** What one step keeps, a run keeps. */
  lemma {:induction false} AlongRun(run: seq<Sys>, p: Sys -> bool, i: nat, j: nat)
    requires i <= j < |run| && p(run[i])
    requires forall k :: i <= k < j && p(run[k]) ==> p(run[k + 1])
    ensures p(run[j])
  {
    if i < j {
      AlongRun(run, p, i, j - 1);
    }
  }
}
