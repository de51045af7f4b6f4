/**
 The failure detector in time: how stale an alive member can be, and when a punctual member can be marked
 down. Times are in milliseconds since the zero time.
 */
module Liveness {
  import opened Decimal
  import opened Leader
  import opened Cluster

  // ---------------------------------------------------------------- Becoming alive

  /**
   A member that is not alive becomes alive by a heartbeat, by a registration, or by a restart from a saved
   or configured state that has it alive; by nothing else.
   */
  lemma RevivedOnlyBy(cfg: Config, s: Sys, l: Label, t: Sys, a: Addr)
    requires Step(cfg, s, l, t) && !IsAlive(s.mem.state.memberLog, a)
    ensures IsAlive(t.mem.state.memberLog, a) <==>
            || (l.Beat? && l.a == a && a in s.mem.state.memberLog)
            || (l.JoinKnown? && l.a == a)
            || (l.JoinNew? && l.a == a)
            || (l.Crash? && IsAlive(Restored(cfg, s, l.now).state.memberLog, a))
  {
    if l.Finish? {
      var op := s.stores[l.sid];
      CountAcksKeepAlive(s.mem.state.memberLog, op.acked, a);
    }
  }

  lemma {:induction false} CountAcksKeepAlive(log: MemberLog, acked: seq<Addr>, a: Addr)
    ensures a in CountAcks(log, acked) <==> a in log
    ensures a in log ==> CountAcks(log, acked)[a].alive == log[a].alive
    ensures a in log ==> CountAcks(log, acked)[a].lastSeen == log[a].lastSeen
    ensures a in log ==> CountAcks(log, acked)[a].addedAt == log[a].addedAt
  {
    if acked != [] {
      CountAcksKeepAlive(log, acked[..|acked| - 1], a);
    }
  }

  // ---------------------------------------------------------------- One leader process in time

  /** What the leader does at an instant: a watcher pass, or a section requested by someone. */
  datatype Action =
    | WatchPass
    | Heartbeat(a: Addr)
    | Register(a: Addr)
    | Commit(id: int, acked: seq<Addr>, tolerance: nat)

  function Act(st: LeaderState, now: int, act: Action): LeaderState {
    match act
    case WatchPass => OnTick(st, now)
    case Heartbeat(a) => OnHeartbeat(st, a, now)
    case Register(a) => OnRegister(st, a, now)
    case Commit(id, acked, tolerance) => OnCommit(st, id, acked, tolerance)
  }

  /** Time, the time of the last watcher pass or of the start, and the state. */
  datatype Watched = Watched(now: int, lastTick: int, st: LeaderState)

  datatype Event = Wait(until: int) | Do(act: Action)

  /** Watcher passes are at most one interval apart: time stops for the next one. */
  predicate MayHappen(w: Watched, e: Event) {
    e.Wait? ==> w.now <= e.until <= w.lastTick + HEARTBEAT_INTERVAL
  }

  function After(w: Watched, e: Event): Watched {
    match e
    case Wait(until) => w.(now := until)
    case Do(act) => w.(st := Act(w.st, w.now, act), lastTick := if act.WatchPass? then w.now else w.lastTick)
  }

  ghost predicate IsWatch(run: seq<Watched>, events: seq<Event>) {
    && |run| == |events| + 1
    && run[0].lastTick <= run[0].now <= run[0].lastTick + HEARTBEAT_INTERVAL
    && forall k :: 0 <= k < |events| ==> MayHappen(run[k], events[k]) && run[k + 1] == After(run[k], events[k])
  }

  ghost predicate SeenBy(w: Watched) {
    && w.lastTick <= w.now <= w.lastTick + HEARTBEAT_INTERVAL
    && forall a :: IsAlive(w.st.memberLog, a) ==> w.lastTick - HEARTBEAT_TIMEOUT <= w.st.memberLog[a].lastSeen
  }

  lemma TickSees(w: Watched)
    requires w.lastTick <= w.now
    ensures SeenBy(After(w, Do(WatchPass)))
  {
  }

  lemma ActKeepsSeen(w: Watched, act: Action)
    requires SeenBy(w)
    ensures SeenBy(After(w, Do(act)))
  {
    var t := After(w, Do(act));
    if act.Commit? {
      forall a | IsAlive(t.st.memberLog, a)
        ensures t.lastTick - HEARTBEAT_TIMEOUT <= t.st.memberLog[a].lastSeen
      {
        CountAcksKeepAlive(w.st.memberLog, act.acked, a);
      }
    }
  }

  lemma {:induction false} WatchedTimes(run: seq<Watched>, events: seq<Event>, k: nat)
    requires IsWatch(run, events) && k < |run|
    ensures run[k].lastTick <= run[k].now <= run[k].lastTick + HEARTBEAT_INTERVAL
  {
    if k > 0 {
      WatchedTimes(run, events, k - 1);
    }
  }

  lemma {:induction false} SeenAfterTick(run: seq<Watched>, events: seq<Event>, i: nat, j: nat)
    requires IsWatch(run, events) && i < j < |run| && events[i] == Do(WatchPass)
    ensures SeenBy(run[j])
  {
    WatchedTimes(run, events, j - 1);
    if j == i + 1 {
      TickSees(run[i]);
    } else {
      SeenAfterTick(run, events, i, j - 1);
      if events[j - 1].Do? {
        ActKeepsSeen(run[j - 1], events[j - 1].act);
      }
    }
  }

  /** After the first watcher pass, a member still marked alive was seen at most timeout plus interval ago. */
  lemma AliveIsFresh(run: seq<Watched>, events: seq<Event>, i: nat, j: nat, a: Addr)
    requires IsWatch(run, events) && i < j < |run| && events[i] == Do(WatchPass)
    requires IsAlive(run[j].st.memberLog, a)
    ensures run[j].now - run[j].st.memberLog[a].lastSeen <= 20_000
  {
    SeenAfterTick(run, events, i, j);
  }

  // ---------------------------------------------------------------- A punctual member

  const REGISTER_LIMIT := 8_000
  const DIAL_LIMIT := 5_000
  const BEAT_LIMIT := 2_000
  const SLEEP := 5_000

  /** Where the member's own loop is. */
  datatype Phase =
    | Registering(recorded: bool)
    | Dialing
    | Calling(received: bool)
    | Sleeping

  /** What the present leader process has heard of the member. */
  datatype Heard = Unheard | Joined | Beating

  /** A member's loop and the leader together, across leader processes. */
  datatype Paired = Paired(
    now: int,
    up: bool,                     // a leader process is running
    st: LeaderState,
    saved: Option<LeaderState>,   // the state file
    phase: Phase,
    since: int,                   // when the phase began
    broken: bool,                 // the leader was down at some time in this phase
    heard: Heard)

  datatype PairEvent =
    | Pass(until: int)
    | Recorded
    | JoinReplied
    | Connected
    | DialFailed
    | Received
    | BeatReplied
    | BeatFailed
    | Wake
    | Other(act: Action)
    | Save
    | Halt
    | Start

  function Limit(phase: Phase): int {
    match phase
    case Registering(_) => REGISTER_LIMIT
    case Dialing => DIAL_LIMIT
    case Calling(_) => BEAT_LIMIT
    case Sleeping => SLEEP
  }

  /**
   The member is punctual: it leaves each phase within that phase's limit, and a dial or call fails only if
   the leader was down during it. Only the member itself speaks in its own name.
   */
  predicate MayPair(p: Paired, e: PairEvent, me: Addr) {
    match e
    case Pass(until) => p.now <= until <= p.since + Limit(p.phase)
    case Recorded => p.up && p.phase == Registering(false)
    case JoinReplied => p.phase == Registering(true)
    case Connected => p.up && p.phase == Dialing
    case DialFailed => p.broken && p.phase == Dialing
    case Received => p.up && !p.broken && p.phase == Calling(false)
    case BeatReplied => p.phase == Calling(true)
    case BeatFailed => p.broken && p.phase == Calling(false)
    case Wake => p.phase == Sleeping && p.now == p.since + SLEEP
    case Other(act) => p.up && act != Heartbeat(me) && act != Register(me)
    case Save => p.up
    case Halt => p.up
    case Start => !p.up
  }

  function Enter(p: Paired, phase: Phase): Paired {
    p.(phase := phase, since := p.now, broken := !p.up)
  }

  function PairAfter(p: Paired, e: PairEvent, initial: seq<Addr>, me: Addr): Paired {
    match e
    case Pass(until) => p.(now := until)
    case Recorded => p.(st := OnRegister(p.st, me, p.now), phase := Registering(true), broken := false, heard := Joined)
    case JoinReplied => Enter(p, Dialing)
    case Connected => Enter(p, Calling(false))
    case DialFailed => Enter(p, Sleeping)
    case Received =>
      p.(st := OnHeartbeat(p.st, me, p.now), phase := Calling(true),
         heard := if me in p.st.memberLog then Beating else p.heard)
    case BeatReplied => Enter(p, Sleeping)
    case BeatFailed => Enter(p, Sleeping)
    case Wake => Enter(p, Dialing)
    case Other(act) => p.(st := Act(p.st, p.now, act))
    case Save => p.(saved := Some(p.st))
    case Halt => p.(up := false, broken := true, heard := Unheard)
    case Start => p.(up := true, st := AtStart(p.saved, initial, p.now))
  }

  /** The member starts with its registration, whatever the leader and its state file are then. */
  ghost predicate IsPairing(run: seq<Paired>, events: seq<PairEvent>, initial: seq<Addr>, me: Addr) {
    && |run| == |events| + 1
    && run[0].phase == Registering(false) && run[0].since == run[0].now > ZERO_TIME
    && run[0].heard == Unheard && run[0].broken == !run[0].up
    && forall k :: 0 <= k < |events| ==>
                     MayPair(run[k], events[k], me) && run[k + 1] == PairAfter(run[k], events[k], initial, me)
  }

  /** The leader records a registration of the member or a heartbeat of the member it knows. */
  predicate Contact(p: Paired, e: PairEvent, me: Addr) {
    e == Recorded || (e == Received && me in p.st.memberLog)
  }

  ghost predicate SameProcess(events: seq<PairEvent>, i: nat, k: nat) {
    forall m :: i <= m < k && m < |events| ==> events[m] != Halt
  }

  ghost predicate NoContact(run: seq<Paired>, events: seq<PairEvent>, me: Addr, i: nat, k: nat)
    requires |run| == |events| + 1
  {
    forall m :: i <= m < k && m < |events| ==> !Contact(run[m], events[m], me)
  }

  // ---------------------------------------------------------------- Between two contacts

  /** How long before the current phase began the last contact may have been. */
  function Lag(joined: bool, phase: Phase): int {
    var head := if joined then REGISTER_LIMIT else BEAT_LIMIT + SLEEP;
    match phase
    case Registering(_) => 0
    case Dialing => head
    case Calling(received) => if received then 0 else head + DIAL_LIMIT
    case Sleeping => BEAT_LIMIT
  }

  /** The last contact was at `t` or later, and the leader has been up since. */
  predicate Behind(p: Paired, joined: bool, t: int) {
    && p.up && !p.broken
    && p.since <= p.now <= p.since + Limit(p.phase)
    && p.since - Lag(joined, p.phase) <= t
    && p.phase != Registering(false)
    && (if joined then p.phase != Calling(true) && p.phase != Sleeping else !p.phase.Registering?)
  }

  lemma StepKeepsBehind(p: Paired, e: PairEvent, initial: seq<Addr>, me: Addr, joined: bool, t: int)
    requires Behind(p, joined, t) && MayPair(p, e, me) && e != Halt && e != Received
    ensures Behind(PairAfter(p, e, initial, me), joined, t)
  {
  }

  /** A registration to the next heartbeat takes at most 15 s, one heartbeat to the next at most 14 s. */
  lemma ContactGap(run: seq<Paired>, events: seq<PairEvent>, initial: seq<Addr>, me: Addr, i: nat, k: nat)
    requires IsPairing(run, events, initial, me) && i < k < |run|
    requires events[i] == Recorded || events[i] == Received
    requires SameProcess(events, i + 1, k)
    requires forall m :: i < m < k ==> events[m] != Received
    ensures run[k].now - run[i].now <= if events[i] == Recorded then 15_000 else 14_000
  {
    RunKeepsBehind(run, events, initial, me, i, k);
  }

  lemma {:induction false} RunKeepsBehind(run: seq<Paired>, events: seq<PairEvent>, initial: seq<Addr>, me: Addr,
                                          i: nat, k: nat)
    requires IsPairing(run, events, initial, me) && i < k < |run|
    requires events[i] == Recorded || events[i] == Received
    requires SameProcess(events, i + 1, k)
    requires forall m :: i < m < k ==> events[m] != Received
    ensures Behind(run[k], events[i] == Recorded, run[i].now)
  {
    if k == i + 1 {
      RunIsPunctual(run, events, initial, me, i);
    } else {
      RunKeepsBehind(run, events, initial, me, i, k - 1);
      StepKeepsBehind(run[k - 1], events[k - 1], initial, me, events[i] == Recorded, run[i].now);
    }
  }

  // ---------------------------------------------------------------- Alive from the first contact on

  ghost predicate Punctual(p: Paired, me: Addr) {
    && ZERO_TIME < p.since <= p.now <= p.since + Limit(p.phase)
    && (p.heard != Unheard ==>
          && IsAlive(p.st.memberLog, me)
          && p.st.memberLog[me].lastSeen > ZERO_TIME
          && Behind(p, p.heard == Joined, p.st.memberLog[me].lastSeen))
  }

  lemma PunctualGap(p: Paired, me: Addr)
    requires Punctual(p, me) && p.heard != Unheard
    ensures p.now - p.st.memberLog[me].lastSeen <= if p.heard == Joined then 15_000 else 14_000
  {
  }

  lemma ActKeepsPunctual(p: Paired, act: Action, initial: seq<Addr>, me: Addr)
    requires Punctual(p, me) && MayPair(p, Other(act), me)
    ensures Punctual(PairAfter(p, Other(act), initial, me), me)
  {
    if p.heard != Unheard {
      PunctualGap(p, me);
      if act.Commit? {
        CountAcksKeepAlive(p.st.memberLog, act.acked, me);
      }
    }
  }

  lemma StepKeepsPunctual(p: Paired, e: PairEvent, initial: seq<Addr>, me: Addr)
    requires Punctual(p, me) && MayPair(p, e, me)
    ensures Punctual(PairAfter(p, e, initial, me), me)
  {
    if e.Other? {
      ActKeepsPunctual(p, e.act, initial, me);
    } else if p.heard != Unheard && e != Received && e != Halt {
      StepKeepsBehind(p, e, initial, me, p.heard == Joined, p.st.memberLog[me].lastSeen);
    }
  }

  lemma {:induction false} RunIsPunctual(run: seq<Paired>, events: seq<PairEvent>, initial: seq<Addr>, me: Addr, k: nat)
    requires IsPairing(run, events, initial, me) && k < |run|
    ensures Punctual(run[k], me)
  {
    if k > 0 {
      RunIsPunctual(run, events, initial, me, k - 1);
      StepKeepsPunctual(run[k - 1], events[k - 1], initial, me);
    }
  }

  lemma {:induction false} StaysHeard(run: seq<Paired>, events: seq<PairEvent>, initial: seq<Addr>, me: Addr,
                                      i: nat, k: nat)
    requires IsPairing(run, events, initial, me) && i < k < |run|
    requires Contact(run[i], events[i], me) && SameProcess(events, i + 1, k)
    ensures run[k].heard == Beating || (run[k].heard == Joined && events[i] == Recorded)
  {
    RunIsPunctual(run, events, initial, me, k - 1);
    if k > i + 1 {
      StaysHeard(run, events, initial, me, i, k - 1);
    }
  }

  /**
   From the first registration or heartbeat that a leader process records until that process ends, a
   punctual member is alive in every state, whatever watcher passes and other requests come between.
   */
  lemma PunctualMemberStaysAlive(run: seq<Paired>, events: seq<PairEvent>, initial: seq<Addr>, me: Addr, i: nat, k: nat)
    requires IsPairing(run, events, initial, me) && i < k < |run|
    requires Contact(run[i], events[i], me) && SameProcess(events, i + 1, k)
    ensures IsAlive(run[k].st.memberLog, me)
    ensures run[k].now - run[k].st.memberLog[me].lastSeen <= if events[i] == Recorded then 15_000 else 14_000
  {
    RunIsPunctual(run, events, initial, me, k);
    StaysHeard(run, events, initial, me, i, k);
    PunctualGap(run[k], me);
  }

  // ---------------------------------------------------------------- After a restart

  /** Until its first contact the member's entry is the restored one, marked down once it is found too old. */
  ghost predicate AsRestored(p: Paired, log: MemberLog, me: Addr) {
    && p.up
    && (me in p.st.memberLog <==> me in log)
    && (me in log ==>
          && LastHeard(p.st.memberLog[me]) == LastHeard(log[me])
          && (p.st.memberLog[me].alive ==> log[me].alive)
          && (log[me].alive && p.now - LastHeard(log[me]) <= HEARTBEAT_TIMEOUT ==> p.st.memberLog[me].alive))
  }

  lemma StepKeepsRestored(p: Paired, e: PairEvent, initial: seq<Addr>, me: Addr, log: MemberLog)
    requires AsRestored(p, log, me) && MayPair(p, e, me) && e != Halt && !Contact(p, e, me)
    ensures AsRestored(PairAfter(p, e, initial, me), log, me)
  {
    if e.Other? && e.act.Commit? {
      CountAcksKeepAlive(p.st.memberLog, e.act.acked, me);
    }
  }

  lemma {:induction false} RunKeepsRestored(run: seq<Paired>, events: seq<PairEvent>, initial: seq<Addr>, me: Addr,
                                            i: nat, k: nat)
    requires IsPairing(run, events, initial, me) && i < k < |run| && events[i] == Start
    requires SameProcess(events, i + 1, k) && NoContact(run, events, me, i + 1, k)
    ensures AsRestored(run[k], AtStart(run[i].saved, initial, run[i].now).memberLog, me)
  {
    if k > i + 1 {
      RunKeepsRestored(run, events, initial, me, i, k - 1);
      StepKeepsRestored(run[k - 1], events[k - 1], initial, me, AtStart(run[i].saved, initial, run[i].now).memberLog);
    }
  }

  /**
   Exactly when a watcher pass of a restarted leader leaves a punctual member down: nothing has been heard of
   it since the restart, and the restored state has it down or last seen more than the timeout ago.
   */
  lemma VerdictAfterRestart(run: seq<Paired>, events: seq<PairEvent>, initial: seq<Addr>, me: Addr, i: nat, k: nat)
    requires IsPairing(run, events, initial, me) && i < k < |events|
    requires events[i] == Start && events[k] == Other(WatchPass) && SameProcess(events, i + 1, k)
    ensures var log := AtStart(run[i].saved, initial, run[i].now).memberLog;
            !IsAlive(run[k + 1].st.memberLog, me) <==>
            && NoContact(run, events, me, i + 1, k)
            && (!IsAlive(log, me) || run[k].now - LastHeard(log[me]) > 15_000)
  {
    if NoContact(run, events, me, i + 1, k) {
      RunKeepsRestored(run, events, initial, me, i, k);
    } else {
      var m :| i + 1 <= m < k && Contact(run[m], events[m], me);
      PunctualMemberStaysAlive(run, events, initial, me, m, k + 1);
    }
  }

  /** How long after the restart the phase can have begun, with nothing heard of the member since. */
  function Slack(phase: Phase): int {
    match phase
    case Registering(_) => 0
    case Sleeping => DIAL_LIMIT
    case Dialing => DIAL_LIMIT + SLEEP
    case Calling(_) => DIAL_LIMIT + SLEEP + DIAL_LIMIT
  }

  predicate Due(p: Paired, t: int, me: Addr) {
    && p.up && me in p.st.memberLog
    && p.since <= p.now <= p.since + Limit(p.phase)
    && p.since <= t + (if p.broken then 0 else Slack(p.phase))
    && (!p.broken ==> p.phase != Calling(true) && !p.phase.Registering?)
  }

  lemma StepKeepsDue(p: Paired, e: PairEvent, initial: seq<Addr>, me: Addr, t: int)
    requires Due(p, t, me) && MayPair(p, e, me) && e != Halt && !Contact(p, e, me)
    ensures Due(PairAfter(p, e, initial, me), t, me)
  {
    if e.Other? && e.act.Commit? {
      CountAcksKeepAlive(p.st.memberLog, e.act.acked, me);
    }
  }

  lemma {:induction false} BrokenWhileDown(run: seq<Paired>, events: seq<PairEvent>, initial: seq<Addr>, me: Addr,
                                           k: nat)
    requires IsPairing(run, events, initial, me) && k < |run|
    ensures !run[k].up ==> run[k].broken
  {
    if k > 0 {
      BrokenWhileDown(run, events, initial, me, k - 1);
    }
  }

  lemma {:induction false} RunKeepsDue(run: seq<Paired>, events: seq<PairEvent>, initial: seq<Addr>, me: Addr,
                                       i: nat, k: nat)
    requires IsPairing(run, events, initial, me) && i < k < |run|
    requires events[i] == Start && me in AtStart(run[i].saved, initial, run[i].now).memberLog
    requires SameProcess(events, i + 1, k) && NoContact(run, events, me, i + 1, k)
    ensures Due(run[k], run[i].now, me)
  {
    if k == i + 1 {
      BrokenWhileDown(run, events, initial, me, i);
      RunIsPunctual(run, events, initial, me, i);
    } else {
      RunKeepsDue(run, events, initial, me, i, k - 1);
      StepKeepsDue(run[k - 1], events[k - 1], initial, me, run[i].now);
    }
  }

  /** A restarted leader that knows a punctual member hears of it within 17 s. */
  lemma HeardSoonAfterRestart(run: seq<Paired>, events: seq<PairEvent>, initial: seq<Addr>, me: Addr, i: nat, k: nat)
    requires IsPairing(run, events, initial, me) && i < k < |run|
    requires events[i] == Start && me in AtStart(run[i].saved, initial, run[i].now).memberLog
    requires SameProcess(events, i + 1, k) && NoContact(run, events, me, i + 1, k)
    ensures run[k].now - run[i].now <= 17_000
  {
    RunKeepsDue(run, events, initial, me, i, k);
  }

  /** Nobody brings a member back that registers no more: `p` and its state file do not know it. */
  predicate Lost(p: Paired, initial: seq<Addr>, me: Addr) {
    && p.phase != Registering(false)
    && me !in AtStart(p.saved, initial, p.now).memberLog
    && (p.up ==> me !in p.st.memberLog)
  }

  lemma StepKeepsLost(p: Paired, e: PairEvent, initial: seq<Addr>, me: Addr)
    requires Lost(p, initial, me) && MayPair(p, e, me)
    ensures Lost(PairAfter(p, e, initial, me), initial, me)
  {
    if e.Other? && e.act.Commit? {
      CountAcksKeepAlive(p.st.memberLog, e.act.acked, me);
    }
  }

  /**
   A member registers once. When a leader restarts without knowing it after that, no leader process knows
   it ever again, whatever heartbeats it sends and however many restarts follow.
   */
  lemma {:induction false} LostForEver(run: seq<Paired>, events: seq<PairEvent>, initial: seq<Addr>, me: Addr,
                                       i: nat, k: nat)
    requires IsPairing(run, events, initial, me) && i < k < |run|
    requires events[i] == Start && run[i].phase != Registering(false)
    requires me !in AtStart(run[i].saved, initial, run[i].now).memberLog
    ensures Lost(run[k], initial, me)
    ensures run[k].up ==> me !in run[k].st.memberLog
  {
    if k > i + 1 {
      LostForEver(run, events, initial, me, i, k - 1);
      StepKeepsLost(run[k - 1], events[k - 1], initial, me);
    }
  }

  // ---------------------------------------------------------------- A punctual member marked down

  lemma PairExtend(run: seq<Paired>, events: seq<PairEvent>, initial: seq<Addr>, me: Addr, e: PairEvent)
    returns (longer: seq<Paired>, more: seq<PairEvent>)
    requires IsPairing(run, events, initial, me) && MayPair(run[|events|], e, me)
    ensures longer == run + [PairAfter(run[|events|], e, initial, me)] && more == events + [e]
    ensures IsPairing(longer, more, initial, me) && longer[0] == run[0]
    ensures longer[|more|] == PairAfter(run[|events|], e, initial, me)
  {
    longer, more := run + [PairAfter(run[|events|], e, initial, me)], events + [e];
  }

  /** The member sleeps, dials for as long as it may, and gets a heartbeat through: ten seconds in all. */
  const SLOW_ROUND := 10_000

  lemma SlowRound(run: seq<Paired>, events: seq<PairEvent>, initial: seq<Addr>, me: Addr)
    returns (longer: seq<Paired>, more: seq<PairEvent>)
    requires IsPairing(run, events, initial, me)
    requires var p := run[|events|]; p.up && p.phase == Sleeping && p.now == p.since && me in p.st.memberLog
    ensures IsPairing(longer, more, initial, me) && longer[0] == run[0]
    ensures var p, q := run[|events|], longer[|more|];
            && q.up && q.phase == Sleeping && q.now == q.since == p.now + SLOW_ROUND && q.saved == p.saved
            && me in q.st.memberLog && q.st.memberLog[me].lastSeen == q.now
  {
    var p := run[|events|];
    longer, more := PairExtend(run, events, initial, me, Pass(p.now + SLEEP));
    longer, more := PairExtend(longer, more, initial, me, Wake);
    longer, more := PairExtend(longer, more, initial, me, Pass(p.now + SLOW_ROUND));
    longer, more := PairExtend(longer, more, initial, me, Connected);
    longer, more := PairExtend(longer, more, initial, me, Received);
    longer, more := PairExtend(longer, more, initial, me, BeatReplied);
  }

  /** A new member registers, is saved, and sends its first heartbeat at once. */
  lemma FirstRound(me: Addr) returns (run: seq<Paired>, events: seq<PairEvent>)
    ensures IsPairing(run, events, [], me) && run[0].now == 1
    ensures var q := run[|events|];
            && q.up && q.phase == Sleeping && q.now == q.since == 1 && me in q.st.memberLog
            && q.saved == Some(LeaderState([me], map[me := MemberInfo(1, 0, 1, true)], map[]))
  {
    var nobody := LeaderState([], map[], map[]);
    run, events := [Paired(1, true, nobody, None, Registering(false), 1, false, Unheard)], [];
    run, events := PairExtend(run, events, [], me, Recorded);
    assert [] + [me] == [me];
    run, events := PairExtend(run, events, [], me, Save);
    run, events := PairExtend(run, events, [], me, JoinReplied);
    run, events := PairExtend(run, events, [], me, Connected);
    run, events := PairExtend(run, events, [], me, Received);
    run, events := PairExtend(run, events, [], me, BeatReplied);
  }

  /** The leader restarts five seconds and a millisecond later, while the member dials, and looks at it. */
  lemma RestartWhileDialing(run: seq<Paired>, events: seq<PairEvent>, initial: seq<Addr>, me: Addr)
    returns (longer: seq<Paired>, more: seq<PairEvent>)
    requires IsPairing(run, events, initial, me)
    requires var p := run[|events|]; p.up && p.phase == Sleeping && p.now == p.since && p.saved.Some?
    ensures IsPairing(longer, more, initial, me) && run <= longer && events <= more
    ensures more != [] && more[|more| - 1] == Other(WatchPass)
    ensures var p, q := run[|events|], longer[|more|];
            q.up && q.now == p.now + SLEEP + 1 && q.st == OnTick(p.saved.value, q.now)
  {
    var p := run[|events|];
    longer, more := PairExtend(run, events, initial, me, Pass(p.now + SLEEP));
    longer, more := PairExtend(longer, more, initial, me, Wake);
    longer, more := PairExtend(longer, more, initial, me, Halt);
    longer, more := PairExtend(longer, more, initial, me, Start);
    longer, more := PairExtend(longer, more, initial, me, Pass(p.now + SLEEP + 1));
    longer, more := PairExtend(longer, more, initial, me, Other(WatchPass));
  }

  /**
   A run of a punctual member that a restarted leader marks down, although the former leader process had a
   heartbeat of it 5001 ms before.
   */
  lemma PunctualMemberMarkedDown(me: Addr) returns (run: seq<Paired>, events: seq<PairEvent>, n: nat)
    ensures IsPairing(run, events, [], me) && n < |events|
    ensures run[n].up && me in run[n].st.memberLog && run[n].st.memberLog[me].lastSeen == run[n].now == 10_001
    ensures events[|events| - 1] == Other(WatchPass) && run[|events|].now == 15_002
    ensures me in run[|events|].st.memberLog && !IsAlive(run[|events|].st.memberLog, me)
  {
    var first, start := FirstRound(me);
    var second, round := SlowRound(first, start, [], me);
    n := |round|;
    run, events := RestartWhileDialing(second, round, [], me);
  }

  // ---------------------------------------------------------------- The slowest punctual member

  /** The member uses up every limit: its registration reply, dial and call take as long as they may. */
  lemma SlowestStart(me: Addr) returns (run: seq<Paired>, events: seq<PairEvent>)
    ensures IsPairing(run, events, [], me) && |events| == 7
    ensures events[0] == Recorded && events[6] == Received && forall m :: 0 < m < 6 ==> events[m] != Received
    ensures run[6].now - run[0].now == 15_000
    ensures SameProcess(events, 0, 7) && run[7].up && run[7].phase == Calling(true)
    ensures run[7].since + BEAT_LIMIT == run[7].now == run[6].now
  {
    var nobody := LeaderState([], map[], map[]);
    run, events := [Paired(1, true, nobody, None, Registering(false), 1, false, Unheard)], [];
    run, events := PairExtend(run, events, [], me, Recorded);
    run, events := PairExtend(run, events, [], me, Pass(1 + REGISTER_LIMIT));
    run, events := PairExtend(run, events, [], me, JoinReplied);
    run, events := PairExtend(run, events, [], me, Pass(1 + REGISTER_LIMIT + DIAL_LIMIT));
    run, events := PairExtend(run, events, [], me, Connected);
    run, events := PairExtend(run, events, [], me, Pass(1 + REGISTER_LIMIT + DIAL_LIMIT + BEAT_LIMIT));
    run, events := PairExtend(run, events, [], me, Received);
  }

  lemma SlowestRound(run: seq<Paired>, events: seq<PairEvent>, me: Addr)
    returns (longer: seq<Paired>, more: seq<PairEvent>)
    requires IsPairing(run, events, [], me)
    requires var p := run[|events|]; p.up && p.phase == Calling(false) && p.now == p.since && !p.broken
    ensures IsPairing(longer, more, [], me) && run <= longer && events <= more && |more| == |events| + 9
    ensures var n := |events|;
            && more[n] == Received && more[n + 8] == Received && (forall m :: n < m < n + 8 ==> more[m] != Received)
            && SameProcess(more, n, n + 9) && longer[n + 8].now - longer[n].now == 14_000
  {
    var t := run[|events|].now;
    longer, more := PairExtend(run, events, [], me, Received);
    longer, more := PairExtend(longer, more, [], me, Pass(t + BEAT_LIMIT));
    longer, more := PairExtend(longer, more, [], me, BeatReplied);
    longer, more := PairExtend(longer, more, [], me, Pass(t + BEAT_LIMIT + SLEEP));
    longer, more := WakeAndCall(longer, more, me);
  }

  lemma WakeAndCall(run: seq<Paired>, events: seq<PairEvent>, me: Addr)
    returns (longer: seq<Paired>, more: seq<PairEvent>)
    requires IsPairing(run, events, [], me)
    requires var p := run[|events|]; p.up && p.phase == Sleeping && p.now == p.since + SLEEP
    ensures IsPairing(longer, more, [], me) && run <= longer
    ensures exists u, v :: more == events + [Wake, Pass(u), Connected, Pass(v), Received]
    ensures longer[|events| + 4].now == run[|events|].now + 7_000
  {
    var t := run[|events|].now;
    longer, more := PairExtend(run, events, [], me, Wake);
    longer, more := PairExtend(longer, more, [], me, Pass(t + DIAL_LIMIT));
    longer, more := PairExtend(longer, more, [], me, Connected);
    longer, more := PairExtend(longer, more, [], me, Pass(t + DIAL_LIMIT + BEAT_LIMIT));
    longer, more := PairExtend(longer, more, [], me, Received);
    assert more == events + [Wake, Pass(t + DIAL_LIMIT), Connected, Pass(t + DIAL_LIMIT + BEAT_LIMIT), Received];
  }

  /** Both bounds on the time between contacts are reached by punctual members. */
  lemma GapsAreReached(me: Addr)
    returns (slow: seq<Paired>, slowEvents: seq<PairEvent>, run: seq<Paired>, events: seq<PairEvent>, i: nat, k: nat)
    ensures IsPairing(slow, slowEvents, [], me) && |slowEvents| == 7 && SameProcess(slowEvents, 0, 7)
    ensures slowEvents[0] == Recorded && slowEvents[6] == Received && slow[6].now - slow[0].now == 15_000
    ensures IsPairing(run, events, [], me) && i < k < |events| && SameProcess(events, i, k + 1)
    ensures events[i] == Received && events[k] == Received && forall m :: i < m < k ==> events[m] != Received
    ensures run[k].now - run[i].now == 14_000
  {
    slow, slowEvents := SlowestStart(me);
    var first, start := CallAtOnce(me);
    i, k := |start|, |start| + 8;
    run, events := SlowestRound(first, start, me);
  }

  lemma CallAtOnce(me: Addr) returns (run: seq<Paired>, events: seq<PairEvent>)
    ensures IsPairing(run, events, [], me)
    ensures var p := run[|events|]; p.up && p.phase == Calling(false) && p.now == p.since && !p.broken
  {
    var nobody := LeaderState([], map[], map[]);
    run, events := [Paired(1, true, nobody, None, Registering(false), 1, false, Unheard)], [];
    run, events := PairExtend(run, events, [], me, Recorded);
    run, events := PairExtend(run, events, [], me, JoinReplied);
    run, events := PairExtend(run, events, [], me, Connected);
  }

  // ---------------------------------------------------------------- A stale restart

  /**
   Heartbeats are not saved: after a heartbeat, a restart and a watcher pass, a member is alive exactly when
   the saved time was recent enough, however recent the heartbeat.
   */
  lemma StaleRestart(cfg: Config, s: Sys, a: Addr, beat: int, crash: int, tick: int)
    returns (run: seq<Sys>, labels: seq<Label>)
    requires s.saved.Some? && IsAlive(s.saved.value.state.memberLog, a)
    ensures IsRun(cfg, run, labels) && run[0] == s
    ensures labels == [Beat(a, beat), Crash(crash), Tick(tick)]
    ensures IsAlive(run[3].mem.state.memberLog, a)
            <==> tick - LastHeard(s.saved.value.state.memberLog[a]) <= 15_000
  {
    var s1 := s.(mem := WithState(s.mem, OnHeartbeat(s.mem.state, a, beat)));
    var s2 := DoCrash(cfg, s1, crash);
    run := [s, s1, s2, DoTick(s2, tick)];
    labels := [Beat(a, beat), Crash(crash), Tick(tick)];
    assert Step(cfg, s, labels[0], s1);
    assert Step(cfg, s1, labels[1], s2);
    assert Step(cfg, s2, labels[2], run[3]);
  }

  lemma JoinAndBeat(cfg: Config, a: Addr, join: int, beat: int) returns (run: seq<Sys>, labels: seq<Label>)
    requires a !in cfg.initial
    ensures IsRun(cfg, run, labels) && run[0] == Init(cfg, 0)
    ensures labels == [JoinNew(0, a, join), SaveJoin(0), Beat(a, beat)]
    ensures run[3].saved.Some? && run[3].saved.value.state == OnRegister(run[0].mem.state, a, join)
  {
    var s0 := Init(cfg, 0);
    var s1 := DoJoinNew(s0, 0, a, join);
    var s2 := s1.(saved := Some(s1.mem), joining := s1.joining - {0});
    run := [s0, s1, s2, s2.(mem := WithState(s2.mem, OnHeartbeat(s2.mem.state, a, beat)))];
    labels := [JoinNew(0, a, join), SaveJoin(0), Beat(a, beat)];
    assert Step(cfg, s0, labels[0], s1);
    assert Step(cfg, s1, labels[1], s2);
    assert Step(cfg, s2, labels[2], run[3]);
  }

  /** A complete run of the cluster: heartbeats at 14 s and 28 s, a restart, and the pass at 33.1 s marks it down. */
  lemma BeatsThenMarkedDown() returns (cfg: Config, run: seq<Sys>, labels: seq<Label>)
    ensures IsExecution(cfg, run, labels)
    ensures labels == [JoinNew(0, "m", 1), SaveJoin(0), Beat("m", 14_000),
                       Beat("m", 28_000), Crash(28_100), Tick(33_100)]
    ensures !IsAlive(run[6].mem.state.memberLog, "m")
  {
    cfg := Config(1, UseLeastLoaded, []);
    var first, names := JoinAndBeat(cfg, "m", 1, 14_000);
    var last, more := StaleRestart(cfg, first[3], "m", 28_000, 28_100, 33_100);
    JoinRuns(cfg, first, names, last, more);
    run, labels := first + last[1..], names + more;
  }
}
