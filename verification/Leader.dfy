/**
 The leader's shared state and the critical sections that read and change it. Every function below is
 one section executed under the leader's lock; the class performs the same sections in place.
 Times are in milliseconds.
 */
module Leader {
  import opened Decimal
  import opened Seqs
  import opened Balancer

  type Addr = string

  const HEARTBEAT_TIMEOUT := 15_000
  const HEARTBEAT_INTERVAL := 5_000

  /** The zero time of a member that was never seen. */
  const ZERO_TIME := 0

  datatype MemberInfo = MemberInfo(addedAt: int, messageCnt: int, lastSeen: int, alive: bool)

  type MemberLog = map<Addr, MemberInfo>

  datatype LeaderState = LeaderState(members: seq<Addr>, memberLog: MemberLog, msgMap: map<int, seq<Addr>>)

  // ---------------------------------------------------------------- Critical sections

  function Joined(now: int): MemberInfo {
    MemberInfo(now, 0, now, true)
  }

  function FreshState(members: seq<Addr>, now: int): LeaderState {
    LeaderState(members, map a | a in members :: Joined(now), map[])
  }

  /** A saved state, when there is one, replaces the configured members. */
  function AtStart(saved: Option<LeaderState>, members: seq<Addr>, now: int): LeaderState {
    if saved.Some? then saved.value else FreshState(members, now)
  }

  function OnHeartbeat(st: LeaderState, addr: Addr, now: int): LeaderState {
    if addr !in st.memberLog then st
    else st.(memberLog := st.memberLog[addr := st.memberLog[addr].(lastSeen := now, alive := true)])
  }

  /** A never-seen member counts from when it was added. */
  function LastHeard(m: MemberInfo): int {
    if m.lastSeen == ZERO_TIME then m.addedAt else m.lastSeen
  }

  /** Silence beyond the timeout marks a member down. */
  function OnTickOne(m: MemberInfo, now: int): MemberInfo {
    var seen := LastHeard(m);
    if now - seen > HEARTBEAT_TIMEOUT && m.alive then m.(lastSeen := seen, alive := false)
    else m.(lastSeen := seen)
  }

  function OnTick(st: LeaderState, now: int): LeaderState {
    st.(memberLog := map a | a in st.memberLog :: OnTickOne(st.memberLog[a], now))
  }

  ghost predicate TickMarksDown(st: LeaderState, now: int) {
    exists a :: a in st.memberLog && st.memberLog[a].alive && !OnTickOne(st.memberLog[a], now).alive
  }

  function OnRegister(st: LeaderState, addr: Addr, now: int): LeaderState {
    if addr in st.memberLog then
      st.(memberLog := st.memberLog[addr := st.memberLog[addr].(lastSeen := now, alive := true)])
    else
      st.(members := st.members + [addr], memberLog := st.memberLog[addr := Joined(now)])
  }

  predicate IsAlive(log: MemberLog, addr: Addr) {
    addr in log && log[addr].alive
  }

  /** The alive members in order, with their counts. */
  function Candidates(members: seq<Addr>, log: MemberLog): seq<MemberLoad> {
    if members == [] then []
    else
      var a := members[|members| - 1];
      Candidates(members[..|members| - 1], log)
      + (if IsAlive(log, a) then [MemberLoad(a, log[a].messageCnt)] else [])
  }

  function Addrs(loads: seq<MemberLoad>): (r: seq<Addr>)
    ensures |r| == |loads| && forall i :: 0 <= i < |r| ==> r[i] == loads[i].addr
  {
    seq(|loads|, i requires 0 <= i < |loads| => loads[i].addr)
  }

  function CountAck(log: MemberLog, addr: Addr): MemberLog {
    if addr in log then log[addr := log[addr].(messageCnt := log[addr].messageCnt + 1)] else log
  }

  function CountAcks(log: MemberLog, acked: seq<Addr>): MemberLog {
    if acked == [] then log
    else CountAck(CountAcks(log, acked[..|acked| - 1]), acked[|acked| - 1])
  }

  /** The result of a fan-out: every ack counts, and a full set of acks becomes the replica list. */
  function OnCommit(st: LeaderState, id: int, acked: seq<Addr>, tolerance: nat): LeaderState {
    if acked == [] then st
    else
      LeaderState(st.members, CountAcks(st.memberLog, acked),
                  if |acked| >= tolerance then st.msgMap[id := acked] else st.msgMap)
  }

  // ---------------------------------------------------------------- Targets

  datatype Strategy = UseLeastLoaded | UseTwoChoices

  /** The random indices that the second balancer needs: one round for each target, when it has a choice. */
  predicate RollsFit(strategy: Strategy, n: nat, tolerance: nat, rolls: seq<Roll>) {
    strategy.UseTwoChoices? && tolerance < n ==> |rolls| == tolerance && ValidRolls(rolls, n)
  }

  /** What the configured balancer picks. */
  function PickBy(strategy: Strategy, candidates: seq<MemberLoad>, tolerance: nat, rolls: seq<Roll>): seq<MemberLoad>
    requires RollsFit(strategy, |candidates|, tolerance, rolls)
  {
    match strategy
    case UseLeastLoaded => LeastLoaded(candidates, tolerance)
    case UseTwoChoices =>
      if |candidates| <= tolerance then candidates else Duels(candidates, Settled(rolls, |candidates|)).out
  }

  // ---------------------------------------------------------------- What the sections keep

  /** No repeated member, and the two registries agree. */
  ghost predicate MembersOk(st: LeaderState) {
    NoDup(st.members) && Elems(st.members) == st.memberLog.Keys
  }

  /** Every stored id has exactly `tolerance` different replicas, all of them registered. */
  ghost predicate IndexOk(st: LeaderState, tolerance: nat) {
    forall id :: id in st.msgMap ==>
                   && |st.msgMap[id]| == tolerance
                   && NoDup(st.msgMap[id])
                   && Elems(st.msgMap[id]) <= st.memberLog.Keys
  }

  lemma {:induction false} CountAcksEffect(log: MemberLog, acked: seq<Addr>)
    requires NoDup(acked)
    ensures CountAcks(log, acked).Keys == log.Keys
    ensures forall a :: a in log ==>
                          CountAcks(log, acked)[a]
                          == log[a].(messageCnt := log[a].messageCnt + if a in acked then 1 else 0)
  {
    if acked != [] {
      var n := |acked| - 1;
      CountAcksEffect(log, acked[..n]);
      assert acked[n] !in acked[..n];
      assert acked == acked[..n] + [acked[n]];
    }
  }

  /** Neither the counts nor the replica set depend on the order in which the acks arrived. */
  lemma CommitOrderFree(st: LeaderState, id: int, a: seq<Addr>, b: seq<Addr>, tolerance: nat)
    requires NoDup(a) && NoDup(b) && Elems(a) == Elems(b)
    ensures var x, y := OnCommit(st, id, a, tolerance), OnCommit(st, id, b, tolerance);
            && x.memberLog == y.memberLog
            && x.msgMap.Keys == y.msgMap.Keys
            && forall i :: i in x.msgMap ==> Elems(x.msgMap[i]) == Elems(y.msgMap[i])
  {
    NoDupSize(a);
    NoDupSize(b);
    CountAcksEffect(st.memberLog, a);
    CountAcksEffect(st.memberLog, b);
    assert forall m :: m in a <==> m in Elems(a);
    assert forall m :: m in b <==> m in Elems(b);
  }

  lemma {:induction false} CandidatesAre(members: seq<Addr>, log: MemberLog)
    requires NoDup(members)
    ensures DistinctAddrs(Candidates(members, log))
    ensures forall c :: c in Candidates(members, log)
                        <==> c.addr in members && IsAlive(log, c.addr) && c.count == log[c.addr].messageCnt
  {
    if members != [] {
      var n := |members| - 1;
      CandidatesAre(members[..n], log);
      assert members == members[..n] + [members[n]];
      assert members[n] !in members[..n];
    }
  }

  /** The candidates come in the order of the member list. */
  lemma {:induction false} CandidatesInOrder(members: seq<Addr>, log: MemberLog, i: nat, j: nat)
    returns (p: nat, q: nat)
    requires i < j < |Candidates(members, log)|
    ensures p < q < |members|
    ensures members[p] == Candidates(members, log)[i].addr && members[q] == Candidates(members, log)[j].addr
  {
    var n := |members| - 1;
    var earlier := Candidates(members[..n], log);
    if j < |earlier| {
      p, q := CandidatesInOrder(members[..n], log, i, j);
    } else {
      q := n;
      p := CandidateIsMember(members[..n], log, i);
    }
  }

  lemma {:induction false} CandidateIsMember(members: seq<Addr>, log: MemberLog, i: nat) returns (p: nat)
    requires i < |Candidates(members, log)|
    ensures p < |members| && members[p] == Candidates(members, log)[i].addr
  {
    var n := |members| - 1;
    if i < |Candidates(members[..n], log)| {
      p := CandidateIsMember(members[..n], log, i);
    } else {
      p := n;
    }
  }

  /** A leader without a state file starts with the configured members, all alive, uncounted and just seen. */
  lemma StartsWithConfigured(members: seq<Addr>, now: int)
    ensures var st := AtStart(None, members, now);
            && st.members == members && st.msgMap == map[]
            && (forall a :: a in st.memberLog <==> a in members)
            && forall a :: a in members ==>
                             && st.memberLog[a].alive && st.memberLog[a].messageCnt == 0
                             && st.memberLog[a].lastSeen == now && st.memberLog[a].addedAt == now
  {
  }

  // ---------------------------------------------------------------- The server

  class StateFile {
    var saved: Option<LeaderState>

    constructor ()
      ensures saved == None
    {
      saved := None;
    }
  }

  class LeaderServer {
    const tolerance: nat
    const strategy: Strategy
    var members: seq<Addr>
    var memberLog: MemberLog
    var msgMap: map<int, seq<Addr>>

    function View(): LeaderState
      reads this
    {
      LeaderState(members, memberLog, msgMap)
    }

    constructor (initial: seq<Addr>, tolerance: nat, strategy: Strategy, now: int, file: StateFile)
      ensures this.tolerance == tolerance && this.strategy == strategy
      ensures View() == AtStart(file.saved, initial, now)
    {
      this.tolerance := tolerance;
      this.strategy := strategy;
      this.members := initial;
      this.memberLog := map[];
      this.msgMap := map[];
      new;
      var i := 0;
      while i < |initial|
        invariant 0 <= i <= |initial|
        invariant members == initial && msgMap == map[]
        invariant memberLog == map a | a in initial[..i] :: Joined(now)
      {
        memberLog := memberLog[initial[i] := Joined(now)];
        assert initial[..i + 1] == initial[..i] + [initial[i]];
        i := i + 1;
      }
      assert initial[..i] == initial;
      LoadState(file);
    }

    method LoadState(file: StateFile)
      modifies this
      ensures View() == if file.saved.Some? then file.saved.value else old(View())
    {
      if file.saved.Some? {
        members := file.saved.value.members;
        memberLog := file.saved.value.memberLog;
        msgMap := file.saved.value.msgMap;
      }
    }

    method SaveState(file: StateFile)
      modifies file
      ensures file.saved == Some(View())
    {
      file.saved := Some(LeaderState(members, memberLog, msgMap));
    }

    method Heartbeat(addr: Addr, now: int)
      modifies this
      ensures View() == OnHeartbeat(old(View()), addr, now)
    {
      if addr !in memberLog {
        return;
      }
      memberLog := memberLog[addr := memberLog[addr].(lastSeen := now)];
      memberLog := memberLog[addr := memberLog[addr].(alive := true)];
    }

    /** One pass of the watcher, over the members in any order. */
    method WatcherTick(now: int) returns (changed: bool)
      modifies this
      ensures View() == OnTick(old(View()), now)
      ensures changed <==> TickMarksDown(old(View()), now)
    {
      changed := false;
      var todo := memberLog.Keys;
      ghost var was := memberLog;
      while todo != {}
        invariant todo <= was.Keys == memberLog.Keys
        invariant members == old(members) && msgMap == old(msgMap)
        invariant forall a :: a in was ==> memberLog[a] == if a in todo then was[a] else OnTickOne(was[a], now)
        invariant changed <==> exists a :: a in was && a !in todo && was[a].alive && !memberLog[a].alive
        decreases todo
      {
        var a :| a in todo;
        var m := memberLog[a];
        if m.lastSeen == ZERO_TIME {
          m := m.(lastSeen := m.addedAt);
        }
        if now - m.lastSeen > HEARTBEAT_TIMEOUT && m.alive {
          m := m.(alive := false);
          changed := true;
        }
        memberLog := memberLog[a := m];
        todo := todo - {a};
      }
    }

    /** A watcher pass saves the state, in a second critical section, if it marked someone down. */
    method Watch(now: int, file: StateFile)
      modifies this, file
      ensures View() == OnTick(old(View()), now)
      ensures file.saved == if TickMarksDown(old(View()), now) then Some(View()) else old(file.saved)
    {
      var changed := WatcherTick(now);
      if changed {
        SaveState(file);
      }
    }

    /** The locked part of a registration; a new member still has to be saved. */
    method RegisterLocked(addr: Addr, now: int) returns (isNew: bool)
      modifies this
      ensures View() == OnRegister(old(View()), addr, now)
      ensures isNew <==> addr !in old(memberLog)
    {
      if addr in memberLog {
        memberLog := memberLog[addr := memberLog[addr].(alive := true)];
        memberLog := memberLog[addr := memberLog[addr].(lastSeen := now)];
        return false;
      }
      members := members + [addr];
      memberLog := memberLog[addr := Joined(now)];
      return true;
    }

    method RegisterMember(addr: Addr, now: int, file: StateFile)
      modifies this, file
      ensures View() == OnRegister(old(View()), addr, now)
      ensures file.saved == if addr in old(memberLog) then old(file.saved) else Some(View())
    {
      var isNew := RegisterLocked(addr, now);
      if isNew {
        SaveState(file);
      }
    }

    /** The locked snapshot at the start of a store. */
    method Snapshot() returns (candidates: seq<MemberLoad>)
      ensures candidates == Candidates(members, memberLog)
    {
      candidates := [];
      var i := 0;
      while i < |members|
        invariant 0 <= i <= |members|
        invariant candidates == Candidates(members[..i], memberLog)
      {
        var addr := members[i];
        if addr in memberLog && memberLog[addr].alive {
          candidates := candidates + [MemberLoad(addr, memberLog[addr].messageCnt)];
        }
        assert members[..i + 1][..i] == members[..i];
        i := i + 1;
      }
      assert members[..i] == members;
    }

    /** The locked part after a fan-out; `full` says that the replica list was recorded. */
    method Commit(id: int, acked: seq<Addr>) returns (full: bool)
      requires tolerance >= 1
      modifies this
      ensures View() == OnCommit(old(View()), id, acked, tolerance)
      ensures full <==> |acked| >= tolerance
    {
      if |acked| == 0 {
        return false;
      }
      var i := 0;
      while i < |acked|
        invariant 0 <= i <= |acked|
        invariant members == old(members) && msgMap == old(msgMap)
        invariant memberLog == CountAcks(old(memberLog), acked[..i])
      {
        if acked[i] in memberLog {
          var m := memberLog[acked[i]];
          memberLog := memberLog[acked[i] := m.(messageCnt := m.messageCnt + 1)];
        }
        assert acked[..i + 1][..i] == acked[..i];
        i := i + 1;
      }
      assert acked[..i] == acked;
      full := |acked| >= tolerance;
      if full {
        msgMap := msgMap[id := acked];
      }
    }

    /** The snapshot and the balancer's choice on a copy of it. */
    method PickTargets(rolls: seq<Roll>) returns (selected: seq<Addr>)
      requires tolerance >= 1 && RollsFit(strategy, |Candidates(members, memberLog)|, tolerance, rolls)
      ensures selected == Addrs(PickBy(strategy, Candidates(members, memberLog), tolerance, rolls))
      ensures |selected| <= tolerance
    {
      var candidates := Snapshot();
      var scratch := new MemberLoad[|candidates|](i requires 0 <= i < |candidates| => candidates[i]);
      assert scratch[..] == candidates;
      var picked;
      if strategy.UseLeastLoaded? {
        var balancer := new LeastLoadedBalancer();
        picked := balancer.Pick(scratch, tolerance);
        LeastLoadedSplit(candidates, tolerance);
      } else {
        var balancer := new PowerOfTwoChoicesBalancer();
        ghost var rest;
        picked, rest := balancer.Pick(scratch, tolerance, rolls);
        assert |candidates| > tolerance ==> Picked(picked, rest) == Duels(candidates, Settled(rolls, |candidates|));
      }
      selected := Addrs(picked);
    }

    /**
     A store with nothing else running. `answers` says which targets acknowledge, and `order` in which order
     their acks arrive.
     */
    method Store(id: int, rolls: seq<Roll>, answers: Addr -> bool, order: seq<Addr> -> seq<Addr>, file: StateFile)
      returns (ok: bool)
      requires tolerance >= 1 && RollsFit(strategy, |Candidates(members, memberLog)|, tolerance, rolls)
      requires forall acks :: multiset(order(acks)) == multiset(acks)
      modifies this, file
      ensures var targets := Addrs(PickBy(strategy, Candidates(old(members), old(memberLog)), tolerance, rolls));
              && (ok <==> |targets| == tolerance && forall a :: a in targets ==> answers(a))
              && View() == (if |targets| < tolerance then old(View())
                            else OnCommit(old(View()), id, order(Acknowledged(targets, answers)), tolerance))
      ensures file.saved == if ok then Some(View()) else old(file.saved)
    {
      var selected := PickTargets(rolls);
      if |selected| < tolerance {
        return false;
      }
      var acked := [];
      var i := 0;
      while i < |selected|
        invariant 0 <= i <= |selected|
        invariant acked == Acknowledged(selected[..i], answers)
        modifies {}
      {
        if answers(selected[i]) {
          acked := acked + [selected[i]];
        }
        assert selected[..i + 1][..i] == selected[..i];
        i := i + 1;
      }
      assert selected[..i] == selected;
      AcknowledgedAll(selected, answers);
      var successful := order(acked);
      assert |multiset(successful)| == |multiset(acked)|;
      ok := Commit(id, successful);
      if ok {
        SaveState(file);
      }
    }

    /**
     A read with nothing else running. `answers` gives what each member replies, if anything. The first
     alive target with an answer decides; an id without replicas is asked of every member.
     */
    method Retrieve(id: int, answers: Addr -> Option<string>) returns (r: Option<string>)
      ensures var targets := if id in msgMap && |msgMap[id]| > 0 then msgMap[id] else members;
              && (r == None <==> forall k :: 0 <= k < |targets| ==> Silent(memberLog, answers, targets[k]))
              && (r.Some? ==> exists at :: 0 <= at < |targets|
                                           && !Silent(memberLog, answers, targets[at]) && r == answers(targets[at])
                                           && forall k :: 0 <= k < at ==> Silent(memberLog, answers, targets[k]))
    {
      var targets := members;
      if id in msgMap && |msgMap[id]| > 0 {
        targets := msgMap[id];
      }
      var i := 0;
      while i < |targets|
        invariant 0 <= i <= |targets|
        invariant forall k :: 0 <= k < i ==> Silent(memberLog, answers, targets[k])
      {
        if IsAlive(memberLog, targets[i]) {
          var res := answers(targets[i]);
          if res.Some? {
            return res;
          }
        }
        i := i + 1;
      }
      return None;
    }
  }

  /** Nothing comes from this target: it is down, or it does not answer with a text. */
  predicate Silent(log: MemberLog, answers: Addr -> Option<string>, a: Addr) {
    IsAlive(log, a) ==> answers(a) == None
  }

  /** The targets that acknowledge, in target order. */
  function Acknowledged(targets: seq<Addr>, answers: Addr -> bool): seq<Addr> {
    if targets == [] then []
    else
      var n := |targets| - 1;
      Acknowledged(targets[..n], answers) + (if answers(targets[n]) then [targets[n]] else [])
  }

  /** All targets are counted exactly when all of them acknowledge. */
  lemma {:induction false} AcknowledgedAll(targets: seq<Addr>, answers: Addr -> bool)
    ensures |Acknowledged(targets, answers)| <= |targets|
    ensures |Acknowledged(targets, answers)| == |targets| <==> forall a :: a in targets ==> answers(a)
  {
    if targets != [] {
      var n := |targets| - 1;
      AcknowledgedAll(targets[..n], answers);
      assert targets == targets[..n] + [targets[n]];
    }
  }
}
