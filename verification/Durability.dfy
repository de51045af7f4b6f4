/**
 Durability across restarts. Acknowledged stores and saved registrations survive every later run; a
 repeated registration that is acknowledged without a save survives exactly when a restart at that
 moment would already bring the member back.
 */
module Durability {
  import opened Seqs
  import opened Leader
  import opened Cluster
  import opened Invariants

  /** The members that a restart would bring back: those of the state file, or the configured ones. */
  function KeptMembers(cfg: Config, s: Sys): set<Addr> {
    Elems(Restored(cfg, s, 0).state.members)
  }

  function KeptIds(cfg: Config, s: Sys): set<int> {
    Restored(cfg, s, 0).state.msgMap.Keys
  }

  /** What a restart would bring back only grows. */
  lemma StepKeepsKept(cfg: Config, s: Sys, l: Label, t: Sys)
    requires Inv(cfg, s) && Step(cfg, s, l, t)
    ensures KeptMembers(cfg, s) <= KeptMembers(cfg, t)
    ensures KeptIds(cfg, s) <= KeptIds(cfg, t)
  {
    SavedChanges(cfg, s, l, t);
  }

  lemma {:induction false} RunKeepsKept(cfg: Config, run: seq<Sys>, labels: seq<Label>, i: nat, j: nat)
    requires ConfigOk(cfg) && IsRun(cfg, run, labels) && Inv(cfg, run[0]) && i <= j < |run|
    ensures KeptMembers(cfg, run[i]) <= KeptMembers(cfg, run[j])
    ensures KeptIds(cfg, run[i]) <= KeptIds(cfg, run[j])
  {
    if i < j {
      RunKeepsKept(cfg, run, labels, i, j - 1);
      RunKeepsInv(cfg, run, labels, j - 1);
      StepKeepsKept(cfg, run[j - 1], labels[j - 1], run[j]);
    }
  }

  /** After a store has returned Ok its id is indexed in memory and on file for ever. */
  lemma StoreIsDurable(cfg: Config, run: seq<Sys>, labels: seq<Label>, i: nat, sid: int, j: nat)
    requires IsExecution(cfg, run, labels)
    requires i < j < |run| && labels[i] == SaveStore(sid)
    ensures sid in run[i].attempts
    ensures var id := run[i].attempts[sid].id;
            && id in run[j].mem.state.msgMap
            && run[j].saved.Some? && id in run[j].saved.value.state.msgMap
  {
    assert Step(cfg, run[i], labels[i], run[i + 1]);
    ExecutionInv(cfg, run, labels, 0);
    ExecutionInv(cfg, run, labels, i);
    ExecutionInv(cfg, run, labels, j);
    RunKeepsKept(cfg, run, labels, i + 1, j);
    assert run[i].attempts[sid].id in KeptIds(cfg, run[i + 1]);
  }

  /** After a new member's registration has returned Ok it is a member in memory and on file for ever. */
  lemma RegistrationIsDurable(cfg: Config, run: seq<Sys>, labels: seq<Label>, i: nat, rid: int, j: nat)
    requires IsExecution(cfg, run, labels)
    requires i < j < |run| && labels[i] == SaveJoin(rid)
    ensures rid in run[i].joining
    ensures run[i].joining[rid] in run[j].mem.state.members
    ensures run[i].joining[rid] in KeptMembers(cfg, run[j])
  {
    assert Step(cfg, run[i], labels[i], run[i + 1]);
    ExecutionInv(cfg, run, labels, 0);
    ExecutionInv(cfg, run, labels, i);
    ExecutionInv(cfg, run, labels, j);
    RunKeepsKept(cfg, run, labels, i + 1, j);
    assert run[i].joining[rid] in KeptMembers(cfg, run[i + 1]);
  }

  // ---------------------------------------------------------------- Repeated registrations

  /** In every run from here, `a` is a member all along. */
  ghost predicate StaysMember(cfg: Config, s: Sys, a: Addr) {
    forall run: seq<Sys>, labels: seq<Label>, j: nat ::
      IsRun(cfg, run, labels) && run[0] == s && j < |run| ==> a in run[j].mem.state.members
  }

  lemma KeptStays(cfg: Config, s: Sys, a: Addr)
    requires ConfigOk(cfg) && Inv(cfg, s) && a in KeptMembers(cfg, s)
    ensures StaysMember(cfg, s, a)
  {
    forall run: seq<Sys>, labels: seq<Label>, j: nat | IsRun(cfg, run, labels) && run[0] == s && j < |run|
      ensures a in run[j].mem.state.members
    {
      RunKeepsKept(cfg, run, labels, 0, j);
      RunKeepsInv(cfg, run, labels, j);
    }
  }

  lemma UnkeptIsLostInACrash(cfg: Config, s: Sys, a: Addr)
    requires a !in KeptMembers(cfg, s)
    ensures !StaysMember(cfg, s, a)
  {
    var t := DoCrash(cfg, s, 0);
    var run, labels := [s, t], [Crash(0)];
    assert Step(cfg, run[0], labels[0], run[1]);
    assert IsRun(cfg, run, labels);
    assert a !in run[1].mem.state.members;
  }

  /**
   A registration of a known member is answered without a save. The answer is durable if and only if a
   restart before the call would have brought the member back.
   */
  lemma RepeatedRegistrationDurable(cfg: Config, s: Sys, a: Addr, now: int, t: Sys)
    requires ConfigOk(cfg) && Inv(cfg, s) && Step(cfg, s, JoinKnown(a, now), t)
    ensures StaysMember(cfg, t, a) <==> a in KeptMembers(cfg, s)
  {
    StepKeepsInv(cfg, s, JoinKnown(a, now), t);
    assert KeptMembers(cfg, t) == KeptMembers(cfg, s);
    if a in KeptMembers(cfg, s) {
      KeptStays(cfg, t, a);
    } else {
      UnkeptIsLostInACrash(cfg, t, a);
    }
  }

  /** A first registration of `a` has been recorded in memory and still waits for its save. */
  ghost predicate IsJoining(s: Sys, a: Addr) {
    exists rid :: rid in s.joining && s.joining[rid] == a
  }

  /** A member that a restart would lose is still waiting for its first registration to be saved. */
  ghost predicate UnkeptIsJoining(cfg: Config, s: Sys) {
    forall a :: a in s.mem.state.members && a !in KeptMembers(cfg, s) ==> IsJoining(s, a)
  }

  lemma StepKeepsJoining(cfg: Config, s: Sys, l: Label, t: Sys)
    requires UnkeptIsJoining(cfg, s) && Step(cfg, s, l, t)
    ensures UnkeptIsJoining(cfg, t)
  {
    SavedChanges(cfg, s, l, t);
    forall a | a in t.mem.state.members && a !in KeptMembers(cfg, t) ensures IsJoining(t, a) {
      if l.JoinNew? && a == l.a {
        assert t.joining[l.rid] == a;
      } else {
        assert IsJoining(s, a);
        var rid :| rid in s.joining && s.joining[rid] == a;
        assert rid in t.joining && t.joining[rid] == a;
      }
    }
  }

  lemma {:induction false} ExecutionJoining(cfg: Config, run: seq<Sys>, labels: seq<Label>, i: nat)
    requires IsExecution(cfg, run, labels) && i < |run|
    ensures UnkeptIsJoining(cfg, run[i])
  {
    if i > 0 {
      ExecutionJoining(cfg, run, labels, i - 1);
      StepKeepsJoining(cfg, run[i - 1], labels[i - 1], run[i]);
    }
  }

  /** With no first registration of `a` waiting for its save, a repeated one is durable. */
  lemma RepeatedRegistrationAlone(cfg: Config, run: seq<Sys>, labels: seq<Label>, i: nat, a: Addr, now: int)
    requires IsExecution(cfg, run, labels)
    requires i < |labels| && labels[i] == JoinKnown(a, now)
    requires !IsJoining(run[i], a)
    ensures StaysMember(cfg, run[i + 1], a)
  {
    assert Step(cfg, run[i], labels[i], run[i + 1]);
    ExecutionInv(cfg, run, labels, i);
    ExecutionJoining(cfg, run, labels, i);
    assert a in Elems(run[i].mem.state.members);
    RepeatedRegistrationDurable(cfg, run[i], a, now, run[i + 1]);
  }

  /**
   A member that registers anew, registers again before the first call has saved, and is told Ok by the
   second call, is gone after a restart.
   */
  lemma RegisterTwiceThenCrash(cfg: Config, s: Sys, rid: int, a: Addr) returns (run: seq<Sys>, labels: seq<Label>)
    requires a !in s.mem.state.memberLog && a !in KeptMembers(cfg, s) && rid !in s.joining
    ensures IsRun(cfg, run, labels) && run[0] == s
    ensures labels == [JoinNew(rid, a, 1), JoinKnown(a, 2), Crash(3)]
    ensures a in run[2].mem.state.members && a !in run[3].mem.state.members
  {
    var s1 := DoJoinNew(s, rid, a, 1);
    var s2 := s1.(mem := WithState(s1.mem, OnRegister(s1.mem.state, a, 2)));
    run := [s, s1, s2, DoCrash(cfg, s2, 3)];
    labels := [JoinNew(rid, a, 1), JoinKnown(a, 2), Crash(3)];
    assert s2.mem.state.members == s.mem.state.members + [a];
    assert Step(cfg, s, JoinNew(rid, a, 1), s1);
    assert Step(cfg, s1, JoinKnown(a, 2), s2);
  }

  /** A complete run in which that happens: no configured members, and one member registering twice. */
  lemma RepeatedRegistrationCanBeLost() returns (cfg: Config, run: seq<Sys>, labels: seq<Label>)
    ensures IsExecution(cfg, run, labels)
    ensures labels == [JoinNew(0, "m", 1), JoinKnown("m", 2), Crash(3)]
    ensures "m" in run[2].mem.state.members && "m" !in run[3].mem.state.members
  {
    cfg := Config(1, UseLeastLoaded, []);
    run, labels := RegisterTwiceThenCrash(cfg, Init(cfg, 0), 0, "m");
  }
}
