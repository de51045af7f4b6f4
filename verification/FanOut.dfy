/**
 The concurrency inside one store: a replication goroutine for each target, a closer that waits for all of
 them, and the receiver that collects results from a buffered channel until it is closed. Targets are
 named by their index.
 */
module FanOut {
  import opened Seqs

  /** A replication goroutine; `Leaving` is on its way to `wg.Done`, with or without having sent. */
  datatype Worker = NotStarted | Replicating | Sending | Leaving(sent: bool) | Gone(sent: bool)

  datatype Main = Launching | Receiving | Finished

  datatype Fan = Fan(
    workers: seq<Worker>,
    main: Main,
    launched: nat,
    wg: int,               // the WaitGroup's counter
    channel: seq<nat>,     // sent and not yet received; the capacity is the number of targets
    closed: bool,
    collected: seq<nat>)

  function Init(n: nat): Fan {
    Fan(seq(n, _ => NotStarted), Launching, 0, 0, [], false, [])
  }

  datatype Label =
    | Launch
    | StartCloser
    | Succeed(i: nat)
    | GiveUp(i: nat)
    | Send(i: nat)
    | Leave(i: nat)
    | Close
    | Receive
    | EndOfChannel

  predicate At(f: Fan, i: nat, w: Worker) {
    i < |f.workers| && f.workers[i] == w
  }

  predicate IsLeaving(f: Fan, i: nat) {
    i < |f.workers| && f.workers[i].Leaving?
  }

  /** A send needs room in the channel; whether the channel is still open is for the proof to show. */
  predicate Enabled(f: Fan, l: Label) {
    match l
    case Launch => f.main == Launching && f.launched < |f.workers|
    case StartCloser => f.main == Launching && f.launched == |f.workers|
    case Succeed(i) => At(f, i, Replicating)
    case GiveUp(i) => At(f, i, Replicating)
    case Send(i) => At(f, i, Sending) && |f.channel| < |f.workers|
    case Leave(i) => IsLeaving(f, i)
    case Close => f.main != Launching && !f.closed && f.wg == 0
    case Receive => f.main == Receiving && f.channel != []
    case EndOfChannel => f.main == Receiving && f.channel == [] && f.closed
  }

  function Next(f: Fan, l: Label): Fan
    requires Enabled(f, l)
  {
    match l
    case Launch => f.(workers := f.workers[f.launched := Replicating], launched := f.launched + 1, wg := f.wg + 1)
    case StartCloser => f.(main := Receiving)
    case Succeed(i) => f.(workers := f.workers[i := Sending])
    case GiveUp(i) => f.(workers := f.workers[i := Leaving(false)])
    case Send(i) => f.(workers := f.workers[i := Leaving(true)], channel := f.channel + [i])
    case Leave(i) => f.(workers := f.workers[i := Gone(f.workers[i].sent)], wg := f.wg - 1)
    case Close => f.(closed := true)
    case Receive => f.(collected := f.collected + [f.channel[0]], channel := f.channel[1..])
    case EndOfChannel => f.(main := Finished)
  }

  // ---------------------------------------------------------------- The invariant

  predicate Active(w: Worker) {
    w.Replicating? || w.Sending? || w.Leaving?
  }

  predicate HasSent(w: Worker) {
    (w.Leaving? || w.Gone?) && w.sent
  }

  function ActiveSet(f: Fan): set<nat> {
    set i | 0 <= i < |f.workers| && Active(f.workers[i])
  }

  function SentSet(f: Fan): set<nat> {
    set i | 0 <= i < |f.workers| && HasSent(f.workers[i])
  }

  ghost predicate Inv(f: Fan) {
    && f.launched <= |f.workers|
    && (forall i :: 0 <= i < |f.workers| ==> (f.workers[i].NotStarted? <==> f.launched <= i))
    && (f.main != Launching ==> f.launched == |f.workers|)
    && f.wg == |ActiveSet(f)|
    && (f.closed ==> f.main != Launching && ActiveSet(f) == {})
    && NoDup(f.collected + f.channel)
    && Elems(f.collected + f.channel) == SentSet(f)
    && (f.main == Finished ==> f.closed && f.channel == [])
  }

  lemma InitInv(n: nat)
    ensures Inv(Init(n))
  {
    assert ActiveSet(Init(n)) == {};
    assert SentSet(Init(n)) == {};
  }

  /** The effect of changing one worker on the two sets. */
  lemma SetWorker(f: Fan, g: Fan, i: nat)
    requires i < |f.workers| == |g.workers|
    requires g.workers == f.workers[i := g.workers[i]]
    ensures ActiveSet(g) == if Active(g.workers[i]) then ActiveSet(f) + {i} else ActiveSet(f) - {i}
    ensures SentSet(g) == if HasSent(g.workers[i]) then SentSet(f) + {i} else SentSet(f) - {i}
  {
  }

  lemma LaunchKeepsInv(f: Fan)
    requires Inv(f) && Enabled(f, Launch)
    ensures Inv(Next(f, Launch))
  {
    SetWorker(f, Next(f, Launch), f.launched);
    assert f.launched !in ActiveSet(f) && f.launched !in SentSet(f);
  }

  lemma OutcomeKeepsInv(f: Fan, l: Label, i: nat)
    requires Inv(f) && Enabled(f, l) && (l == Succeed(i) || l == GiveUp(i))
    ensures Inv(Next(f, l))
  {
    SetWorker(f, Next(f, l), i);
    assert i in ActiveSet(f) && i !in SentSet(f);
    assert ActiveSet(Next(f, l)) == ActiveSet(f);
  }

  lemma SendKeepsInv(f: Fan, i: nat)
    requires Inv(f) && Enabled(f, Send(i))
    ensures Inv(Next(f, Send(i)))
  {
    var g := Next(f, Send(i));
    SetWorker(f, g, i);
    assert i in ActiveSet(f) && i !in SentSet(f);
    assert ActiveSet(g) == ActiveSet(f);
    assert i !in Elems(f.collected + f.channel);
    assert g.collected + g.channel == (f.collected + f.channel) + [i];
  }

  lemma LeaveKeepsInv(f: Fan, i: nat)
    requires Inv(f) && Enabled(f, Leave(i))
    ensures Inv(Next(f, Leave(i)))
  {
    SetWorker(f, Next(f, Leave(i)), i);
    assert i in ActiveSet(f);
  }

  /** Steps of the main goroutine and the closer leave the workers alone. */
  lemma OtherStepsKeepInv(f: Fan, l: Label)
    requires Inv(f) && Enabled(f, l)
    requires l == StartCloser || l == Close || l == Receive || l == EndOfChannel
    ensures Inv(Next(f, l))
  {
    var g := Next(f, l);
    assert ActiveSet(g) == ActiveSet(f) && SentSet(g) == SentSet(f);
    assert g.collected + g.channel == f.collected + f.channel;
  }

  lemma StepKeepsInv(f: Fan, l: Label)
    requires Inv(f) && Enabled(f, l)
    ensures Inv(Next(f, l))
  {
    match l
    case Launch => LaunchKeepsInv(f);
    case Succeed(i) => OutcomeKeepsInv(f, l, i);
    case GiveUp(i) => OutcomeKeepsInv(f, l, i);
    case Send(i) => SendKeepsInv(f, i);
    case Leave(i) => LeaveKeepsInv(f, i);
    case _ => OtherStepsKeepInv(f, l);
  }

  // ---------------------------------------------------------------- Runs

  ghost predicate IsRun(run: seq<Fan>, labels: seq<Label>) {
    && |run| == |labels| + 1
    && forall k :: 0 <= k < |labels| ==> Enabled(run[k], labels[k]) && run[k + 1] == Next(run[k], labels[k])
  }

  lemma {:induction false} RunInv(n: nat, run: seq<Fan>, labels: seq<Label>, k: nat)
    requires IsRun(run, labels) && run[0] == Init(n) && k < |run|
    ensures Inv(run[k]) && |run[k].workers| == n
  {
    if k == 0 {
      InitInv(n);
    } else {
      RunInv(n, run, labels, k - 1);
      StepKeepsInv(run[k - 1], labels[k - 1]);
    }
  }

  function Below(n: nat): (r: set<nat>)
    ensures |r| == n && forall k: nat :: k in r <==> k < n
  {
    if n == 0 then {} else Below(n - 1) + {n - 1}
  }

  /** A worker about to send always finds the channel open and with room. */
  lemma SendsAreSafe(n: nat, run: seq<Fan>, labels: seq<Label>, k: nat, i: nat)
    requires IsRun(run, labels) && run[0] == Init(n) && k < |run|
    requires At(run[k], i, Sending)
    ensures !run[k].closed && |run[k].channel| < n
  {
    RunInv(n, run, labels, k);
    SendingHasRoom(run[k], i);
  }

  lemma SendingHasRoom(f: Fan, i: nat)
    requires Inv(f) && At(f, i, Sending)
    ensures !f.closed && |f.channel| < |f.workers|
  {
    assert i in ActiveSet(f);
    NoDupSize(f.collected + f.channel);
    var all := Below(|f.workers|);
    assert SentSet(f) <= all - {i};
    SubsetSize(SentSet(f), all - {i});
  }

  predicate HasSucceeded(w: Worker) {
    w.Sending? || HasSent(w)
  }

  predicate HasGivenUp(w: Worker) {
    (w.Leaving? || w.Gone?) && !w.sent
  }

  lemma StepRecordsOutcome(f: Fan, l: Label, i: nat)
    requires Inv(f) && Enabled(f, l) && i < |f.workers|
    ensures |Next(f, l).workers| == |f.workers|
    ensures HasSucceeded(Next(f, l).workers[i]) <==> HasSucceeded(f.workers[i]) || l == Succeed(i)
    ensures HasGivenUp(Next(f, l).workers[i]) <==> HasGivenUp(f.workers[i]) || l == GiveUp(i)
  {
  }

  lemma OneMoreLabel(labels: seq<Label>, k: nat, l: Label)
    requires k < |labels|
    ensures l in labels[..k + 1] <==> l in labels[..k] || l == labels[k]
  {
  }

  /** A worker's state tells the outcome of its replication. */
  lemma {:induction false} WorkersRecordOutcomes(n: nat, run: seq<Fan>, labels: seq<Label>, k: nat, i: nat)
    requires IsRun(run, labels) && run[0] == Init(n) && k < |run| && i < n
    ensures |run[k].workers| == n
    ensures HasSucceeded(run[k].workers[i]) <==> Succeed(i) in labels[..k]
    ensures HasGivenUp(run[k].workers[i]) <==> GiveUp(i) in labels[..k]
  {
    hide Next, Inv;
    RunInv(n, run, labels, k);
    if k > 0 {
      WorkersRecordOutcomes(n, run, labels, k - 1, i);
      RunInv(n, run, labels, k - 1);
      StepRecordsOutcome(run[k - 1], labels[k - 1], i);
      OneMoreLabel(labels, k - 1, Succeed(i));
      OneMoreLabel(labels, k - 1, GiveUp(i));
    }
  }

  /**
   When the receiver is done, the replication of every target has either succeeded or been given up, and the
   targets whose replication succeeded have been collected, each once and nothing else.
   */
  lemma CollectsExactlyTheSuccesses(n: nat, run: seq<Fan>, labels: seq<Label>, k: nat)
    requires IsRun(run, labels) && run[0] == Init(n) && k < |run|
    requires run[k].main == Finished
    ensures forall i: nat :: i < n ==> (Succeed(i) in labels[..k] <==> GiveUp(i) !in labels[..k])
    ensures NoDup(run[k].collected)
    ensures forall i: nat :: i in run[k].collected <==> i < n && Succeed(i) in labels[..k]
  {
    RunInv(n, run, labels, k);
    var f := run[k];
    assert f.collected + f.channel == f.collected;
    forall i: nat | i < n
      ensures Succeed(i) in labels[..k] <==> GiveUp(i) !in labels[..k]
      ensures i in SentSet(f) <==> Succeed(i) in labels[..k]
    {
      assert i !in ActiveSet(f);
      WorkersRecordOutcomes(n, run, labels, k, i);
    }
    assert forall i: nat :: i in f.collected <==> i in SentSet(f);
  }

  // ---------------------------------------------------------------- Progress

  function Weight(w: Worker): nat {
    match w
    case NotStarted => 5
    case Replicating => 4
    case Sending => 3
    case Leaving(_) => 1
    case Gone(_) => 0
  }

  function Weights(ws: seq<Worker>): nat {
    if ws == [] then 0 else Weights(ws[..|ws| - 1]) + Weight(ws[|ws| - 1])
  }

  lemma {:induction false} WeightsUpdate(ws: seq<Worker>, i: nat, w: Worker)
    requires i < |ws|
    ensures Weights(ws[i := w]) == Weights(ws) - Weight(ws[i]) + Weight(w)
  {
    var n := |ws| - 1;
    if i == n {
      assert ws[i := w][..n] == ws[..n];
    } else {
      WeightsUpdate(ws[..n], i, w);
      assert ws[i := w][..n] == ws[..n][i := w];
    }
  }

  function Measure(f: Fan): nat {
    Weights(f.workers) + |f.channel| + (if f.closed then 0 else 1)
    + (match f.main case Launching => 2 case Receiving => 1 case Finished => 0)
  }

  lemma StepDecreases(f: Fan, l: Label)
    requires Inv(f) && Enabled(f, l)
    ensures Measure(Next(f, l)) < Measure(f)
  {
    match l
    case Launch => WeightsUpdate(f.workers, f.launched, Replicating);
    case Succeed(i) => WeightsUpdate(f.workers, i, Sending);
    case GiveUp(i) => WeightsUpdate(f.workers, i, Leaving(false));
    case Send(i) => WeightsUpdate(f.workers, i, Leaving(true));
    case Leave(i) => WeightsUpdate(f.workers, i, Gone(f.workers[i].sent));
    case _ =>
  }

  /** Until the receiver is done, something can happen. */
  lemma NeverStuck(f: Fan) returns (l: Label)
    requires Inv(f) && f.main != Finished
    ensures Enabled(f, l)
  {
    if f.main == Launching {
      return if f.launched < |f.workers| then Launch else StartCloser;
    }
    if f.channel != [] {
      return Receive;
    }
    if f.closed {
      return EndOfChannel;
    }
    if ActiveSet(f) == {} {
      return Close;
    }
    var i := AnElement(ActiveSet(f));
    if f.workers[i].Sending? {
      SendingHasRoom(f, i);
    }
    return if f.workers[i].Replicating? then Succeed(i) else if f.workers[i].Sending? then Send(i) else Leave(i);
  }

  lemma {:induction false} RunDecreases(n: nat, run: seq<Fan>, labels: seq<Label>, k: nat)
    requires IsRun(run, labels) && run[0] == Init(n) && k < |run|
    ensures Measure(run[k]) + k <= Measure(Init(n))
  {
    if k > 0 {
      RunDecreases(n, run, labels, k - 1);
      RunInv(n, run, labels, k - 1);
      StepDecreases(run[k - 1], labels[k - 1]);
    }
  }

  lemma {:induction false} InitMeasure(n: nat)
    ensures Measure(Init(n)) == 5 * n + 3
  {
    InitWeights(seq(n, _ => NotStarted));
  }

  lemma {:induction false} InitWeights(ws: seq<Worker>)
    requires forall i :: 0 <= i < |ws| ==> ws[i] == NotStarted
    ensures Weights(ws) == 5 * |ws|
  {
    if ws != [] {
      InitWeights(ws[..|ws| - 1]);
    }
  }

  /** A fan-out over `n` targets takes at most 5 n + 3 steps, and one that can go no further is at its commit. */
  lemma EveryRunReachesTheCommit(n: nat, run: seq<Fan>, labels: seq<Label>)
    requires IsRun(run, labels) && run[0] == Init(n)
    ensures |labels| <= 5 * n + 3
    ensures (forall l :: !Enabled(run[|labels|], l)) ==> run[|labels|].main == Finished
  {
    RunDecreases(n, run, labels, |labels|);
    InitMeasure(n);
    RunInv(n, run, labels, |labels|);
    if run[|labels|].main != Finished {
      var l := NeverStuck(run[|labels|]);
    }
  }
}
