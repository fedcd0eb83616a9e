/** How the fate of a snapshot develops over a run: it only moves forward, and within a known number of turns. */
module PipelineProgress {
  import opened Prelude
  import opened Bridge
  import opened EventRing
  import opened Positions
  import opened Pipeline
  import opened PipelineInvariant
  import opened PipelineTheorems
  import opened PipelineStop

  // --- Fates move forward ---

  /** What can still become of a snapshot. */
  predicate Leads(before: Fate, after: Fate) {
    match before
    case Queued => true
    case Held => !after.Queued? && !after.Evicted?
    case InRing => after.InRing? || after.Overwritten? || after.Delivered?
    case _ => after == before
  }

  /** Everything the past records is still recorded, in the same order. */
  ghost predicate Extends(c: System, d: System) {
    && c.h.arrivals <= d.h.arrivals && c.h.evicted <= d.h.evicted && c.h.popped <= d.h.popped
    && c.h.produced <= d.h.produced && c.h.overwritten <= d.h.overwritten && c.h.taken <= d.h.taken
    && Settled(c.s.worker, c.h.popped) <= Settled(d.s.worker, d.h.popped)
  }

  lemma ExtendsStep(c: System, step: Step)
    requires Enabled(c.s, step) && |c.s.native.queue| <= |c.h.arrivals|
    ensures Extends(c, Stepped(c, step))
  {
    hide Accepted, Fed, Pushed, EventOf;
  }

  lemma {:induction false} RunExtendsHistory(c: System, steps: seq<Step>)
    requires Inv(c) && Run(c, steps).Some?
    ensures Extends(c, Run(c, steps).value)
  {
    hide Inv, Next, Recorded, Settled;
    if steps != [] {
      var front := steps[..|steps| - 1];
      RunExtendsHistory(c, front);
      RunKeepsInv(c, front);
      NativeTally(Run(c, front).value);
      ExtendsStep(Run(c, front).value, Last(steps));
    }
  }

  lemma InLonger(a: seq<nat>, b: seq<nat>, x: nat)
    requires a <= b && x in a
    ensures x in b
  {
    var i :| 0 <= i < |a| && a[i] == x;
    assert b[i] == x;
  }

  lemma PushedStaysPushed(c: System, d: System, p: nat)
    requires Inv(c) && Inv(d) && Extends(c, d) && p < |c.h.arrivals| && p in c.h.produced
    ensures HasFate(d, p, Overwritten) || HasFate(d, p, InRing) || HasFate(d, p, Delivered)
  {
    hide Inv, Settled, Decided, Accepted;
    var k: nat :| k < |c.h.produced| && c.h.produced[k] == p;
    assert d.h.produced[k] == p;
    RingSharesOut(d, k);
  }

  lemma LeftTheRing(c: System, d: System, p: nat)
    requires Inv(c) && Inv(d) && Extends(c, d) && p < |c.h.arrivals|
    ensures HasFate(c, p, Overwritten) ==> HasFate(d, p, Overwritten)
    ensures HasFate(c, p, Delivered) ==> HasFate(d, p, Delivered)
  {
    hide Inv, Settled, Decided, Accepted;
    forall k: nat | k < |c.h.produced| && c.h.produced[k] == p
      ensures d.h.produced[k] == p
      ensures k in c.h.overwritten ==> k in d.h.overwritten
      ensures k in c.h.taken ==> k in d.h.taken
    {
      if k in c.h.overwritten { InLonger(c.h.overwritten, d.h.overwritten, k); }
      if k in c.h.taken { InLonger(c.h.taken, d.h.taken, k); }
    }
  }

  /** Over any run a fate turns only into one that can follow it; the last ones are for good. */
  lemma FateMovesForward(c: System, steps: seq<Step>, p: nat, before: Fate, after: Fate)
    requires Reachable(c) && Run(c, steps).Some? && p < |c.h.arrivals|
    ensures var d := Run(c, steps).value;
            && Inv(c) && Inv(d) && p < |d.h.arrivals|
            && (HasFate(c, p, before) && HasFate(d, p, after) ==> Leads(before, after))
  {
    hide Reachable, Inv, Settled, Decided, Accepted;
    ReachableOk(c);
    RunKeepsInv(c, steps);
    RunExtendsHistory(c, steps);
    var d := Run(c, steps).value;
    hide Run;
    if HasFate(c, p, before) && HasFate(d, p, after) {
      QueueSharesOut(d, p);
      HeldIsUnsettled(c, p);
      HeldIsUnsettled(d, p);
      PushedOnce(d, p);
      var now := FateOf(d, p);
      match before
      case Queued =>
      case Evicted => InLonger(c.h.evicted, d.h.evicted, p);
      case TurnedDown => InLonger(Settled(c.s.worker, c.h.popped), Settled(d.s.worker, d.h.popped), p);
      case Held => InLonger(c.h.popped, d.h.popped, p);
      case Overwritten | Delivered => LeftTheRing(c, d, p);
      case InRing => PushedStaysPushed(c, d, p);
    }
  }

  // --- From the queue through the worker ---

  /** The worker is in its drain loop, or will enter it again. */
  predicate Serves(s: State) {
    Draining(s.worker) || (!s.stop && (s.worker.CheckingStop? || s.worker.PassEnding?))
  }

  /** Until the flag is set the worker serves. */
  lemma {:induction false} ServesUntilStop(capacity: nat, steps: seq<Step>)
    requires capacity > 0 && Run(Start(capacity), steps).Some?
    ensures var s := Run(Start(capacity), steps).value.s; !s.stop ==> Serves(s)
  {
    hide Recorded;
    if steps != [] {
      ServesUntilStop(capacity, steps[..|steps| - 1]);
    }
  }

  predicate InQueue(c: System, p: nat) {
    p >= |c.h.arrivals| - |c.s.native.queue|
  }

  predicate InHand(c: System, p: nat) {
    (c.s.worker.Feeding? || c.s.worker.Pushing?) && c.h.popped != [] && p == Last(c.h.popped)
  }

  /** How many worker steps lie before the next pop, that pop included. */
  function UntilPop(w: Worker): nat {
    match w
    case Popping(_) => 1
    case Pushing(_, _) => 2
    case Feeding(_, _) => 3
    case CheckingStop => 2
    case PassEnding(_) => 3
    case _ => 0
  }

  /**
    * The worker steps after which a waiting snapshot has left queue and worker: three for each one ahead of it, and
    * the rest of a round.
    */
  function Wait(c: System, p: nat): nat {
    if InQueue(c, p) then 3 * (p - (|c.h.arrivals| - |c.s.native.queue|)) + UntilPop(c.s.worker) + 2
    else if c.s.worker.Feeding? then 2
    else 1
  }

  /** Still in queue or worker, with a worker that is going to deal with it. */
  predicate Attended(c: System, p: nat) {
    InHand(c, p) || (InQueue(c, p) && Serves(c.s))
  }

  /** What the invariant says about the two places. */
  predicate PlacesApart(c: System) {
    && |c.s.native.queue| <= |c.h.arrivals|
    && (c.h.popped != [] ==> Last(c.h.popped) < |c.h.arrivals| - |c.s.native.queue|)
  }

  lemma InvPlaces(c: System)
    requires Inv(c)
    ensures PlacesApart(c)
  {
    hide HeldOk, ProducedOk, RingOk, FlowsOk, StatsOk, NativeCountersOk, Accepted, AcceptedAmong;
  }

  /** A step of the worker brings an attended snapshot nearer, and no step takes it further away. */
  lemma WaitStep(c: System, step: Step, p: nat)
    requires Enabled(c.s, step) && PlacesApart(c) && p < |c.h.arrivals|
    ensures var d := Stepped(c, step);
            p < |d.h.arrivals| &&
            (Attended(d, p) ==>
               Attended(c, p) && Wait(d, p) + (if IsWorkerStep(step) then 1 else 0) <= Wait(c, p))
  {
    hide Accepted, Fed, Pushed, EventOf, Displaced;
  }

  lemma {:induction false} WaitRun(c: System, steps: seq<Step>, p: nat)
    requires Inv(c) && Run(c, steps).Some? && p < |c.h.arrivals|
    ensures var d := Run(c, steps).value;
            && p < |d.h.arrivals|
            && (Attended(d, p) ==> Attended(c, p) && Wait(d, p) + WorkerSteps(steps) <= Wait(c, p))
  {
    hide Inv, Next, Recorded, Attended, Wait;
    if steps != [] {
      var front := steps[..|steps| - 1];
      WaitRun(c, front, p);
      RunKeepsInv(c, front);
      InvPlaces(Run(c, front).value);
      WaitStep(Run(c, front).value, Last(steps), p);
    }
  }

  /** After `Wait` steps of a worker that still serves, a snapshot has left queue and worker. */
  lemma WorkerGetsToIt(c: System, steps: seq<Step>, p: nat)
    requires Reachable(c) && Run(c, steps).Some? && p < |c.h.arrivals|
    requires WorkerSteps(steps) >= Wait(c, p)
    ensures var d := Run(c, steps).value;
            && Inv(d) && p < |d.h.arrivals|
            && !HasFate(d, p, Held) && (Serves(d.s) ==> !HasFate(d, p, Queued))
  {
    hide Inv, Reachable, FedPositions;
    ReachableOk(c);
    RunKeepsInv(c, steps);
    WaitRun(c, steps, p);
    HeldIsUnsettled(Run(c, steps).value, p);
    assert Wait(Run(c, steps).value, p) > 0;
  }

  // --- Queued when the flag is set ---

  /** Inside the drain loop the worker stays there while the snapshot is queued; outside it never pops it. */
  lemma StoppedStep(c: System, step: Step, p: nat)
    requires Enabled(c.s, step) && PlacesApart(c) && p < |c.h.arrivals| && c.s.stop
    ensures var d := Stepped(c, step);
            && (InQueue(d, p) ==> InQueue(c, p))
            && (InQueue(d, p) && Draining(c.s.worker) ==> Draining(d.s.worker))
            && (!Draining(c.s.worker) ==> !Draining(d.s.worker) && d.h.popped == c.h.popped)
            && (!step.MakeRoom? ==> d.h.evicted == c.h.evicted)
  {
    hide Accepted, Fed, Pushed, EventOf, Displaced;
  }

  lemma {:induction false} StoppedRun(c: System, steps: seq<Step>, p: nat)
    requires Inv(c) && Run(c, steps).Some? && p < |c.h.arrivals| && c.s.stop
    ensures var d := Run(c, steps).value;
            && d.s.stop && p < |d.h.arrivals|
            && (InQueue(d, p) && Draining(c.s.worker) ==> Draining(d.s.worker))
            && (!Draining(c.s.worker) ==> !Draining(d.s.worker) && d.h.popped == c.h.popped)
            && (CallbackStarts(steps) == 0 ==> d.h.evicted == c.h.evicted)
  {
    if steps != [] {
      var front := steps[..|steps| - 1];
      StoppedRun(c, front, p);
      RunKeepsInv(c, front);
      StopBound(c, steps);
      InvPlaces(Run(c, front).value);
      hide Inv, Next, Recorded, Draining, InQueue;
      ArrivalsGrow(Run(c, front).value, Last(steps));
      StoppedStep(Run(c, front).value, Last(steps), p);
    }
  }

  lemma ArrivalsGrow(c: System, step: Step)
    requires Enabled(c.s, step)
    ensures |c.h.arrivals| <= |Recorded(c, step).arrivals|
  {
  }

  ghost predicate PoppedBy(c: System, steps: seq<Step>, p: nat) {
    Run(c, steps).Some? && p in Run(c, steps).value.h.popped
  }

  /** Once the flag is set, a queued snapshot can still be popped exactly when the worker is inside the drain loop. */
  lemma QueuedAtStopExactly(c: System, p: nat)
    requires Reachable(c) && c.s.stop && p < |c.h.arrivals| && InQueue(c, p)
    ensures Draining(c.s.worker) <==> exists steps: seq<Step> :: PoppedBy(c, steps, p)
  {
    ReachableOk(c);
    QueueSharesOut(c, p);
    if Draining(c.s.worker) {
      var steps := StopCompletes(c);
      RunKeepsInv(c, steps);
      StoppedRun(c, steps, p);
      QueueSharesOut(Run(c, steps).value, p);
      assert PoppedBy(c, steps, p);
    } else {
      forall steps: seq<Step>
        ensures !PoppedBy(c, steps, p)
      {
        if Run(c, steps).Some? {
          StoppedRun(c, steps, p);
        }
      }
    }
  }

  // --- From the ring to the caller ---

  function Takes(steps: seq<Step>): nat {
    if steps == [] then 0 else Takes(steps[..|steps| - 1]) + if Last(steps).Take? then 1 else 0
  }

  /** How many pushed events have left the ring. */
  function Gone(c: System): int {
    |c.h.produced| - |c.s.ring.events|
  }

  /** A poll or drain takes an event as long as the `k`-th pushed one is in the ring, and nothing puts one back. */
  lemma GoneStep(c: System, step: Step, k: nat)
    requires Enabled(c.s, step) && 0 <= Gone(c) && k < |c.h.produced| && (step.Push? ==> c.h.popped != [])
    ensures var d := Stepped(c, step);
            k >= Gone(d) ==> k >= Gone(c) && Gone(d) >= Gone(c) + if step.Take? then 1 else 0
  {
    hide Accepted, Fed, EventOf;
  }

  lemma PushedIsPopped(c: System)
    requires Inv(c)
    ensures c.s.worker.Pushing? ==> c.h.popped != []
    ensures Below(c.h.produced, |c.h.arrivals|)
  {
    hide QueueOk, RingOk, FlowsOk, StatsOk, NativeCountersOk, Accepted, AcceptedAmong;
  }

  lemma {:induction false} GoneRun(c: System, steps: seq<Step>, k: nat)
    requires Inv(c) && Run(c, steps).Some? && k < |c.h.produced|
    ensures var d := Run(c, steps).value;
            k < |d.h.produced| && (k >= Gone(d) ==> k >= Gone(c) && Gone(d) >= Gone(c) + Takes(steps))
  {
    if steps != [] {
      var front := steps[..|steps| - 1];
      GoneRun(c, front, k);
      RunKeepsInv(c, front);
      RingTally(Run(c, front).value);
      PushedIsPopped(Run(c, front).value);
      RunExtendsHistory(c, steps);
      hide Inv, Next, Recorded;
      GoneStep(Run(c, front).value, Last(steps), k);
    }
  }

  /** An event with `n` ahead of it in the ring is delivered or overwritten after more than `n` polls or drains. */
  lemma CallersGetToIt(c: System, steps: seq<Step>, k: nat)
    requires Reachable(c) && Run(c, steps).Some? && k < |c.h.produced|
    requires Takes(steps) > k - Gone(c)
    ensures var d, p := Run(c, steps).value, c.h.produced[k];
            && Inv(d) && p < |d.h.arrivals|
            && (HasFate(d, p, Delivered) || HasFate(d, p, Overwritten))
  {
    hide Inv;
    ReachableOk(c);
    RunKeepsInv(c, steps);
    RunExtendsHistory(c, steps);
    GoneRun(c, steps, k);
    var d, p := Run(c, steps).value, c.h.produced[k];
    PushedIsPopped(d);
    assert d.h.produced[k] == p;
    RingSharesOut(d, k);
  }
}
