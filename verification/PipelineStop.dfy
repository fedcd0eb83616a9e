/** How the ingest worker comes to an end: what the stop flag does, what it does not, and what stays true afterwards. */
module PipelineStop {
  import opened Prelude
  import opened Bridge
  import opened EventRing
  import opened RuntimeApi
  import opened Pipeline

  predicate IsWorkerStep(step: Step) {
    step.CheckStop? || step.Pop? || step.Feed? || step.Push? || step.EndPass? || step.Leave?
  }

  function WorkerSteps(steps: seq<Step>): nat {
    if steps == [] then 0 else WorkerSteps(steps[..|steps| - 1]) + if IsWorkerStep(Last(steps)) then 1 else 0
  }

  function CallbackStarts(steps: seq<Step>): nat {
    if steps == [] then 0 else CallbackStarts(steps[..|steps| - 1]) + if Last(steps).MakeRoom? then 1 else 0
  }

  /** One more step of a run, and what it adds to both counts. */
  lemma RunGoesOn(c: System, steps: seq<Step>, step: Step)
    requires Run(c, steps).Some? && Enabled(Run(c, steps).value.s, step)
    ensures Run(c, steps + [step]) == Some(Stepped(Run(c, steps).value, step))
    ensures WorkerSteps(steps + [step]) == WorkerSteps(steps) + if IsWorkerStep(step) then 1 else 0
    ensures CallbackStarts(steps + [step]) == CallbackStarts(steps) + if step.MakeRoom? then 1 else 0
  {
    RunExtends(c, steps, step);
    assert (steps + [step])[..|steps|] == steps;
  }

  // --- A bound on the worker's steps ---

  /** Inside the drain loop, which does not look at the flag. */
  predicate Draining(w: Worker) {
    w.Popping? || w.Feeding? || w.Pushing?
  }

  /** The steps a stopped worker outside the drain loop has left, whatever else runs. */
  function Rank(w: Worker): nat {
    match w
    case PassEnding(_) => 3
    case CheckingStop => 2
    case Leaving => 1
    case _ => 0
  }

  /** An upper bound on a stopped worker's remaining steps when no callback starts any more. */
  function Remaining(s: State): nat {
    if Draining(s.worker) then
      3 * (|s.native.queue| + if s.lock.Some? then 1 else 0)
      + if s.worker.Popping? then 4 else if s.worker.Pushing? then 5 else 6
    else Rank(s.worker)
  }

  lemma RemainingStep(s: State, step: Step)
    requires s.stop && Enabled(s, step)
    ensures var t := Next(s, step);
            && t.stop
            && Remaining(t) + (if IsWorkerStep(step) then 1 else 0) <= Remaining(s) + if step.MakeRoom? then 3 else 0
  {
  }

  /** Once the stop flag is set, the worker takes a bounded number of steps, and three for each later callback. */
  lemma {:induction false} StopBound(c: System, steps: seq<Step>)
    requires c.s.stop && Run(c, steps).Some?
    ensures var d := Run(c, steps).value;
            d.s.stop && WorkerSteps(steps) + Remaining(d.s) <= Remaining(c.s) + 3 * CallbackStarts(steps)
  {
    if steps != [] {
      var front := steps[..|steps| - 1];
      StopBound(c, front);
      RemainingStep(Run(c, front).value.s, Last(steps));
    }
  }

  /** Until it returns the worker can always move, if need be after a callback releases the queue lock. */
  lemma WorkerCanMove(s: State)
    requires !s.worker.Returned?
    ensures (exists step: Step :: IsWorkerStep(step) && Enabled(s, step)) || Enabled(s, Append)
  {
    match s.worker
    case CheckingStop => assert Enabled(s, CheckStop);
    case Popping(_) => assert s.lock.None? ==> Enabled(s, Pop);
    case Feeding(_, _) => assert Enabled(s, Feed(0));
    case Pushing(_, _) => assert Enabled(s, Push);
    case PassEnding(_) => assert Enabled(s, EndPass);
    case Leaving => assert Enabled(s, Leave);
  }

  // --- The worker returns ---

  /** Any run after the stop can be completed without another callback: the worker returns within its bound. */
  lemma {:induction false} Completion(c: System, steps: seq<Step>) returns (all: seq<Step>)
    requires c.s.stop && Run(c, steps).Some?
    ensures |steps| <= |all| && all[..|steps|] == steps && Run(c, all).Some? && Run(c, all).value.s.worker.Returned?
    ensures CallbackStarts(all) == CallbackStarts(steps)
    ensures WorkerSteps(all) <= WorkerSteps(steps) + Remaining(Run(c, steps).value.s)
    decreases Remaining(Run(c, steps).value.s), Run(c, steps).value.s.lock.Some?
  {
    StopBound(c, steps);
    var s := Run(c, steps).value.s;
    if s.worker.Returned? {
      all := steps;
    } else {
      WorkerCanMove(s);
      var step :| Enabled(s, step) && (IsWorkerStep(step) || step == Append);
      RemainingStep(s, step);
      RunGoesOn(c, steps, step);
      all := Completion(c, steps + [step]);
      assert all[..|steps|] == all[..|steps| + 1][..|steps|];
    }
  }

  /** From every state with the flag set the worker can return without another callback, within `Remaining` steps. */
  lemma StopCompletes(c: System) returns (steps: seq<Step>)
    requires c.s.stop
    ensures Run(c, steps).Some? && Run(c, steps).value.s.worker.Returned?
    ensures CallbackStarts(steps) == 0 && WorkerSteps(steps) <= Remaining(c.s)
  {
    steps := Completion(c, []);
  }

  /** The first `n` steps of an endless schedule. */
  function Prefix(schedule: nat -> Step, n: nat): seq<Step> {
    seq(n, i requires 0 <= i => schedule(i))
  }

  /** The schedule runs from `c`, and as long as the worker has not returned it gets another turn. */
  ghost predicate Fair(c: System, schedule: nat -> Step) {
    forall n: nat ::
      && Run(c, Prefix(schedule, n)).Some?
      && (Run(c, Prefix(schedule, n)).value.s.worker.Returned? || exists m: nat :: m >= n && IsWorkerStep(schedule(m)))
  }

  lemma PrefixGrows(schedule: nat -> Step, n: nat)
    ensures WorkerSteps(Prefix(schedule, n + 1)) ==
            WorkerSteps(Prefix(schedule, n)) + if IsWorkerStep(schedule(n)) then 1 else 0
    ensures CallbackStarts(Prefix(schedule, n + 1)) ==
            CallbackStarts(Prefix(schedule, n)) + if schedule(n).MakeRoom? then 1 else 0
  {
    assert Prefix(schedule, n + 1)[..n] == Prefix(schedule, n);
  }

  lemma {:induction false} WorkerStepsGrow(schedule: nat -> Step, n: nat, m: nat)
    requires n <= m
    ensures WorkerSteps(Prefix(schedule, n)) <= WorkerSteps(Prefix(schedule, m))
  {
    if n < m {
      WorkerStepsGrow(schedule, n, m - 1);
      PrefixGrows(schedule, m - 1);
    }
  }

  lemma {:induction false} CallbacksStay(schedule: nat -> Step, quiet: nat, n: nat)
    requires forall m: nat :: m >= quiet ==> !schedule(m).MakeRoom?
    ensures CallbackStarts(Prefix(schedule, n)) <= Min(quiet, n)
  {
    if n > 0 {
      CallbacksStay(schedule, quiet, n - 1);
      PrefixGrows(schedule, n - 1);
    }
  }

  ghost predicate ReturnedAfter(c: System, steps: seq<Step>) {
    Run(c, steps).Some? && Run(c, steps).value.s.worker.Returned?
  }

  /** A worker that never returned would take as many steps as one likes. */
  lemma {:induction false} ManySteps(c: System, schedule: nat -> Step, k: nat) returns (n: nat)
    requires Fair(c, schedule) && forall i: nat :: !ReturnedAfter(c, Prefix(schedule, i))
    ensures WorkerSteps(Prefix(schedule, n)) >= k
  {
    n := 0;
    if k > 0 {
      n := ManySteps(c, schedule, k - 1);
      assert !ReturnedAfter(c, Prefix(schedule, n));
      var m: nat :| m >= n && IsWorkerStep(schedule(m));
      WorkerStepsGrow(schedule, n, m);
      PrefixGrows(schedule, m);
      n := m + 1;
    }
  }

  /** In every endless fair schedule in which callbacks cease to start, a stopped worker returns. */
  lemma StopReturns(c: System, schedule: nat -> Step, quiet: nat) returns (n: nat)
    requires c.s.stop && Fair(c, schedule)
    requires forall m: nat :: m >= quiet ==> !schedule(m).MakeRoom?
    ensures ReturnedAfter(c, Prefix(schedule, n))
  {
    if i: nat :| ReturnedAfter(c, Prefix(schedule, i)) {
      n := i;
    } else {
      n := ManySteps(c, schedule, Remaining(c.s) + 3 * quiet + 1);
      CallbacksStay(schedule, quiet, n);
      StopBound(c, Prefix(schedule, n));
    }
  }

  // --- When callbacks keep coming ---

  lemma OutsideStep(s: State, step: Step)
    requires s.stop && !Draining(s.worker) && Enabled(s, step)
    ensures var t := Next(s, step);
            t.stop && !Draining(t.worker) && Rank(t.worker) + (if IsWorkerStep(step) then 1 else 0) == Rank(s.worker)
  {
  }

  /** Outside the drain loop a stopped worker never enters it again. */
  lemma {:induction false} OutsideStaysBounded(c: System, steps: seq<Step>)
    requires c.s.stop && !Draining(c.s.worker) && Run(c, steps).Some?
    ensures var d := Run(c, steps).value;
            d.s.stop && !Draining(d.s.worker) && WorkerSteps(steps) + Rank(d.s.worker) == Rank(c.s.worker)
  {
    if steps != [] {
      hide Next, Recorded;
      var front := steps[..|steps| - 1];
      OutsideStaysBounded(c, front);
      OutsideStep(Run(c, front).value.s, Last(steps));
    }
  }

  /** A popping worker can be given something to pop. */
  lemma Supply(c: System, steps: seq<Step>) returns (more: seq<Step>)
    requires Run(c, steps).Some? && Run(c, steps).value.s.worker.Popping?
    ensures Run(c, more).Some? && WorkerSteps(more) == WorkerSteps(steps)
    ensures var s := Run(c, more).value.s; s.worker.Popping? && s.lock.None? && s.native.queue != []
  {
    hide Recorded;
    more := steps;
    var s := Run(c, steps).value.s;
    if s.lock.None? && s.native.queue == [] {
      var snapshot := Snapshot(0, 4, 6, 0, 443, false, seq(16, _ => 0), 0);
      RunGoesOn(c, more, MakeRoom(snapshot));
      more := more + [MakeRoom(snapshot)];
    }
    if Run(c, more).value.s.lock.Some? {
      RunGoesOn(c, more, Append);
      more := more + [Append];
    }
  }

  /** Inside the drain loop callbacks can always bring about one more step of the worker, and one that stays inside. */
  lemma OneMoreStep(c: System, steps: seq<Step>) returns (more: seq<Step>)
    requires Run(c, steps).Some? && Draining(Run(c, steps).value.s.worker)
    ensures Run(c, more).Some? && Draining(Run(c, more).value.s.worker) && WorkerSteps(more) == WorkerSteps(steps) + 1
  {
    hide Recorded;
    more := steps;
    var w := Run(c, steps).value.s.worker;
    if w.Popping? {
      more := Supply(c, steps);
    }
    var step := if w.Popping? then Pop else if w.Feeding? then Feed(0) else Push;
    RunGoesOn(c, more, step);
    more := more + [step];
  }

  /** The drain loop does not look at the flag: there are runs with any number of steps that never leave it. */
  lemma {:induction false} StopCanBeOutrun(c: System, n: nat) returns (steps: seq<Step>)
    requires Draining(c.s.worker)
    ensures Run(c, steps).Some? && Draining(Run(c, steps).value.s.worker) && WorkerSteps(steps) == n
  {
    steps := [];
    if n > 0 {
      steps := StopCanBeOutrun(c, n - 1);
      steps := OneMoreStep(c, steps);
    }
  }

  /** No run from `c` has more than `b` steps of the worker. */
  ghost predicate BoundedBy(c: System, b: nat) {
    forall steps: seq<Step> :: Run(c, steps).Some? ==> WorkerSteps(steps) <= b
  }

  /** Whatever callbacks do, a stopped worker's remaining steps are bounded exactly outside the drain loop. */
  lemma StopBoundedExactly(c: System)
    requires c.s.stop
    ensures !Draining(c.s.worker) <==> exists b: nat :: BoundedBy(c, b)
  {
    if !Draining(c.s.worker) {
      forall steps: seq<Step> | Run(c, steps).Some?
        ensures WorkerSteps(steps) <= Rank(c.s.worker)
      {
        OutsideStaysBounded(c, steps);
      }
      assert BoundedBy(c, Rank(c.s.worker));
    } else {
      forall b: nat
        ensures !BoundedBy(c, b)
      {
        var steps := StopCanBeOutrun(c, b + 1);
        assert Run(c, steps).Some? && WorkerSteps(steps) > b;
      }
    }
  }

  /** A stop may well arrive inside the drain loop, whatever the ring's capacity. */
  lemma StopWhileDraining(capacity: nat)
    requires capacity > 0
    ensures var c := Run(Start(capacity), [CheckStop, RequestStop]);
            c.Some? && Reachable(c.value) && c.value.s.stop && Draining(c.value.s.worker)
  {
    hide Recorded;
    var c := Start(capacity);
    RunExtends(c, [], CheckStop);
    assert [] + [CheckStop] == [CheckStop];
    RunExtends(c, [CheckStop], RequestStop);
    assert [CheckStop] + [RequestStop] == [CheckStop, RequestStop];
  }

  // --- After the worker ---

  /** What is still to come out of the ring, after what already came out. */
  function Outflow(s: State): seq<RuntimeEvent> {
    s.delivered + Converted(s.ring.events)
  }

  lemma TakeMovesOutflow(s: State, max: nat)
    requires max > 0
    ensures Outflow(Next(s, Take(max))) == Outflow(s)
  {
    hide ToRuntime;
    var k := TakeCount(s.ring, max);
    assert Converted(s.ring.events) == Converted(s.ring.events[..k]) + Converted(s.ring.events[k..]);
  }

  /** After the worker returned nothing is popped, fed or pushed any more, whatever else runs. */
  lemma {:induction false} NothingAfterReturn(c: System, steps: seq<Step>)
    requires c.s.worker.Returned? && Run(c, steps).Some?
    ensures var d := Run(c, steps).value;
            && d.s.worker.Returned? && d.s.stats == c.s.stats && d.s.flows == c.s.flows
            && d.h.popped == c.h.popped && d.h.produced == c.h.produced && Outflow(d.s) == Outflow(c.s)
  {
    hide Outflow;
    if steps != [] {
      var front := steps[..|steps| - 1];
      NothingAfterReturn(c, front);
      ReturnedStep(Run(c, front).value, Last(steps));
    }
  }

  lemma ReturnedStep(c: System, step: Step)
    requires c.s.worker.Returned? && Enabled(c.s, step)
    ensures var d := Stepped(c, step);
            && d.s.worker.Returned? && d.s.stats == c.s.stats && d.s.flows == c.s.flows
            && d.h.popped == c.h.popped && d.h.produced == c.h.produced && Outflow(d.s) == Outflow(c.s)
  {
    if step.Take? {
      TakeMovesOutflow(c.s, step.max);
    }
  }
}
