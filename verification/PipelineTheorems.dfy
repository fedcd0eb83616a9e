/** What holds in every run of the pipeline: conservation, order and accounting. */
module PipelineTheorems {
  import opened Prelude
  import opened TransportTypes
  import opened FlowTypes
  import opened FlowTable
  import opened Bridge
  import opened NativeObserver
  import opened EventRing
  import opened RuntimeApi
  import opened Ingest
  import opened Positions
  import opened Pipeline
  import opened PipelineInvariant

  lemma {:induction false} RunKeepsInv(c: System, steps: seq<Step>)
    requires Inv(c) && Run(c, steps).Some?
    ensures Inv(Run(c, steps).value)
  {
    if steps != [] {
      var front := steps[..|steps| - 1];
      RunKeepsInv(c, front);
      InvStep(Run(c, front).value, Last(steps));
    }
  }

  lemma ReachableOk(c: System)
    requires Reachable(c)
    ensures Inv(c)
  {
    var capacity: nat, steps :| capacity > 0 && Run(Start(capacity), steps) == Some(c);
    StartOk(capacity);
    RunKeepsInv(Start(capacity), steps);
  }

  // --- Conservation ---

  /** Snapshots the worker has popped but neither turned down nor pushed. */
  function InFlight(w: Worker): nat {
    if w.Feeding? || w.Pushing? then 1 else 0
  }

  /** Popped snapshots the worker has turned down. */
  ghost function Rejections(c: System): nat
    requires Inv(c)
  {
    |Decided(c.s.worker, c.h.popped)| - |FedPositions(c)|
  }

  lemma NativeTally(c: System)
    requires Inv(c)
    ensures |c.h.arrivals| == |c.h.evicted| + |c.h.popped| + |c.s.native.queue| && |c.s.native.queue| <= QUEUE_CAPACITY
  {
    hide RingOk, FlowsOk, StatsOk, NativeCountersOk, HeldOk, Accepted, AcceptedAmong;
  }

  lemma RingTally(c: System)
    requires Inv(c)
    ensures |c.h.produced| == |c.h.overwritten| + |c.s.ring.events| + |c.s.delivered|
    ensures |c.s.ring.events| <= c.s.ring.capacity
  {
    hide QueueOk, FlowsOk, StatsOk, NativeCountersOk, Accepted, AcceptedAmong, ToRuntime;
  }

  /** A popped snapshot was turned down, is in flight or was pushed. */
  lemma WorkerTally(c: System)
    requires Inv(c)
    ensures |c.h.popped| == Rejections(c) + InFlight(c.s.worker) + |c.h.produced|
  {
    hide QueueOk, RingOk, FlowsOk, StatsOk, NativeCountersOk, Accepted, AcceptedAmong;
    if InFlight(c.s.worker) == 1 {
      var front, p := c.h.popped[..|c.h.popped| - 1], Last(c.h.popped);
      assert c.h.popped == front + [p];
      AcceptedAppend(front, p, c.h.arrivals);
    }
  }

  /** The snapshots that arrived add up, and both queues stay within their capacity. */
  lemma Conservation(c: System)
    requires Reachable(c)
    ensures Inv(c)
    ensures |c.h.arrivals| == |c.h.evicted| + |c.s.native.queue| + Rejections(c) + InFlight(c.s.worker)
                              + |c.h.overwritten| + |c.s.ring.events| + |c.s.delivered|
    ensures |c.s.native.queue| <= 4096 && |c.s.ring.events| <= c.s.ring.capacity
  {
    hide Reachable, Inv, Rejections;
    ReachableOk(c);
    NativeTally(c);
    WorkerTally(c);
    RingTally(c);
  }

  /** What became of a snapshot, by its arrival position. */
  datatype Fate = Evicted | Queued | TurnedDown | Held | Overwritten | InRing | Delivered

  ghost predicate HasFate(c: System, p: nat, fate: Fate)
    requires Inv(c) && p < |c.h.arrivals|
  {
    var s, h := c.s, c.h;
    match fate
    case Evicted => p in h.evicted
    case Queued => p >= |h.arrivals| - |s.native.queue|
    case TurnedDown => p in Decided(s.worker, h.popped) && !Accepted(h.arrivals[p])
    case Held => (s.worker.Feeding? || s.worker.Pushing?) && p == Last(h.popped)
    case Overwritten => exists k: nat :: k < |h.produced| && h.produced[k] == p && k in h.overwritten
    case InRing => exists k: nat :: k < |h.produced| && h.produced[k] == p && k >= |h.produced| - |s.ring.events|
    case Delivered => exists k: nat :: k < |h.produced| && h.produced[k] == p && k in h.taken
  }

  /** Evicted, popped, queued: one of the three. */
  lemma QueueSharesOut(c: System, p: nat)
    requires Inv(c) && p < |c.h.arrivals|
    ensures p in c.h.evicted ==> p !in c.h.popped && p < |c.h.arrivals| - |c.s.native.queue|
    ensures p in c.h.popped ==> p < |c.h.arrivals| - |c.s.native.queue|
    ensures p in c.h.evicted || p in c.h.popped || p >= |c.h.arrivals| - |c.s.native.queue|
  {
    hide HeldOk, RingOk, FlowsOk, StatsOk, NativeCountersOk, Accepted, AcceptedAmong;
  }

  /** Overwritten, taken, in the ring: one of the three. */
  lemma RingSharesOut(c: System, k: nat)
    requires Inv(c) && k < |c.h.produced|
    ensures k in c.h.overwritten ==> k !in c.h.taken && k < |c.h.produced| - |c.s.ring.events|
    ensures k in c.h.taken ==> k < |c.h.produced| - |c.s.ring.events|
    ensures k in c.h.overwritten || k in c.h.taken || k >= |c.h.produced| - |c.s.ring.events|
  {
    hide QueueOk, HeldOk, FlowsOk, StatsOk, NativeCountersOk, Accepted, AcceptedAmong;
  }

  lemma LastApart(s: seq<nat>, p: nat)
    requires s != [] && Increasing(s)
    ensures p in s <==> p in s[..|s| - 1] || p == Last(s)
    ensures Last(s) !in s[..|s| - 1]
  {
    assert s == s[..|s| - 1] + [Last(s)];
  }

  /** Of the popped snapshots those dealt with are all but the one the worker holds. */
  lemma HeldIsUnsettled(c: System, p: nat)
    requires Inv(c) && p < |c.h.arrivals|
    ensures p in Settled(c.s.worker, c.h.popped) ==> p in c.h.popped
    ensures HasFate(c, p, Held) <==> p in c.h.popped && p !in Settled(c.s.worker, c.h.popped)
    ensures HasFate(c, p, TurnedDown) <==> p in Settled(c.s.worker, c.h.popped) && !Accepted(c.h.arrivals[p])
  {
    hide RingOk, FlowsOk, StatsOk, NativeCountersOk, Accepted, AcceptedAmong, ProducedOk, FedPositions;
    assert Increasing(c.h.popped);
    hide QueueOk, Increasing, Below;
    if c.h.popped != [] {
      LastApart(c.h.popped, p);
    }
  }

  /** The events pushed are those of the accepted snapshots dealt with, each pushed once. */
  lemma PushedOnce(c: System, p: nat)
    requires Inv(c) && p < |c.h.arrivals|
    ensures p in c.h.produced <==> p in Settled(c.s.worker, c.h.popped) && Accepted(c.h.arrivals[p])
    ensures forall j: nat, k: nat :: j < k < |c.h.produced| ==> c.h.produced[j] != c.h.produced[k]
  {
    hide QueueOk, RingOk, FlowsOk, StatsOk, NativeCountersOk, Accepted;
    AcceptedExactlyThose(Settled(c.s.worker, c.h.popped), c.h.arrivals, p);
    ProducedIncreasing(c);
  }

  /** Every snapshot that ever arrived has exactly one fate. */
  lemma OneFate(c: System, p: nat) returns (fate: Fate)
    requires Reachable(c)
    ensures Inv(c)
    ensures p < |c.h.arrivals| ==> HasFate(c, p, fate) && forall other :: HasFate(c, p, other) ==> other == fate
    ensures p < |c.h.arrivals| ==> (fate == Delivered <==> p in DeliveredFrom(c))
  {
    hide Reachable, Inv, HasFate, DeliveredFrom;
    ReachableOk(c);
    fate := Evicted;
    if p < |c.h.arrivals| {
      DeliveredIsTaken(c, p);
      fate := FateOf(c, p);
    }
  }

  /** The fate of a position, wherever the invariant holds. */
  lemma FateOf(c: System, p: nat) returns (fate: Fate)
    requires Inv(c) && p < |c.h.arrivals|
    ensures HasFate(c, p, fate) && forall other :: HasFate(c, p, other) ==> other == fate
  {
    hide Inv, Accepted, Settled, Decided;
    QueueSharesOut(c, p);
    PushedOnce(c, p);
    HeldIsUnsettled(c, p);
    if p in c.h.popped {
      fate := PoppedFate(c, p);
    } else {
      fate := if p >= |c.h.arrivals| - |c.s.native.queue| then Queued else Evicted;
    }
  }

  lemma DeliveredIsTaken(c: System, p: nat)
    requires Inv(c) && p < |c.h.arrivals|
    ensures HasFate(c, p, Delivered) <==> p in DeliveredFrom(c)
  {
    hide QueueOk, HeldOk, ProducedOk, FlowsOk, StatsOk, NativeCountersOk, Accepted, AcceptedAmong, ToRuntime;
    var from := DeliveredFrom(c);
    forall i | 0 <= i < |from|
      ensures from[i] == c.h.produced[c.h.taken[i]] && c.h.taken[i] in c.h.taken
    {
    }
    if k: nat :| k < |c.h.produced| && c.h.produced[k] == p && k in c.h.taken {
      var i :| 0 <= i < |c.h.taken| && c.h.taken[i] == k;
      assert from[i] == p;
    }
  }

  lemma PoppedFate(c: System, p: nat) returns (fate: Fate)
    requires Inv(c) && p < |c.h.arrivals| && p in c.h.popped
    ensures HasFate(c, p, fate) && forall other :: HasFate(c, p, other) ==> other == fate
  {
    hide Inv, Accepted, Settled, Decided;
    QueueSharesOut(c, p);
    PushedOnce(c, p);
    HeldIsUnsettled(c, p);
    if p in c.h.produced {
      var k: nat :| k < |c.h.produced| && c.h.produced[k] == p;
      RingSharesOut(c, k);
      fate := if k in c.h.overwritten then Overwritten else if k in c.h.taken then Delivered else InRing;
    } else {
      fate := if p in Settled(c.s.worker, c.h.popped) then TurnedDown else Held;
    }
  }

  /** The counters a caller can read are the true counts: wrapped for the native atomics, saturated in Rust. */
  lemma CountersTell(c: System)
    requires Reachable(c)
    ensures Inv(c)
    ensures c.s.native.dropped == |c.h.evicted| % 0x1_0000_0000_0000_0000
    ensures |c.h.arrivals| >= c.s.uncounted
    ensures c.s.native.events == (|c.h.arrivals| - c.s.uncounted) % 0x1_0000_0000_0000_0000
    ensures c.s.ring.dropped == Min(|c.h.overwritten|, 0xFFFF_FFFF_FFFF_FFFF)
    ensures c.s.stats.seen == Min(|c.h.popped|, 0xFFFF_FFFF_FFFF_FFFF)
    ensures c.s.stats.normalized == Min(|FedPositions(c)|, 0xFFFF_FFFF_FFFF_FFFF)
    ensures c.s.stats.rejected == Min(Rejections(c), 0xFFFF_FFFF_FFFF_FFFF)
    ensures !c.s.worker.Feeding? && |c.h.popped| <= 0xFFFF_FFFF_FFFF_FFFF ==>
              c.s.stats.seen == c.s.stats.normalized + c.s.stats.rejected
  {
    ReachableOk(c);
  }

  /** How many steps had been taken when the worker last read the drop counter. */
  function LastRead(steps: seq<Step>): (n: nat)
    ensures n <= |steps|
  {
    if steps == [] then 0
    else if Last(steps).EndPass? || Last(steps).Leave? then |steps|
    else LastRead(steps[..|steps| - 1])
  }

  lemma DropsStep(c: System, step: Step)
    requires Enabled(c.s, step) && !step.EndPass? && !step.Leave?
    ensures Next(c.s, step).stats.observerDropped == c.s.stats.observerDropped
    ensures |c.h.evicted| <= |Recorded(c, step).evicted|
  {
  }

  /** The drops the worker reports are those counted when it last looked; evictions only grow since. */
  lemma {:induction false} DropsAsLastRead(capacity: nat, steps: seq<Step>)
    requires capacity > 0 && Run(Start(capacity), steps).Some?
    ensures var read := Run(Start(capacity), steps[..LastRead(steps)]);
            var c := Run(Start(capacity), steps).value;
            && read.Some? && c.s.stats.observerDropped == read.value.s.native.dropped
            && |read.value.h.evicted| <= |c.h.evicted|
  {
    hide Recorded;
    if steps == [] || Last(steps).EndPass? || Last(steps).Leave? {
      assert steps[..|steps|] == steps;
    } else {
      hide Next;
      var front := steps[..|steps| - 1];
      DropsAsLastRead(capacity, front);
      DropsStep(Run(Start(capacity), front).value, Last(steps));
      assert steps[..LastRead(steps)] == front[..LastRead(front)];
    }
  }

  /** So they are the wrapped count of evictions up to some moment. */
  lemma ReportedDrops(c: System) returns (evicted: nat)
    requires Reachable(c)
    ensures evicted <= |c.h.evicted| && c.s.stats.observerDropped == Wrapping(evicted)
  {
    var capacity: nat, steps :| capacity > 0 && Run(Start(capacity), steps) == Some(c);
    DropsAsLastRead(capacity, steps);
    var before := steps[..LastRead(steps)];
    assert Reachable(Run(Start(capacity), before).value);
    CountersTell(Run(Start(capacity), before).value);
    evicted := |Run(Start(capacity), before).value.h.evicted|;
  }

  // --- Order ---

  /** The arrival positions of the delivered events. */
  ghost function DeliveredFrom(c: System): (r: seq<nat>)
    requires Inv(c)
    ensures |r| == |c.s.delivered|
  {
    seq(|c.h.taken|, i requires 0 <= i < |c.h.taken| => c.h.produced[c.h.taken[i]])
  }

  /** What callers receive, by any mix of polls and drains, are images of accepted snapshots at increasing positions. */
  lemma DeliveryInOrder(c: System)
    requires Reachable(c)
    ensures Inv(c) && Increasing(DeliveredFrom(c)) && Below(DeliveredFrom(c), |c.h.arrivals|)
    ensures forall i :: 0 <= i < |c.s.delivered| ==>
              var snapshot := c.h.arrivals[DeliveredFrom(c)[i]];
              Accepted(snapshot) && c.s.delivered[i] == ToRuntime(EventOf(snapshot))
  {
    hide Reachable, QueueOk, FlowsOk, StatsOk, NativeCountersOk, HeldOk, Accepted, AcceptedAmong, ToRuntime;
    ReachableOk(c);
    ProducedIncreasing(c);
    var made := EventsAt(c.h.produced, c.h.arrivals);
    forall i | 0 <= i < |c.s.delivered|
      ensures c.s.delivered[i] == ToRuntime(made[c.h.taken[i]])
    {
    }
  }

  lemma ProducedIncreasing(c: System)
    requires Inv(c)
    ensures Increasing(c.h.produced)
  {
    var settled := Settled(c.s.worker, c.h.popped);
    assert Increasing(settled) && Below(settled, |c.h.arrivals|);
    AcceptedIncreasing(settled, c.h.arrivals);
  }

  /** So the protocol number and remote port a caller reads are those of a snapshot the callback queued. */
  lemma DeliveredFieldsAreTrue(c: System, i: nat)
    requires Reachable(c) && i < |c.s.delivered|
    ensures Inv(c)
    ensures var snapshot, e := c.h.arrivals[DeliveredFrom(c)[i]], c.s.delivered[i];
            && e.kind == 1 && e.protocol == snapshot.protocol && e.remotePort == snapshot.remotePort
            && (e.protocol == 6 || e.protocol == 17) && (snapshot.ipVersion == 4 || snapshot.ipVersion == 6)
  {
    DeliveryInOrder(c);
    SnapshotFieldsSurvive(c.h.arrivals[DeliveredFrom(c)[i]]);
  }

  /**
    * While neither queue has overflowed nothing is missing: delivered and held events are those of every accepted
    * snapshot dealt with.
    */
  lemma LosslessWhileWithinCapacity(c: System)
    requires Reachable(c) && c.h.evicted == [] && c.h.overwritten == []
    ensures Inv(c)
    ensures var dealtWith := c.h.arrivals[..|Settled(c.s.worker, c.h.popped)|];
            c.s.delivered + Converted(c.s.ring.events) == Converted(Normalized(dealtWith))
  {
    ReachableOk(c);
    var h, settled := c.h, Settled(c.s.worker, c.h.popped);
    IncreasingFull(h.popped);
    NormalizedAt(settled, h.arrivals);
    RingIsLossless(c.s.ring, c.s.delivered, EventsAt(h.produced, h.arrivals), h.taken);
  }

  /** A ring that has overwritten nothing: what was made is what was taken and what is held. */
  lemma RingIsLossless(r: Ring, delivered: seq<RuntimeEvent>, made: seq<NetworkEvent>, taken: seq<nat>)
    requires RingOk(r, delivered, made, [], taken)
    ensures delivered + Converted(r.events) == Converted(made)
  {
    hide ToRuntime;
    IncreasingFull(taken);
    var k, all := |delivered|, Converted(made);
    assert forall i :: 0 <= i < k ==> delivered[i] == all[i];
    assert forall i :: 0 <= i < |r.events| ==> Converted(r.events)[i] == all[k + i];
  }

  /** Selecting the accepted ones among the first `n` positions is normalizing the first `n` snapshots. */
  lemma {:induction false} NormalizedAt(s: seq<nat>, log: seq<Snapshot>)
    requires |s| <= |log| && forall i :: 0 <= i < |s| ==> s[i] == i
    ensures Below(s, |log|) && EventsAt(AcceptedAmong(s, log), log) == Normalized(log[..|s|])
  {
    hide Accepted, EventOf, EventsAt;
    if s != [] {
      var front, n := s[..|s| - 1], |s| - 1;
      NormalizedAt(front, log);
      assert log[..|s|][..n] == log[..n] && Last(log[..|s|]) == log[n];
      assert s == front + [n];
      AcceptedAppend(front, n, log);
      if Accepted(log[n]) {
        EventsAppend(AcceptedAmong(front, log), n, log);
      } else {
        assert AcceptedAmong(s, log) == AcceptedAmong(front, log);
        assert Normalized(log[..|s|]) == Normalized(log[..n]);
      }
    }
  }

  // --- The flow table ---

  /** Below saturation the packets of all flows together are the events normalized, and each flow counts its own. */
  lemma FlowAccounting(c: System)
    requires Reachable(c) && |c.h.popped| <= MAX_U64
    ensures Inv(c) && PacketTotal(c.s.flows) == c.s.stats.normalized
    ensures forall key :: key in c.s.flows ==> c.s.flows[key].packets == CountOf(FedPositions(c), c.h.arrivals, key) > 0
  {
    ReachableOk(c);
  }

  // --- One snapshot all the way ---

  /** The steps of one callback, one pass of the worker and one poll. */
  function OneTrip(s: Snapshot, now: int): seq<Step> {
    [MakeRoom(s), Append, CountEvent, CheckStop, Pop, Feed(now), Push, Take(1)]
  }

  /** From a fresh start an accepted snapshot reaches table and caller as what it was. */
  lemma AcceptedTrip(s: Snapshot, now: int, capacity: nat)
    requires capacity > 0 && (s.ipVersion == 4 || s.ipVersion == 6) && (s.protocol == 6 || s.protocol == 17)
    requires s.remotePort != 0 || s.localPort != 0
    ensures var c := Run(Start(capacity), OneTrip(s, now));
            && c.Some? && |c.value.s.delivered| == 1
            && var e, key := c.value.s.delivered[0],
                             FlowKey(if s.protocol == 6 then Tcp else Udp, s.remoteAddr, s.remotePort, s.localPort);
               && e.kind == 1 && e.protocol == s.protocol && e.remotePort == s.remotePort
               && (e.errorCode - s.resultCode) % 0x1_0000_0000 == 0
               && c.value.s.flows ==
                  map[key := FlowState(FlowContext(key.protocol, s.remoteAddr, s.remotePort), now, now, 1, 0)]
               && c.value.s.stats == Stats(1, 1, 0, 0) && c.value.s.native == Native([], 0, 1)
  {
    hide Run, Recorded, Next, OneTrip;
    TripRuns(s, now, capacity);
  }

  /** The snapshot is in the worker's hands. */
  lemma TripToWorker(s: Snapshot, capacity: nat)
    requires capacity > 0
    ensures var c := Run(Start(capacity), [MakeRoom(s), Append, CountEvent] + [CheckStop] + [Pop]);
            && c.Some?
            && c.value.s == State(Native([], 0, 1), None, 0, Feeding(s, 1), Stats(1, 0, 0, 0), map[],
                                  Ring(capacity, [], 0), false, [])
  {
    hide Recorded;
    var c := Start(capacity);
    RunExtends(c, [], MakeRoom(s));
    assert [] + [MakeRoom(s)] == [MakeRoom(s)];
    RunExtends(c, [MakeRoom(s)], Append);
    assert [MakeRoom(s)] + [Append] == [MakeRoom(s), Append];
    RunExtends(c, [MakeRoom(s), Append], CountEvent);
    var queued := [MakeRoom(s), Append, CountEvent];
    assert [MakeRoom(s), Append] + [CountEvent] == queued;
    RunExtends(c, queued, CheckStop);
    RunExtends(c, queued + [CheckStop], Pop);
  }

  lemma TripRuns(s: Snapshot, now: int, capacity: nat)
    requires capacity > 0 && Accepted(s)
    ensures Run(Start(capacity), OneTrip(s, now)).Some?
    ensures var c := Run(Start(capacity), OneTrip(s, now)).value.s;
            && c.delivered == [ToRuntime(EventOf(s))] && c.flows == Fed(map[], s, now)
            && c.stats == Stats(1, 1, 0, 0) && c.native == Native([], 0, 1)
  {
    hide Recorded, Accepted, EventOf, Fed, ToRuntime, Run;
    var c, popped := Start(capacity), [MakeRoom(s), Append, CountEvent] + [CheckStop] + [Pop];
    TripToWorker(s, capacity);
    RunExtends(c, popped, Feed(now));
    RunExtends(c, popped + [Feed(now)], Push);
    RunExtends(c, popped + [Feed(now)] + [Push], Take(1));
    assert popped + [Feed(now)] + [Push] + [Take(1)] == OneTrip(s, now);
  }

  // --- The step system and the worker's code ---

  function OutputOf(s: State): Output {
    Output(s.stats, s.flows, s.ring)
  }

  /** Popping, feeding and, for an accepted snapshot, pushing are together one round of the worker's drain loop. */
  lemma StepsAreOneRound(c: System, now: int)
    requires c.s.worker.Popping? && c.s.lock.None? && c.s.native.queue != []
    ensures var snapshot := c.s.native.queue[0];
            var steps := if Accepted(snapshot) then [Pop, Feed(now), Push] else [Pop, Feed(now)];
            && Run(c, steps).Some?
            && var d := Run(c, steps).value.s;
               && OutputOf(d) == Handled(OutputOf(c.s), snapshot, now) && d.native == Popped(c.s.native)
               && d.worker == Popping((c.s.worker.drained + 1) % 0x1_0000_0000)
  {
    RunExtends(c, [], Pop);
    RunExtends(c, [Pop], Feed(now));
    assert [] + [Pop] == [Pop] && [Pop] + [Feed(now)] == [Pop, Feed(now)];
    if Accepted(c.s.native.queue[0]) {
      RunExtends(c, [Pop, Feed(now)], Push);
      assert [Pop, Feed(now)] + [Push] == [Pop, Feed(now), Push];
    }
  }
}
