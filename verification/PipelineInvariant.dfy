/** The inductive invariant of the pipeline, one layer at a time. */
module PipelineInvariant {
  import opened Prelude
  import opened Bridge
  import opened FlowTypes
  import opened FlowTable
  import opened NativeObserver
  import opened EventRing
  import opened RuntimeApi
  import opened Ingest
  import opened Positions
  import opened Pipeline

  // --- The native layer ---

  /** Two increasing selections that share the first `n` numbers between them. */
  ghost predicate Shares(a: seq<nat>, b: seq<nat>, n: nat) {
    && Increasing(a) && Below(a, n) && Increasing(b) && Below(b, n) && |a| + |b| == n
    && forall k: nat :: k < n ==> (k in a <==> k !in b)
  }

  lemma SharesLeft(a: seq<nat>, b: seq<nat>, n: nat)
    requires Shares(a, b, n)
    ensures Shares(a + [n], b, n + 1)
  {
  }

  lemma SharesRight(a: seq<nat>, b: seq<nat>, n: nat)
    requires Shares(a, b, n)
    ensures Shares(a, b + [n], n + 1)
  {
  }

  lemma TakenBelow(a: seq<nat>, b: seq<nat>, n: nat)
    requires Shares(a, b, n)
    ensures Below(b, n)
  {
  }

  /** The queue is the unread end of the arrivals, and those before it were either evicted or popped. */
  ghost predicate QueueOk(queue: seq<Snapshot>, locked: bool, arrivals: seq<Snapshot>,
                          evicted: seq<nat>, popped: seq<nat>)
  {
    && |queue| + (if locked then 1 else 0) <= QUEUE_CAPACITY
    && |queue| <= |arrivals| && queue == arrivals[|arrivals| - |queue|..]
    && Shares(evicted, popped, |arrivals| - |queue|)
  }

  ghost predicate NativeCountersOk(n: Native, uncounted: nat, arrived: nat, evicted: nat) {
    n.dropped == Wrapping(evicted) && uncounted <= arrived && n.events == Wrapping(arrived - uncounted)
  }

  lemma WrappingStep(n: nat)
    ensures Wrapping(Wrapping(n) + 1) == Wrapping(n + 1)
  {
  }

  lemma RoomKeepsQueue(n: Native, arrivals: seq<Snapshot>, evicted: seq<nat>, popped: seq<nat>)
    requires QueueOk(n.queue, false, arrivals, evicted, popped)
    ensures QueueOk(RoomMade(n).queue, true, arrivals,
                    if Full(n) then evicted + [|arrivals| - |n.queue|] else evicted, popped)
  {
    hide Shares;
    if Full(n) {
      SharesLeft(evicted, popped, |arrivals| - |n.queue|);
    }
  }

  lemma AppendKeepsQueue(queue: seq<Snapshot>, s: Snapshot, arrivals: seq<Snapshot>,
                         evicted: seq<nat>, popped: seq<nat>)
    requires QueueOk(queue, true, arrivals, evicted, popped)
    ensures QueueOk(queue + [s], false, arrivals + [s], evicted, popped)
  {
    hide Shares;
  }

  lemma PopKeepsQueue(queue: seq<Snapshot>, arrivals: seq<Snapshot>, evicted: seq<nat>, popped: seq<nat>)
    requires queue != [] && QueueOk(queue, false, arrivals, evicted, popped)
    ensures QueueOk(queue[1..], false, arrivals, evicted, popped + [|arrivals| - |queue|])
    ensures arrivals[|arrivals| - |queue|] == queue[0]
  {
    hide Shares;
    SharesRight(evicted, popped, |arrivals| - |queue|);
  }

  // --- The worker ---

  /** The popped positions whose snapshot has been dealt with completely. */
  ghost function Settled(w: Worker, popped: seq<nat>): (r: seq<nat>)
    ensures |r| <= |popped| && r == popped[..|r|]
  {
    if (w.Feeding? || w.Pushing?) && popped != [] then popped[..|popped| - 1] else popped
  }

  /** The popped positions whose snapshot has been fed to the flow table or turned down. */
  ghost function Decided(w: Worker, popped: seq<nat>): (r: seq<nat>)
    ensures |r| <= |popped| && r == popped[..|r|]
  {
    if w.Feeding? && popped != [] then popped[..|popped| - 1] else popped
  }

  /** What the worker holds is the last popped snapshot or its event. */
  ghost predicate HeldOk(w: Worker, popped: seq<nat>, arrivals: seq<Snapshot>) {
    && Below(popped, |arrivals|)
    && (w.Feeding? ==> popped != [] && w.snapshot == arrivals[Last(popped)])
    && (w.Pushing? ==> popped != [] && Accepted(arrivals[Last(popped)]) && w.event == EventOf(arrivals[Last(popped)]))
  }

  ghost predicate StatsOk(s: Stats, popped: nat, decided: nat, fed: nat)
    requires fed <= decided
  {
    s.seen == Min(popped, MAX_U64) && s.normalized == Min(fed, MAX_U64) && s.rejected == Min(decided - fed, MAX_U64)
  }

  // --- The ring ---

  /** The ring is the unread end of `made`, and the events before it were either overwritten or taken. */
  ghost predicate RingOk(r: Ring, delivered: seq<RuntimeEvent>, made: seq<NetworkEvent>,
                         overwritten: seq<nat>, taken: seq<nat>)
  {
    var n := |r.events|;
    && 0 < r.capacity && n <= r.capacity
    && n <= |made| && r.events == made[|made| - n..]
    && r.dropped == Min(|overwritten|, MAX_U64)
    && Shares(overwritten, taken, |made| - n)
    && |delivered| == |taken|
    && forall i :: 0 <= i < |taken| ==> delivered[i] == ToRuntime(made[taken[i]])
  }

  /** The ring's contents after a push are the unread end of what was made, one longer at most. */
  lemma PushedSuffix(r: Ring, made: seq<NetworkEvent>, e: NetworkEvent)
    requires 0 < r.capacity && |r.events| <= r.capacity
    requires |r.events| <= |made| && r.events == made[|made| - |r.events|..]
    ensures var n := |Pushed(r, e).events|;
            && n == |r.events| + 1 - |Displaced(r, |made|)| && n <= r.capacity
            && Pushed(r, e).events == (made + [e])[|made| + 1 - n..]
  {
    assert made[|made| - |r.events|..] + [e] == (made + [e])[|made| - |r.events|..];
  }

  lemma PushKeepsRing(r: Ring, delivered: seq<RuntimeEvent>, made: seq<NetworkEvent>,
                      overwritten: seq<nat>, taken: seq<nat>, e: NetworkEvent)
    requires RingOk(r, delivered, made, overwritten, taken)
    ensures RingOk(Pushed(r, e), delivered, made + [e], overwritten + Displaced(r, |made|), taken)
  {
    hide ToRuntime, Shares, Newest;
    PushedSuffix(r, made, e);
    if |r.events| >= r.capacity {
      SharesLeft(overwritten, taken, |made| - |r.events|);
    } else {
      assert overwritten + [] == overwritten;
    }
    TakenBelow(overwritten, taken, |made| - |r.events|);
  }

  ghost function TakenNow(r: Ring, max: nat, made: nat): seq<nat>
    requires |r.events| <= made
  {
    seq(TakeCount(r, max), i requires 0 <= i => made - |r.events| + i)
  }

  lemma TakenShares(r: Ring, max: nat, made: nat, overwritten: seq<nat>, taken: seq<nat>)
    requires |r.events| <= made && Shares(overwritten, taken, made - |r.events|)
    ensures Shares(overwritten, taken + TakenNow(r, max, made), made - |r.events| + TakeCount(r, max))
  {
    var now, n := TakenNow(r, max, made), made - |r.events|;
    forall k: nat | n <= k < n + |now|
      ensures k in now
    {
      assert now[k - n] == k;
    }
  }

  lemma TakeKeepsRing(r: Ring, delivered: seq<RuntimeEvent>, made: seq<NetworkEvent>,
                      overwritten: seq<nat>, taken: seq<nat>, max: nat)
    requires RingOk(r, delivered, made, overwritten, taken)
    ensures RingOk(Drained(r, max), delivered + Converted(r.events[..TakeCount(r, max)]), made, overwritten,
                   taken + TakenNow(r, max, |made|))
  {
    hide ToRuntime;
    var k, n := TakeCount(r, max), |r.events|;
    var more, now := Converted(r.events[..k]), TakenNow(r, max, |made|);
    forall i | 0 <= i < k
      ensures now[i] == |made| - n + i && more[i] == ToRuntime(made[now[i]])
    {
      assert r.events[..k][i] == r.events[i] == made[|made| - n..][i];
    }
    assert r.events[k..] == made[|made| - (n - k)..];
    TakenShares(r, max, |made|, overwritten, taken);
  }

  // --- The flow table ---

  /** The packets of all flows together. */
  ghost function PacketTotal(flows: Flows): nat {
    if flows == map[] then 0
    else
      var k :| k in flows;
      flows[k].packets + PacketTotal(flows - {k})
  }

  /** Any flow can be counted first. */
  lemma {:induction false} TotalSplits(flows: Flows, key: FlowKey)
    requires key in flows
    ensures PacketTotal(flows) == flows[key].packets + PacketTotal(flows - {key})
  {
    var k :| k in flows && PacketTotal(flows) == flows[k].packets + PacketTotal(flows - {k});
    if k != key {
      TotalSplits(flows - {k}, key);
      TotalSplits(flows - {key}, k);
      assert flows - {k} - {key} == flows - {key} - {k};
    }
  }

  /** Each flow's packet counter counts the accepted snapshots of that flow that were fed, and together all of them. */
  ghost predicate FlowsOk(flows: Flows, fed: seq<nat>, arrivals: seq<Snapshot>)
    requires Below(fed, |arrivals|) && forall i :: 0 <= i < |fed| ==> Accepted(arrivals[fed[i]])
  {
    && (forall key: FlowKey ::
          && (key in flows <==> CountOf(fed, arrivals, key) > 0)
          && (key in flows ==> flows[key].packets == Min(CountOf(fed, arrivals, key), MAX_U64)))
    && (|fed| <= MAX_U64 ==> PacketTotal(flows) == |fed|)
  }

  lemma ArrivalKeepsFlows(flows: Flows, fed: seq<nat>, arrivals: seq<Snapshot>, more: seq<Snapshot>)
    requires Below(fed, |arrivals|) && forall i :: 0 <= i < |fed| ==> Accepted(arrivals[fed[i]])
    requires FlowsOk(flows, fed, arrivals)
    ensures FlowsOk(flows, fed, arrivals + more)
  {
    forall key
      ensures CountOf(fed, arrivals + more, key) == CountOf(fed, arrivals, key)
    {
      CountStable(fed, arrivals, more, key);
    }
  }

  lemma CountedTotal(flows: Flows, s: Snapshot, now: int)
    requires Accepted(s) && (KeyOf(s) in flows ==> flows[KeyOf(s)].packets < MAX_U64)
    ensures PacketTotal(Fed(flows, s, now)) == PacketTotal(flows) + 1
  {
    var k, after := KeyOf(s), Fed(flows, s, now);
    TotalSplits(after, k);
    assert after - {k} == flows - {k};
    if k in flows {
      TotalSplits(flows, k);
    } else {
      assert flows - {k} == flows;
    }
  }

  lemma FeedKeepsFlows(flows: Flows, fed: seq<nat>, arrivals: seq<Snapshot>, p: nat, now: int)
    requires Below(fed, |arrivals|) && forall i :: 0 <= i < |fed| ==> Accepted(arrivals[fed[i]])
    requires p < |arrivals| && Accepted(arrivals[p]) && FlowsOk(flows, fed, arrivals)
    ensures FlowsOk(Fed(flows, arrivals[p], now), fed + [p], arrivals)
  {
    var k := KeyOf(arrivals[p]);
    forall key
      ensures CountOf(fed + [p], arrivals, key) == CountOf(fed, arrivals, key) + if k == key then 1 else 0
    {
      CountAppend(fed, p, arrivals, key);
    }
    if |fed| < MAX_U64 {
      CountedTotal(flows, arrivals[p], now);
    }
  }

  // --- All layers ---

  /** The positions fed to the flow table so far. */
  ghost function FedPositions(c: System): seq<nat>
    requires Below(c.h.popped, |c.h.arrivals|)
  {
    AcceptedAmong(Decided(c.s.worker, c.h.popped), c.h.arrivals)
  }

  /** The positions whose events have been pushed to the ring so far. */
  ghost predicate ProducedOk(c: System)
    requires Below(c.h.popped, |c.h.arrivals|)
  {
    c.h.produced == AcceptedAmong(Settled(c.s.worker, c.h.popped), c.h.arrivals)
  }

  ghost predicate Inv(c: System) {
    var s, h := c.s, c.h;
    && QueueOk(s.native.queue, s.lock.Some?, h.arrivals, h.evicted, h.popped)
    && NativeCountersOk(s.native, s.uncounted, |h.arrivals|, |h.evicted|)
    && HeldOk(s.worker, h.popped, h.arrivals)
    && ProducedOk(c)
    && StatsOk(s.stats, |h.popped|, |Decided(s.worker, h.popped)|, |FedPositions(c)|)
    && RingOk(s.ring, s.delivered, EventsAt(h.produced, h.arrivals), h.overwritten, h.taken)
    && FlowsOk(s.flows, FedPositions(c), h.arrivals)
  }

  lemma StartOk(capacity: nat)
    requires capacity > 0
    ensures Inv(Start(capacity))
  {
    hide FlowsOk, AcceptedAmong, EventsAt, EventOf, ToRuntime;
    NothingYet();
    assert ProducedOk(Start(capacity)) && FedPositions(Start(capacity)) == [];
  }

  lemma NothingYet()
    ensures AcceptedAmong([], []) == [] && EventsAt([], []) == [] && FlowsOk(map[], [], [])
  {
  }

  lemma MakeRoomKeeps(c: System, snapshot: Snapshot)
    requires Enabled(c.s, MakeRoom(snapshot)) && Inv(c)
    ensures Inv(Stepped(c, MakeRoom(snapshot)))
  {
    hide Shares, RingOk, FlowsOk, HeldOk, StatsOk, Wrapping, AcceptedAmong;
    RoomKeepsQueue(c.s.native, c.h.arrivals, c.h.evicted, c.h.popped);
    WrappingStep(|c.h.evicted|);
  }

  /** A new arrival leaves everything the worker did as it was. */
  lemma AppendKeepsWork(c: System)
    requires Enabled(c.s, Append) && Inv(c)
    ensures var d := Stepped(c, Append);
            && HeldOk(d.s.worker, d.h.popped, d.h.arrivals) && ProducedOk(d) && FedPositions(d) == FedPositions(c)
  {
    hide QueueOk, RingOk, StatsOk, Wrapping, Accepted, FlowsOk, AcceptedAmong;
    AcceptedStable(Settled(c.s.worker, c.h.popped), c.h.arrivals, [c.s.lock.value]);
    AcceptedStable(Decided(c.s.worker, c.h.popped), c.h.arrivals, [c.s.lock.value]);
  }

  lemma AppendKeeps(c: System)
    requires Enabled(c.s, Append) && Inv(c)
    ensures Inv(Stepped(c, Append))
  {
    hide QueueOk, RingOk, StatsOk, Wrapping, Accepted, FlowsOk, AcceptedAmong;
    var h, snapshot := c.h, c.s.lock.value;
    AppendKeepsQueue(c.s.native.queue, snapshot, h.arrivals, h.evicted, h.popped);
    AppendKeepsWork(c);
    EventsStable(h.produced, h.arrivals, [snapshot]);
    ArrivalKeepsFlows(c.s.flows, FedPositions(c), h.arrivals, [snapshot]);
  }

  lemma CountKeeps(c: System)
    requires Enabled(c.s, CountEvent) && Inv(c)
    ensures Inv(Stepped(c, CountEvent))
  {
    hide QueueOk, RingOk, FlowsOk, HeldOk, StatsOk, Wrapping, AcceptedAmong;
    WrappingStep(|c.h.arrivals| - c.s.uncounted);
  }

  lemma EmptyPopKeeps(c: System)
    requires Enabled(c.s, Pop) && c.s.native.queue == [] && Inv(c)
    ensures Inv(Stepped(c, Pop))
  {
    WorkerMoves(c, Stepped(c, Pop));
  }

  /** A pop adds one position, which is the one the worker now holds. */
  lemma PopHolds(c: System)
    requires Enabled(c.s, Pop) && c.s.native.queue != [] && Inv(c)
    ensures var d, p := Stepped(c, Pop), |c.h.arrivals| - |c.s.native.queue|;
            && p >= 0 && d.h == c.h.(popped := c.h.popped + [p])
            && QueueOk(d.s.native.queue, d.s.lock.Some?, d.h.arrivals, d.h.evicted, d.h.popped)
            && HeldOk(d.s.worker, d.h.popped, d.h.arrivals)
            && Settled(d.s.worker, d.h.popped) == c.h.popped && Decided(d.s.worker, d.h.popped) == c.h.popped
  {
    hide RingOk, FlowsOk, StatsOk, NativeCountersOk, Accepted, AcceptedAmong;
    var d, p := Stepped(c, Pop), |c.h.arrivals| - |c.s.native.queue|;
    PopKeepsQueue(c.s.native.queue, c.h.arrivals, c.h.evicted, c.h.popped);
    assert d.h == c.h.(popped := c.h.popped + [p]);
    assert d.h.popped[..|c.h.popped|] == c.h.popped;
  }

  lemma PopKeeps(c: System)
    requires Enabled(c.s, Pop) && c.s.native.queue != [] && Inv(c)
    ensures Inv(Stepped(c, Pop))
  {
    hide QueueOk, RingOk, FlowsOk, Wrapping, Accepted, AcceptedAmong;
    PopHolds(c);
    var d := Stepped(c, Pop);
    assert Settled(c.s.worker, c.h.popped) == c.h.popped && Decided(c.s.worker, c.h.popped) == c.h.popped;
    assert ProducedOk(d) && FedPositions(d) == FedPositions(c);
  }

  /** A decided snapshot joins the fed positions exactly when it is accepted. */
  lemma FeedDecides(c: System, now: int)
    requires Enabled(c.s, Feed(now)) && Inv(c)
    ensures var d := Stepped(c, Feed(now));
            && d.h == c.h && Decided(d.s.worker, d.h.popped) == c.h.popped
            && HeldOk(d.s.worker, d.h.popped, d.h.arrivals) && ProducedOk(d)
            && FedPositions(d) == FedPositions(c) + if Accepted(c.s.worker.snapshot) then [Last(c.h.popped)] else []
  {
    hide QueueOk, RingOk, FlowsOk, Wrapping, Accepted, AcceptedAmong, Fed;
    var front, p := c.h.popped[..|c.h.popped| - 1], Last(c.h.popped);
    assert c.h.popped == front + [p];
    AcceptedAppend(front, p, c.h.arrivals);
  }

  lemma AcceptedFeedKeeps(c: System, now: int)
    requires Enabled(c.s, Feed(now)) && Accepted(c.s.worker.snapshot) && Inv(c)
    ensures Inv(Stepped(c, Feed(now)))
  {
    hide QueueOk, RingOk, FlowsOk, Wrapping, Accepted, AcceptedAmong, Fed;
    FeedDecides(c, now);
    var d := Stepped(c, Feed(now));
    assert FlowsOk(d.s.flows, FedPositions(d), d.h.arrivals) by {
      FeedKeepsFlows(c.s.flows, FedPositions(c), c.h.arrivals, Last(c.h.popped), now);
    }
    assert d.s.native == c.s.native && d.s.lock == c.s.lock && d.s.uncounted == c.s.uncounted;
    assert d.s.ring == c.s.ring && d.s.delivered == c.s.delivered;
  }

  lemma RejectedFeedKeeps(c: System, now: int)
    requires Enabled(c.s, Feed(now)) && !Accepted(c.s.worker.snapshot) && Inv(c)
    ensures Inv(Stepped(c, Feed(now)))
  {
    hide QueueOk, RingOk, FlowsOk, Wrapping, Accepted, AcceptedAmong, Fed;
    FeedDecides(c, now);
    var d := Stepped(c, Feed(now));
    assert FedPositions(d) == FedPositions(c);
  }

  /** A push makes the held position `p` the last produced one. */
  lemma PushRecords(c: System, p: nat)
    requires Enabled(c.s, Push) && Inv(c)
    requires c.h.popped != [] && p == Last(c.h.popped)
    ensures |c.s.ring.events| <= |c.h.produced|
    ensures Recorded(c, Push) == c.h.(produced := c.h.produced + [p],
                                      overwritten := c.h.overwritten + Displaced(c.s.ring, |c.h.produced|))
  {
    hide QueueOk, FlowsOk, Wrapping, Accepted, AcceptedAmong, StatsOk, Shares;
  }

  /** The position joins those whose events were pushed, and nothing else about the worker's past changes. */
  lemma PushProduces(c: System, d: System, p: nat)
    requires c.s.worker.Pushing? && HeldOk(c.s.worker, c.h.popped, c.h.arrivals) && ProducedOk(c)
    requires d.s.worker.Popping? && d.h.arrivals == c.h.arrivals && d.h.popped == c.h.popped
    requires c.h.popped != [] && p == Last(c.h.popped) && d.h.produced == c.h.produced + [p]
    ensures HeldOk(d.s.worker, d.h.popped, d.h.arrivals) && ProducedOk(d) && FedPositions(d) == FedPositions(c)
  {
    hide Accepted, AcceptedAmong;
    var front := c.h.popped[..|c.h.popped| - 1];
    assert c.h.popped == front + [p];
    AcceptedAppend(front, p, c.h.arrivals);
  }

  lemma PushKeeps(c: System)
    requires Enabled(c.s, Push) && Inv(c)
    ensures Inv(Stepped(c, Push))
  {
    hide QueueOk, RingOk, FlowsOk, Wrapping, Accepted, AcceptedAmong, Pushed, StatsOk;
    var d, p := Stepped(c, Push), Last(c.h.popped);
    PushRecords(c, p);
    PushProduces(c, d, p);
    EventsAppend(c.h.produced, p, c.h.arrivals);
    PushKeepsRing(c.s.ring, c.s.delivered, EventsAt(c.h.produced, c.h.arrivals), c.h.overwritten, c.h.taken,
                  c.s.worker.event);
  }

  lemma TakeKeeps(c: System, max: nat)
    requires Enabled(c.s, Take(max)) && Inv(c)
    ensures Inv(Stepped(c, Take(max)))
  {
    hide QueueOk, FlowsOk, Wrapping, Accepted, AcceptedAmong, Drained, StatsOk, HeldOk, Converted;
    var h := c.h;
    TakeKeepsRing(c.s.ring, c.s.delivered, EventsAt(h.produced, h.arrivals), h.overwritten, h.taken, max);
    assert Recorded(c, Take(max)).taken == h.taken + TakenNow(c.s.ring, max, |h.produced|);
  }

  /** A move of the worker that touches no queue, table or count. */
  lemma WorkerMoves(c: System, d: System)
    requires Inv(c) && d.h == c.h
    requires d.s == c.s.(worker := d.s.worker, stats := d.s.stats, stop := d.s.stop)
    requires d.s.stats == c.s.stats.(observerDropped := d.s.stats.observerDropped)
    requires || d.s.worker == c.s.worker
             || !(c.s.worker.Feeding? || c.s.worker.Pushing? || d.s.worker.Feeding? || d.s.worker.Pushing?)
    ensures Inv(d)
  {
    hide QueueOk, RingOk, FlowsOk, Wrapping, Accepted, AcceptedAmong;
    assert Settled(d.s.worker, d.h.popped) == Settled(c.s.worker, c.h.popped);
    assert Decided(d.s.worker, d.h.popped) == Decided(c.s.worker, c.h.popped);
  }

  lemma QuietKeeps(c: System, step: Step)
    requires step.RequestStop? || step.CheckStop? || step.EndPass? || step.Leave?
    requires Enabled(c.s, step) && Inv(c)
    ensures Inv(Stepped(c, step))
  {
    hide Inv;
    WorkerMoves(c, Stepped(c, step));
  }

  /** Every step of every actor keeps the invariant. */
  lemma InvStep(c: System, step: Step)
    requires Enabled(c.s, step) && Inv(c)
    ensures Inv(Stepped(c, step))
  {
    hide Inv, Next, Recorded;
    match step
    case MakeRoom(snapshot) => MakeRoomKeeps(c, snapshot);
    case Append => AppendKeeps(c);
    case CountEvent => CountKeeps(c);
    case Pop => if c.s.native.queue == [] { EmptyPopKeeps(c); } else { PopKeeps(c); }
    case Feed(now) =>
      if Accepted(c.s.worker.snapshot) { AcceptedFeedKeeps(c, now); } else { RejectedFeedKeeps(c, now); }
    case Push => PushKeeps(c);
    case Take(max) => TakeKeeps(c, max);
    case _ => QuietKeeps(c, step);
  }
}
