/**
  * The telemetry pipeline as a step system: WFP callbacks, the ingest worker and the foreign poller run concurrently
  * over the native queue, the flow table and the event ring. A step is what happens under one lock or in one atomic
  * access.
  */
module Pipeline {
  import opened Prelude
  import opened Bridge
  import opened FlowTable
  import opened NativeObserver
  import opened EventRing
  import opened RuntimeApi
  import opened Ingest

  /** Where the worker is; `drained` is its 32-bit per-pass counter. */
  datatype Worker =
    | CheckingStop
    | Popping(drained: u32)
    | Feeding(snapshot: Snapshot, drained: u32)
    | Pushing(event: NetworkEvent, drained: u32)
    | PassEnding(drained: u32)
    | Leaving
    | Returned

  /**
    * `lock` holds the snapshot of a callback inside the queue's critical section; `uncounted` callbacks have left it
    * but not bumped the event counter.
    */
  datatype State = State(native: Native, lock: Option<Snapshot>, uncounted: nat, worker: Worker, stats: Stats,
                         flows: Flows, ring: Ring, stop: bool, delivered: seq<RuntimeEvent>)

  /**
    * What happened so far; it never influences a step. Positions index `arrivals`; `overwritten` and `taken` index
    * `produced`.
    */
  datatype History = History(arrivals: seq<Snapshot>, evicted: seq<nat>, popped: seq<nat>, produced: seq<nat>,
                             overwritten: seq<nat>, taken: seq<nat>)

  datatype System = System(s: State, h: History)

  datatype Step =
    | MakeRoom(snapshot: Snapshot)  // callback: lock, evict when full
    | Append                        // callback: push_back, unlock
    | CountEvent                    // callback: events.fetch_add
    | RequestStop                   // stop() or drop: store the flag
    | CheckStop                     // worker: load the flag
    | Pop                           // worker: bridge.pop()
    | Feed(now: int)                // worker: feed_snapshot under the datapath lock
    | Push                          // worker: ring.push under the ring lock
    | EndPass                       // worker: read the drop counter, perhaps sleep
    | Leave                         // worker: last read, return the statistics
    | Take(max: nat)                // foreign caller: poll (1) or drain

  function Start(capacity: nat): System
    requires capacity > 0
  {
    System(State(Native([], 0, 0), None, 0, CheckingStop, Stats(0, 0, 0, 0), map[], Ring(capacity, [], 0), false, []),
           History([], [], [], [], [], []))
  }

  predicate Enabled(s: State, step: Step) {
    match step
    case MakeRoom(_) => s.lock.None?
    case Append => s.lock.Some?
    case CountEvent => s.uncounted > 0
    case RequestStop => true
    case CheckStop => s.worker.CheckingStop?
    case Pop => s.worker.Popping? && s.lock.None?
    case Feed(_) => s.worker.Feeding?
    case Push => s.worker.Pushing?
    case EndPass => s.worker.PassEnding?
    case Leave => s.worker.Leaving?
    case Take(max) => max > 0
  }

  function Next(s: State, step: Step): State
    requires Enabled(s, step)
  {
    match step
    case MakeRoom(snapshot) => s.(native := RoomMade(s.native), lock := Some(snapshot))
    case Append => s.(native := Appended(s.native, s.lock.value), lock := None, uncounted := s.uncounted + 1)
    case CountEvent => s.(native := EventCounted(s.native), uncounted := s.uncounted - 1)
    case RequestStop => s.(stop := true)
    case CheckStop => s.(worker := if s.stop then Leaving else Popping(0))
    case Pop =>
      if s.native.queue == [] then s.(worker := PassEnding(s.worker.drained))
      else s.(native := Popped(s.native), worker := Feeding(s.native.queue[0], (s.worker.drained + 1) % 0x1_0000_0000),
              stats := s.stats.(seen := SaturatingAdd(s.stats.seen, 1)))
    case Feed(now) =>
      if Accepted(s.worker.snapshot) then
        s.(flows := Fed(s.flows, s.worker.snapshot, now),
           worker := Pushing(EventOf(s.worker.snapshot), s.worker.drained),
           stats := s.stats.(normalized := SaturatingAdd(s.stats.normalized, 1)))
      else s.(worker := Popping(s.worker.drained), stats := s.stats.(rejected := SaturatingAdd(s.stats.rejected, 1)))
    case Push => s.(ring := Pushed(s.ring, s.worker.event), worker := Popping(s.worker.drained))
    case EndPass => s.(worker := CheckingStop, stats := s.stats.(observerDropped := s.native.dropped))
    case Leave => s.(worker := Returned, stats := s.stats.(observerDropped := s.native.dropped))
    case Take(max) =>
      s.(ring := Drained(s.ring, max), delivered := s.delivered + Converted(s.ring.events[..TakeCount(s.ring, max)]))
  }

  /** The index of the event a push displaces, when `made` events were pushed before. */
  function Displaced(r: Ring, made: nat): seq<nat>
    requires |r.events| <= made
  {
    if |r.events| >= r.capacity then [made - |r.events|] else []
  }

  function Recorded(c: System, step: Step): History
    requires Enabled(c.s, step)
  {
    var s, h := c.s, c.h;
    match step
    case MakeRoom(_) =>
      if !Full(s.native) || |h.arrivals| < |s.native.queue| then h
      else h.(evicted := h.evicted + [|h.arrivals| - |s.native.queue|])
    case Append => h.(arrivals := h.arrivals + [s.lock.value])
    case Pop =>
      if s.native.queue == [] || |h.arrivals| < |s.native.queue| then h
      else h.(popped := h.popped + [|h.arrivals| - |s.native.queue|])
    case Push =>
      if h.popped == [] || |h.produced| < |s.ring.events| then h
      else h.(produced := h.produced + [Last(h.popped)], overwritten := h.overwritten + Displaced(s.ring, |h.produced|))
    case Take(max) =>
      if |h.produced| < |s.ring.events| then h
      else h.(taken := h.taken + seq(TakeCount(s.ring, max), i requires 0 <= i => |h.produced| - |s.ring.events| + i))
    case _ => h
  }

  function Stepped(c: System, step: Step): System
    requires Enabled(c.s, step)
  {
    System(Next(c.s, step), Recorded(c, step))
  }

  function Run(c: System, steps: seq<Step>): Option<System> {
    if steps == [] then Some(c)
    else
      match Run(c, steps[..|steps| - 1])
      case None => None
      case Some(d) =>
        var step := Last(steps);
        if Enabled(d.s, step) then Some(Stepped(d, step)) else None
  }

  lemma RunExtends(c: System, steps: seq<Step>, step: Step)
    requires Run(c, steps).Some? && Enabled(Run(c, steps).value.s, step)
    ensures Run(c, steps + [step]) == Some(Stepped(Run(c, steps).value, step))
  {
    assert (steps + [step])[..|steps|] == steps;
  }

  ghost predicate Reachable(c: System) {
    exists capacity: nat, steps: seq<Step> :: capacity > 0 && Run(Start(capacity), steps) == Some(c)
  }
}
