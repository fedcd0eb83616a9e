/** The ingest worker of `ingest.rs`: one undisturbed pass of its drain loop. */
module Ingest {
  import opened Prelude
  import opened Bridge
  import opened FlowTable
  import opened NativeObserver
  import opened EventRing

  datatype Stats = Stats(seen: u64, normalized: u64, rejected: u64, observerDropped: u64)

  /** What the worker writes to while it drains. */
  datatype Output = Output(stats: Stats, flows: Flows, ring: Ring)

  /** One snapshot handled: counted, fed to the table, and pushed as an event when it is accepted. */
  function Handled(o: Output, s: Snapshot, now: int): Output {
    var seen := o.stats.(seen := SaturatingAdd(o.stats.seen, 1));
    if Accepted(s) then
      Output(seen.(normalized := SaturatingAdd(seen.normalized, 1)), Fed(o.flows, s, now), Pushed(o.ring, EventOf(s)))
    else Output(seen.(rejected := SaturatingAdd(seen.rejected, 1)), o.flows, o.ring)
  }

  function AllHandled(o: Output, queue: seq<Snapshot>, times: seq<int>): Output
    requires |queue| <= |times|
  {
    if queue == [] then o
    else Handled(AllHandled(o, queue[..|queue| - 1], times), Last(queue), times[|queue| - 1])
  }

  method HandleSnapshot(datapath: Datapath, ring: EventRing, before: Stats, snapshot: Snapshot, now: int)
    returns (s: Stats)
    requires ring.Valid()
    modifies datapath, ring
    ensures ring.Valid()
    ensures Output(s, datapath.flows, ring.State()) ==
            Handled(Output(before, old(datapath.flows), old(ring.State())), snapshot, now)
  {
    s := before.(seen := SaturatingAdd(before.seen, 1));
    var event := FeedSnapshot(datapath, snapshot, now);
    if event.Some? {
      s := s.(normalized := SaturatingAdd(s.normalized, 1));
      ring.Push(event.value);
    } else {
      s := s.(rejected := SaturatingAdd(s.rejected, 1));
    }
  }

  /** The inner loop while no callback runs; `times` are its clock readings. */
  method DrainPass(observer: WfpObserver, datapath: Datapath, ring: EventRing, before: Stats, times: seq<int>)
    returns (s: Stats)
    requires observer.Valid() && ring.Valid() && |observer.queue| <= |times|
    modifies observer, datapath, ring
    ensures observer.Valid() && observer.State() == old(observer.State()).(queue := [])
    ensures ring.Valid()
    ensures Output(s, datapath.flows, ring.State()) ==
            AllHandled(Output(before, old(datapath.flows), old(ring.State())), old(observer.queue), times)
  {
    hide Handled;
    s := before;
    ghost var queue, start := observer.queue, Output(before, datapath.flows, ring.State());
    var drained := 0;
    var code, snapshot := observer.Pop();
    while code == ERROR_SUCCESS
      invariant 0 <= drained <= |queue| && observer.Valid() && ring.Valid()
      invariant code == ERROR_SUCCESS ==>
                  drained < |queue| && snapshot == Some(queue[drained]) && observer.queue == queue[drained + 1..]
      invariant code != ERROR_SUCCESS ==> drained == |queue| && observer.queue == []
      invariant observer.dropped == old(observer.dropped) && observer.events == old(observer.events)
      invariant Output(s, datapath.flows, ring.State()) == AllHandled(start, queue[..drained], times)
      decreases |queue| - drained, code == ERROR_SUCCESS
    {
      assert queue[..drained + 1][..drained] == queue[..drained];
      s := HandleSnapshot(datapath, ring, s, snapshot.value, times[drained]);
      drained := drained + 1;
      code, snapshot := observer.Pop();
    }
    assert queue[..drained] == queue;
  }

  // --- What a pass leaves behind ---

  /** The events of the accepted snapshots, in order. */
  function Normalized(queue: seq<Snapshot>): (r: seq<NetworkEvent>)
    ensures |r| <= |queue|
  {
    if queue == [] then []
    else Normalized(queue[..|queue| - 1]) + if Accepted(Last(queue)) then [EventOf(Last(queue))] else []
  }

  function PushedAll(r: Ring, events: seq<NetworkEvent>): Ring {
    if events == [] then r else Pushed(PushedAll(r, events[..|events| - 1]), Last(events))
  }

  /** One more push onto a ring that holds the newest of `all` and has counted the others as lost. */
  lemma PushedOnto(r: Ring, all: seq<NetworkEvent>, start: u64, e: NetworkEvent)
    requires r.events == Newest(all, r.capacity) && r.dropped == SaturatingAdd(start, |all| - |r.events|)
    ensures var q := Pushed(r, e);
            q.events == Newest(all + [e], r.capacity) && q.dropped == SaturatingAdd(start, |all| + 1 - |q.events|)
  {
    NewestAgain(all, e, r.capacity);
  }

  /** Pushing a batch keeps the newest of the old and new events and counts every one that had to go. */
  lemma {:induction false} PushedAllMeaning(r: Ring, events: seq<NetworkEvent>)
    requires |r.events| <= r.capacity
    ensures var after := PushedAll(r, events);
            && after.capacity == r.capacity && after.events == Newest(r.events + events, r.capacity)
            && after.dropped == SaturatingAdd(r.dropped, |r.events| + |events| - |after.events|)
  {
    if events == [] {
      assert r.events + [] == r.events;
    } else {
      hide Newest;
      var front := events[..|events| - 1];
      PushedAllMeaning(r, front);
      PushedOnto(PushedAll(r, front), r.events + front, r.dropped, Last(events));
      assert r.events + events == (r.events + front) + [Last(events)];
    }
  }

  /** Over a pass the ring receives the normalized events in order. */
  lemma {:induction false} PassPushes(o: Output, queue: seq<Snapshot>, times: seq<int>)
    requires |queue| <= |times|
    ensures AllHandled(o, queue, times).ring == PushedAll(o.ring, Normalized(queue))
  {
    if queue != [] {
      var front := queue[..|queue| - 1];
      PassPushes(o, front, times);
      if Accepted(Last(queue)) {
        var events := Normalized(queue);
        assert events == Normalized(front) + [EventOf(Last(queue))];
        assert events[..|events| - 1] == Normalized(front) && Last(events) == EventOf(Last(queue));
        assert PushedAll(o.ring, events) == Pushed(PushedAll(o.ring, Normalized(front)), EventOf(Last(queue)));
        assert AllHandled(o, queue, times).ring == Pushed(AllHandled(o, front, times).ring, EventOf(Last(queue)));
      } else {
        assert Normalized(queue) == Normalized(front);
      }
    }
  }

  /** Over a pass each snapshot is counted as seen, and once as normalized or rejected. */
  lemma {:induction false} PassCounts(o: Output, queue: seq<Snapshot>, times: seq<int>)
    requires |queue| <= |times|
    ensures var counted, events := AllHandled(o, queue, times).stats, Normalized(queue);
            && counted.seen == SaturatingAdd(o.stats.seen, |queue|)
            && counted.normalized == SaturatingAdd(o.stats.normalized, |events|)
            && counted.rejected == SaturatingAdd(o.stats.rejected, |queue| - |events|)
            && counted.observerDropped == o.stats.observerDropped
  {
    hide Accepted, EventOf, Pushed, Fed;
    if queue != [] {
      PassCounts(o, queue[..|queue| - 1], times);
    }
  }

  lemma NewestAgain<T>(s: seq<T>, x: T, n: nat)
    ensures Newest(Newest(s, n) + [x], n) == Newest(s + [x], n)
  {
  }
}
