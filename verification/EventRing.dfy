/** The bounded event ring of `ring.rs`. */
module EventRing {
  import opened Prelude
  import opened Bridge

  datatype Ring = Ring(capacity: nat, events: seq<NetworkEvent>, dropped: u64)

  /** The newest `capacity` events stay; a discarded one is counted. */
  function Pushed(r: Ring, e: NetworkEvent): Ring {
    var dropped := if |r.events| >= r.capacity then SaturatingAdd(r.dropped, 1) else r.dropped;
    Ring(r.capacity, Newest(r.events + [e], r.capacity), dropped)
  }

  function TakeCount(r: Ring, max: nat): nat {
    Min(max, |r.events|)
  }

  function Drained(r: Ring, max: nat): Ring {
    r.(events := r.events[TakeCount(r, max)..])
  }

  function Cleared(r: Ring): Ring {
    r.(events := [])
  }

  class EventRing {
    const capacity: nat
    var events: seq<NetworkEvent>
    var dropped: u64

    ghost predicate Valid()
      reads this
    {
      0 < capacity && |events| <= capacity
    }

    ghost function State(): Ring
      reads this
    {
      Ring(capacity, events, dropped)
    }

    constructor (capacity: nat)
      requires capacity > 0
      ensures Valid() && State() == Ring(capacity, [], 0)
    {
      this.capacity := capacity;
      events, dropped := [], 0;
    }

    method Push(e: NetworkEvent)
      requires Valid()
      modifies this
      ensures Valid() && State() == Pushed(old(State()), e)
    {
      if |events| == capacity {
        events := events[1..];
        dropped := SaturatingAdd(dropped, 1);
      }
      events := events + [e];
    }

    method Drain(max: nat) returns (taken: seq<NetworkEvent>)
      requires Valid()
      modifies this
      ensures Valid() && State() == Drained(old(State()), max)
      ensures taken + events == old(events) && |taken| == Min(max, |old(events)|)
    {
      var take := Min(max, |events|);
      taken := events[..take];
      events := events[take..];
    }

    method Clear()
      requires Valid()
      modifies this
      ensures Valid() && State() == Cleared(old(State()))
    {
      events := [];
    }
  }
}
