/** The bounded queue of `wfp_observer.cpp`. */
module NativeObserver {
  import opened Prelude
  import opened Bridge

  const QUEUE_CAPACITY: nat := 4096
  const ERROR_SUCCESS: u32 := 0
  const ERROR_NOT_FOUND: u32 := 1168

  /** `dropped` and `events` are 64-bit atomics whose `fetch_add` wraps. */
  datatype Native = Native(queue: seq<Snapshot>, dropped: u64, events: u64)

  function Wrapping(n: nat): u64 {
    n % TWO_TO_64
  }

  predicate Full(n: Native) {
    |n.queue| >= QUEUE_CAPACITY
  }

  /** First half of the locked section: make room. */
  function RoomMade(n: Native): Native {
    if Full(n) then n.(queue := n.queue[1..], dropped := Wrapping(n.dropped + 1)) else n
  }

  /** Second half of the locked section. */
  function Appended(n: Native, s: Snapshot): Native {
    n.(queue := n.queue + [s])
  }

  /** After the lock is released. */
  function EventCounted(n: Native): Native {
    n.(events := Wrapping(n.events + 1))
  }

  function Popped(n: Native): Native {
    if n.queue == [] then n else n.(queue := n.queue[1..])
  }

  class WfpObserver {
    var queue: seq<Snapshot>
    var dropped: u64
    var events: u64

    ghost predicate Valid()
      reads this
    {
      |queue| <= QUEUE_CAPACITY
    }

    ghost function State(): Native
      reads this
    {
      Native(queue, dropped, events)
    }

    constructor ()
      ensures Valid() && State() == Native([], 0, 0)
    {
      queue, dropped, events := [], 0, 0;
    }

    /** The queue section of `on_net_event`, undisturbed: the newest snapshots stay, and a lost one is counted. */
    method OnNetEvent(s: Snapshot)
      requires Valid()
      modifies this
      ensures Valid()
      ensures State() == EventCounted(Appended(RoomMade(old(State())), s))
      ensures |queue| <= 4096 && queue == Newest(old(queue) + [s], 4096)
      ensures |old(queue)| < 4096 ==> queue == old(queue) + [s] && dropped == old(dropped)
      ensures |old(queue)| == 4096 ==>
                queue == old(queue)[1..] + [s] && dropped == (old(dropped) + 1) % 0x1_0000_0000_0000_0000
      ensures events == (old(events) + 1) % 0x1_0000_0000_0000_0000
    {
      if |queue| >= QUEUE_CAPACITY {
        queue := queue[1..];
        dropped := Wrapping(dropped + 1);
      }
      queue := queue + [s];
      events := Wrapping(events + 1);
    }

    /** `flydpi_wfp_observer_pop` with valid pointers. */
    method Pop() returns (code: u32, snapshot: Option<Snapshot>)
      requires Valid()
      modifies this
      ensures Valid() && State() == Popped(old(State()))
      ensures old(queue) == [] ==> code == 1168 && snapshot == None && queue == []
      ensures old(queue) != [] ==> code == 0 && snapshot == Some(old(queue)[0]) && queue == old(queue)[1..]
    {
      if queue == [] {
        return ERROR_NOT_FOUND, None;
      }
      code, snapshot := ERROR_SUCCESS, Some(queue[0]);
      queue := queue[1..];
    }
  }
}
