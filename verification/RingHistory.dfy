/** What the ring's contents and drop counter say over whole histories of pushes, drains and clears. */
module RingHistory {
  import opened Prelude
  import opened Bridge
  import opened EventRing

  datatype RingOp = Push(event: NetworkEvent) | Drain(max: nat) | Clear

  function Applied(r: Ring, op: RingOp): Ring {
    match op
    case Push(e) => Pushed(r, e)
    case Drain(max) => Drained(r, max)
    case Clear => Cleared(r)
  }

  function After(capacity: nat, ops: seq<RingOp>): Ring
    requires capacity > 0
  {
    if ops == [] then Ring(capacity, [], 0) else Applied(After(capacity, ops[..|ops| - 1]), Last(ops))
  }

  function Pushes(ops: seq<RingOp>): seq<NetworkEvent> {
    if ops == [] then []
    else Pushes(ops[..|ops| - 1]) + if Last(ops).Push? then [Last(ops).event] else []
  }

  /** The events handed out by all drains, in order. */
  function HandedOut(capacity: nat, ops: seq<RingOp>): seq<NetworkEvent>
    requires capacity > 0
  {
    if ops == [] then []
    else
      var before := After(capacity, ops[..|ops| - 1]);
      HandedOut(capacity, ops[..|ops| - 1])
      + if Last(ops).Drain? then before.events[..TakeCount(before, Last(ops).max)] else []
  }

  function ClearedCount(capacity: nat, ops: seq<RingOp>): nat
    requires capacity > 0
  {
    if ops == [] then 0
    else
      ClearedCount(capacity, ops[..|ops| - 1])
      + if Last(ops).Clear? then |After(capacity, ops[..|ops| - 1]).events| else 0
  }

  /** The ring never outgrows its capacity and always holds exactly the last events pushed. */
  lemma {:induction false} HoldsNewest(capacity: nat, ops: seq<RingOp>)
    requires capacity > 0
    ensures var r := After(capacity, ops);
            r.capacity == capacity && |r.events| <= capacity && |r.events| <= |Pushes(ops)|
    ensures After(capacity, ops).events == Newest(Pushes(ops), |After(capacity, ops).events|)
  {
    if ops == [] {
      assert Newest<NetworkEvent>([], 0) == [];
    } else {
      hide Applied, Newest;
      var before := ops[..|ops| - 1];
      HoldsNewest(capacity, before);
      StaysNewest(After(capacity, before), Pushes(before), Last(ops));
      assert Pushes(before) + [] == Pushes(before);
    }
  }

  /** One operation on a ring that holds the newest of `pushed`. */
  lemma StaysNewest(r: Ring, pushed: seq<NetworkEvent>, op: RingOp)
    requires |r.events| <= r.capacity && |r.events| <= |pushed| && r.events == Newest(pushed, |r.events|)
    ensures var q, all := Applied(r, op), pushed + if op.Push? then [op.event] else [];
            && q.capacity == r.capacity && |q.events| <= q.capacity
            && |q.events| <= |all| && q.events == Newest(all, |q.events|)
  {
    assert pushed + [] == pushed;
  }

  /** What one operation drops is what it takes away without handing it out or clearing it. */
  lemma DropStep(r: Ring, op: RingOp)
    requires |r.events| <= r.capacity
    ensures var q := Applied(r, op);
            var gone := |r.events| + (if op.Push? then 1 else 0) - (if op.Drain? then TakeCount(r, op.max) else 0)
                        - (if op.Clear? then |r.events| else 0) - |q.events|;
            gone >= 0 && q.dropped == SaturatingAdd(r.dropped, gone)
  {
  }

  /** Every event ever pushed was discarded, handed out or cleared, or is still there; `dropped` counts the first. */
  lemma {:induction false} DroppedExactly(capacity: nat, ops: seq<RingOp>)
    requires capacity > 0
    ensures var lost := |Pushes(ops)| - |HandedOut(capacity, ops)| - ClearedCount(capacity, ops)
                        - |After(capacity, ops).events|;
            lost >= 0 && After(capacity, ops).dropped == Min(lost, MAX_U64)
  {
    if ops != [] {
      DroppedExactly(capacity, ops[..|ops| - 1]);
      HoldsNewest(capacity, ops[..|ops| - 1]);
      DropStep(After(capacity, ops[..|ops| - 1]), Last(ops));
      hide Applied;
    }
  }

  /** Pushes since the ring was last emptied for sure: by a clear, or by a drain that asks for a full ring. */
  function Backlog(capacity: nat, ops: seq<RingOp>): nat {
    if ops == [] then 0
    else
      match Last(ops)
      case Push(_) => Backlog(capacity, ops[..|ops| - 1]) + 1
      case Drain(max) => if max >= capacity then 0 else Backlog(capacity, ops[..|ops| - 1])
      case Clear => 0
  }

  /** With at most `capacity` pushes between full drains nothing is ever dropped. */
  lemma {:induction false} NoLossBetweenFullDrains(capacity: nat, ops: seq<RingOp>)
    requires capacity > 0
    requires forall n :: 0 <= n <= |ops| ==> Backlog(capacity, ops[..n]) <= capacity
    ensures |After(capacity, ops).events| <= Backlog(capacity, ops)
    ensures After(capacity, ops).dropped == 0
  {
    assert ops[..|ops|] == ops;
    if ops != [] {
      var before := ops[..|ops| - 1];
      forall n | 0 <= n <= |before|
        ensures Backlog(capacity, before[..n]) <= capacity
      {
        assert before[..n] == ops[..n];
      }
      NoLossBetweenFullDrains(capacity, before);
      HoldsNewest(capacity, before);
    }
  }

  predicate NeverCleared(ops: seq<RingOp>) {
    forall i :: 0 <= i < |ops| ==> !ops[i].Clear?
  }

  /** While nothing is dropped or cleared, the events handed out and those held are all that were pushed, in order. */
  lemma {:induction false} NothingDroppedNothingLost(capacity: nat, ops: seq<RingOp>)
    requires capacity > 0 && NeverCleared(ops) && After(capacity, ops).dropped == 0
    ensures HandedOut(capacity, ops) + After(capacity, ops).events == Pushes(ops)
  {
    if ops != [] {
      var before := ops[..|ops| - 1];
      HoldsNewest(capacity, before);
      NothingDroppedNothingLost(capacity, before);
    }
  }
}
