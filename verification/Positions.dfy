/** Strictly increasing sequences of positions, and selections from an arrival log. */
module Positions {
  import opened Prelude
  import opened Bridge
  import opened FlowTypes

  ghost predicate Increasing(s: seq<nat>) {
    forall i, j :: 0 <= i < j < |s| ==> s[i] < s[j]
  }

  ghost predicate Below(s: seq<nat>, bound: nat) {
    forall i :: 0 <= i < |s| ==> s[i] < bound
  }

  /** The positions whose snapshot is accepted, in order. */
  ghost function AcceptedAmong(s: seq<nat>, log: seq<Snapshot>): (r: seq<nat>)
    requires Below(s, |log|)
    ensures Below(r, |log|) && |r| <= |s|
    ensures forall i :: 0 <= i < |r| ==> r[i] in s && Accepted(log[r[i]])
  {
    if s == [] then []
    else AcceptedAmong(s[..|s| - 1], log) + if Accepted(log[Last(s)]) then [Last(s)] else []
  }

  lemma {:induction false} AcceptedIncreasing(s: seq<nat>, log: seq<Snapshot>)
    requires Below(s, |log|) && Increasing(s)
    ensures Increasing(AcceptedAmong(s, log))
  {
    if s != [] {
      AcceptedIncreasing(s[..|s| - 1], log);
    }
  }

  /** Nothing else is selected, and nothing accepted is missed. */
  lemma {:induction false} AcceptedExactlyThose(s: seq<nat>, log: seq<Snapshot>, p: nat)
    requires Below(s, |log|)
    ensures p in AcceptedAmong(s, log) <==> p in s && Accepted(log[p])
  {
    hide Accepted;
    if s != [] {
      AcceptedExactlyThose(s[..|s| - 1], log, p);
      assert s == s[..|s| - 1] + [Last(s)];
    }
  }

  /** A longer log does not change what was selected. */
  lemma {:induction false} AcceptedStable(s: seq<nat>, log: seq<Snapshot>, more: seq<Snapshot>)
    requires Below(s, |log|)
    ensures AcceptedAmong(s, log + more) == AcceptedAmong(s, log)
  {
    if s != [] {
      AcceptedStable(s[..|s| - 1], log, more);
    }
  }

  lemma AcceptedAppend(s: seq<nat>, p: nat, log: seq<Snapshot>)
    requires Below(s, |log|) && p < |log|
    ensures AcceptedAmong(s + [p], log) == AcceptedAmong(s, log) + if Accepted(log[p]) then [p] else []
  {
    assert (s + [p])[..|s|] == s;
  }

  /** The images of accepted positions. */
  ghost function EventsAt(s: seq<nat>, log: seq<Snapshot>): (r: seq<NetworkEvent>)
    requires Below(s, |log|) && forall i :: 0 <= i < |s| ==> Accepted(log[s[i]])
    ensures |r| == |s|
  {
    seq(|s|, i requires 0 <= i < |s| => EventOf(log[s[i]]))
  }

  lemma EventsStable(s: seq<nat>, log: seq<Snapshot>, more: seq<Snapshot>)
    requires Below(s, |log|) && forall i :: 0 <= i < |s| ==> Accepted(log[s[i]])
    ensures forall i :: 0 <= i < |s| ==> Accepted((log + more)[s[i]])
    ensures EventsAt(s, log + more) == EventsAt(s, log)
  {
    forall i | 0 <= i < |s|
      ensures (log + more)[s[i]] == log[s[i]]
    {
    }
  }

  lemma EventsAppend(s: seq<nat>, p: nat, log: seq<Snapshot>)
    requires Below(s, |log|) && (forall i :: 0 <= i < |s| ==> Accepted(log[s[i]])) && p < |log| && Accepted(log[p])
    ensures EventsAt(s + [p], log) == EventsAt(s, log) + [EventOf(log[p])]
  {
  }

  /** How many positions carry a snapshot of the given flow. */
  ghost function CountOf(s: seq<nat>, log: seq<Snapshot>, key: FlowKey): (n: nat)
    requires Below(s, |log|) && forall i :: 0 <= i < |s| ==> Accepted(log[s[i]])
    ensures n <= |s|
  {
    if s == [] then 0
    else CountOf(s[..|s| - 1], log, key) + if KeyOf(log[Last(s)]) == key then 1 else 0
  }

  lemma {:induction false} CountStable(s: seq<nat>, log: seq<Snapshot>, more: seq<Snapshot>, key: FlowKey)
    requires Below(s, |log|) && forall i :: 0 <= i < |s| ==> Accepted(log[s[i]])
    ensures CountOf(s, log + more, key) == CountOf(s, log, key)
  {
    if s != [] {
      CountStable(s[..|s| - 1], log, more, key);
    }
  }

  lemma CountAppend(s: seq<nat>, p: nat, log: seq<Snapshot>, key: FlowKey)
    requires Below(s, |log|) && (forall i :: 0 <= i < |s| ==> Accepted(log[s[i]])) && p < |log| && Accepted(log[p])
    ensures CountOf(s + [p], log, key) == CountOf(s, log, key) + if KeyOf(log[p]) == key then 1 else 0
  {
    assert (s + [p])[..|s|] == s;
  }

  /** `n` increasing positions below `n` are all of them. */
  lemma {:induction false} IncreasingFull(s: seq<nat>)
    requires Increasing(s) && Below(s, |s|)
    ensures forall i :: 0 <= i < |s| ==> s[i] == i
  {
    if s != [] {
      var front := s[..|s| - 1];
      forall i | 0 <= i < |front|
        ensures front[i] < |front|
      {
        assert s[i] < s[|s| - 1] < |s|;
      }
      IncreasingFull(front);
      assert |front| > 0 ==> s[|front| - 1] < s[|front|];
    }
  }
}
