/** Newline framing in `RpcClient::onReadyRead`, over one connection. */
module RpcFraming {
  import opened Prelude

  const LF: int := 10

  /** The bytes `QByteArray::trimmed` strips. */
  predicate IsSpace(b: byte) {
    b == 32 || 9 <= b <= 13
  }

  function TrimLeft(s: seq<byte>): seq<byte> {
    if s != [] && IsSpace(s[0]) then TrimLeft(s[1..]) else s
  }

  function TrimRight(s: seq<byte>): seq<byte> {
    if s != [] && IsSpace(Last(s)) then TrimRight(s[..|s| - 1]) else s
  }

  function Trimmed(s: seq<byte>): seq<byte> {
    TrimRight(TrimLeft(s))
  }

  ghost predicate NoNewline(s: seq<byte>) {
    forall i :: 0 <= i < |s| ==> s[i] != LF
  }

  /** The first newline at or after `from`, or the length. */
  function IndexOfNewline(s: seq<byte>, from: nat): (i: nat)
    requires from <= |s|
    ensures from <= i <= |s| && (i < |s| ==> s[i] == LF)
    ensures forall k :: from <= k < i ==> s[k] != LF
    decreases |s| - from
  {
    if from == |s| || s[from] == LF then from else IndexOfNewline(s, from + 1)
  }

  /** A line that is blank once trimmed is passed over. */
  function Handled(line: seq<byte>): seq<seq<byte>> {
    if Trimmed(line) == [] then [] else [Trimmed(line)]
  }

  /** The trimmed, non-empty complete lines of a stream. */
  function Lines(s: seq<byte>): seq<seq<byte>>
    decreases |s|
  {
    var i := IndexOfNewline(s, 0);
    if i == |s| then [] else Handled(s[..i]) + Lines(s[i + 1..])
  }

  /** What follows the last newline. */
  function Leftover(s: seq<byte>): seq<byte>
    decreases |s|
  {
    var i := IndexOfNewline(s, 0);
    if i == |s| then s else Leftover(s[i + 1..])
  }

  class RpcClient {
    var buffer: seq<byte>
    /** The lines given to the JSON reader so far. */
    var handled: seq<seq<byte>>

    constructor ()
      ensures buffer == [] && handled == []
    {
      buffer, handled := [], [];
    }

    method OnReadyRead(chunk: seq<byte>)
      modifies this
      ensures handled == old(handled) + Lines(old(buffer) + chunk)
      ensures buffer == Leftover(old(buffer) + chunk)
    {
      buffer := buffer + chunk;
      var newline := IndexOfNewline(buffer, 0);
      while newline < |buffer|
        invariant newline == IndexOfNewline(buffer, 0)
        invariant handled + Lines(buffer) == old(handled) + Lines(old(buffer) + chunk)
        invariant Leftover(buffer) == Leftover(old(buffer) + chunk)
        decreases |buffer|
      {
        ghost var before, stream := handled, buffer;
        var line := Trimmed(buffer[..newline]);
        buffer := buffer[newline + 1..];
        if line != [] {
          handled := handled + [line];
        }
        assert handled == before + Handled(stream[..newline]);
        FirstLine(stream, newline);
        Regroup(before, Handled(stream[..newline]), Lines(buffer));
        newline := IndexOfNewline(buffer, 0);
      }
    }
  }

  // --- Chunking does not matter ---

  lemma Regroup<T>(a: seq<T>, b: seq<T>, c: seq<T>)
    ensures a + b + c == a + (b + c)
  {
  }

  /** A stream with no newline is all leftover. */
  lemma NoLine(s: seq<byte>)
    requires NoNewline(s)
    ensures Lines(s) == [] && Leftover(s) == s
  {
  }

  /** The first line is handled and the rest is a stream of its own. */
  lemma FirstLine(s: seq<byte>, i: nat)
    requires i < |s| && s[i] == LF && NoNewline(s[..i])
    ensures Lines(s) == Handled(s[..i]) + Lines(s[i + 1..]) && Leftover(s) == Leftover(s[i + 1..])
  {
    assert forall k :: 0 <= k < i ==> s[k] == s[..i][k];
    assert IndexOfNewline(s, 0) == i;
  }

  /** What is left over never holds a newline, and it is the end of the stream. */
  lemma {:induction false} LeftoverHasNoNewline(s: seq<byte>)
    ensures NoNewline(Leftover(s)) && |Leftover(s)| <= |s| && Leftover(s) == s[|s| - |Leftover(s)|..]
    decreases |s|
  {
    var i := IndexOfNewline(s, 0);
    if i < |s| {
      LeftoverHasNoNewline(s[i + 1..]);
    }
  }

  /** Splitting a stream where a read ended changes neither the lines nor the leftover. */
  lemma {:induction false} SplitAnywhere(a: seq<byte>, b: seq<byte>)
    ensures Lines(a + b) == Lines(a) + Lines(Leftover(a) + b)
    ensures Leftover(a + b) == Leftover(Leftover(a) + b)
    decreases |a|
  {
    hide Lines, Leftover, Handled;
    var i := IndexOfNewline(a, 0);
    if i < |a| {
      FirstLine(a, i);
      JoinedBehind(a, b, i);
      FirstLine(a + b, i);
      SplitAnywhere(a[i + 1..], b);
      Regroup(Handled(a[..i]), Lines(a[i + 1..]), Lines(Leftover(a) + b));
    } else {
      NoLine(a);
      assert [] + Lines(a + b) == Lines(a + b);
    }
  }

  lemma JoinedBehind(a: seq<byte>, b: seq<byte>, i: nat)
    requires i < |a|
    ensures (a + b)[..i] == a[..i] && (a + b)[i] == a[i] && (a + b)[i + 1..] == a[i + 1..] + b
  {
  }

  /** The lines handled and the buffer left after a sequence of reads. */
  function AfterReads(chunks: seq<seq<byte>>): (seq<seq<byte>>, seq<byte>) {
    if chunks == [] then ([], [])
    else
      var (handled, buffer) := AfterReads(chunks[..|chunks| - 1]);
      (handled + Lines(buffer + Last(chunks)), Leftover(buffer + Last(chunks)))
  }

  function Joined(chunks: seq<seq<byte>>): seq<byte> {
    if chunks == [] then [] else Joined(chunks[..|chunks| - 1]) + Last(chunks)
  }

  /** However the stream is cut into reads, the same lines are handled, and the waiting buffer holds no newline. */
  lemma {:induction false} ChunkingDoesNotMatter(chunks: seq<seq<byte>>)
    ensures AfterReads(chunks) == (Lines(Joined(chunks)), Leftover(Joined(chunks)))
    ensures NoNewline(AfterReads(chunks).1)
  {
    if chunks != [] {
      var front := chunks[..|chunks| - 1];
      ChunkingDoesNotMatter(front);
      SplitAnywhere(Joined(front), Last(chunks));
    }
    LeftoverHasNoNewline(Joined(chunks));
  }

  // --- Lines as the sender means them ---

  /** The stream of messages each ended by a newline. */
  function Sent(messages: seq<seq<byte>>): seq<byte> {
    if messages == [] then [] else Sent(messages[..|messages| - 1]) + messages[|messages| - 1] + [10]
  }

  function NonEmptyTrimmed(messages: seq<seq<byte>>): seq<seq<byte>> {
    if messages == [] then []
    else NonEmptyTrimmed(messages[..|messages| - 1]) + Handled(Last(messages))
  }

  lemma Unbroken(s: seq<byte>)
    requires 10 !in s
    ensures NoNewline(s)
  {
  }

  /** Newline-terminated messages are handled one by one, and a message begun but not ended waits in the buffer. */
  lemma {:induction false} MessagesArrive(messages: seq<seq<byte>>, begun: seq<byte>)
    requires 10 !in begun && forall m :: m in messages ==> 10 !in m
    ensures Lines(Sent(messages) + begun) == NonEmptyTrimmed(messages)
    ensures Leftover(Sent(messages) + begun) == begun
  {
    Unbroken(begun);
    if messages == [] {
      assert Sent(messages) + begun == begun;
      NoLine(begun);
    } else {
      var front, m := messages[..|messages| - 1], Last(messages);
      forall x | x in front
        ensures 10 !in x
      {
        assert x in messages;
      }
      MessagesArrive(front, []);
      assert Sent(front) + [] == Sent(front);
      assert m in messages;
      Unbroken(m);
      OneMessage(Sent(front), m, begun);
    }
  }

  lemma OneMessage(sent: seq<byte>, m: seq<byte>, begun: seq<byte>)
    requires Leftover(sent) == [] && NoNewline(m) && NoNewline(begun)
    ensures Lines(sent + m + [10] + begun) == Lines(sent) + Handled(m)
    ensures Leftover(sent + m + [10] + begun) == begun
  {
    hide Lines, Leftover, Handled, IndexOfNewline;
    var rest := m + [10] + begun;
    assert sent + m + [10] + begun == sent + rest;
    SplitAnywhere(sent, rest);
    assert [] + rest == rest;
    assert rest[..|m|] == m && rest[|m| + 1..] == begun;
    FirstLine(rest, |m|);
    NoLine(begun);
    assert Handled(m) + [] == Handled(m);
  }

  // --- Trimming ---

  ghost predicate Blank(s: seq<byte>) {
    forall i :: 0 <= i < |s| ==> IsSpace(s[i])
  }

  lemma {:induction false} TrimLeftCuts(s: seq<byte>) returns (n: nat)
    ensures n <= |s| && TrimLeft(s) == s[n..] && Blank(s[..n]) && (n < |s| ==> !IsSpace(s[n]))
  {
    n := 0;
    if s != [] && IsSpace(s[0]) {
      var m := TrimLeftCuts(s[1..]);
      n := m + 1;
      assert s[..n] == [s[0]] + s[1..][..m];
    }
  }

  lemma {:induction false} TrimRightCuts(s: seq<byte>) returns (n: nat)
    ensures n <= |s| && TrimRight(s) == s[..n] && Blank(s[n..]) && (n > 0 ==> !IsSpace(s[n - 1]))
  {
    n := |s|;
    if s != [] && IsSpace(Last(s)) {
      var front := s[..|s| - 1];
      n := TrimRightCuts(front);
      assert s[n..] == front[n..] + [Last(s)];
    }
  }

  /** Trimming removes blanks at both ends and nothing else. */
  lemma TrimmedExactly(s: seq<byte>) returns (i: nat, j: nat)
    ensures i <= j <= |s| && Trimmed(s) == s[i..j]
    ensures forall k :: 0 <= k < i || j <= k < |s| ==> s[k] == 32 || 9 <= s[k] <= 13
    ensures i < j ==> !(s[i] == 32 || 9 <= s[i] <= 13) && !(s[j - 1] == 32 || 9 <= s[j - 1] <= 13)
  {
    i := TrimLeftCuts(s);
    var n := TrimRightCuts(s[i..]);
    j := i + n;
    assert forall k :: 0 <= k < i ==> s[k] == s[..i][k];
    assert forall k :: j <= k < |s| ==> s[k] == s[i..][n..][k - j];
  }
}
