/** `strategy.Rank`: scoring and ordering of the diagnostic candidates, over exact numbers. */
module Selector {
  import opened Prelude

  datatype Candidate = Candidate(id: string, weight: real)

  datatype Observation = Observation(tcpFailures: int, tlsErrors: int, rsts: int, timeouts: int,
                                     dnsMismatches: int, ipv4Success: int, ipv6Success: int, quicSeen: int)

  datatype Reason = Control | FamiliesDiffer | FamilySymmetry | FailureSymptoms | TlsFailures | QuicTraffic

  datatype Score = Score(candidate: Candidate, value: real, reason: Reason)

  const CORRELATION := "reset_timeout_correlation"

  const CANDIDATES := [
    Candidate("baseline", 1.0), Candidate("address_family_matrix", 0.95), Candidate(CORRELATION, 0.9),
    Candidate("tls_matrix", 0.9), Candidate("quic_observation", 0.8)]

  /** `math.Min(float64(n) * rate, cap)`. */
  function Capped(n: int, rate: real, cap: real): real {
    if n as real * rate < cap then n as real * rate else cap
  }

  function ScoreOf(c: Candidate, o: Observation): Score {
    if c.id == "address_family_matrix" then
      if o.ipv4Success != o.ipv6Success then Score(c, c.weight + 1.5, FamiliesDiffer)
      else Score(c, c.weight, FamilySymmetry)
    else if c.id == CORRELATION then
      Score(c, c.weight + Capped(o.rsts, 0.8, 2.0) + Capped(o.timeouts, 0.5, 1.5),
            if o.rsts > 0 || o.timeouts > 0 then FailureSymptoms else Control)
    else if c.id == "tls_matrix" then
      Score(c, c.weight + Capped(o.tlsErrors, 0.7, 2.0), if o.tlsErrors > 0 then TlsFailures else Control)
    else if c.id == "quic_observation" then
      Score(c, c.weight + Capped(o.quicSeen, 0.4, 1.5), if o.quicSeen > 0 then QuicTraffic else Control)
    else Score(c, c.weight, Control)
  }

  function Scores(o: Observation): (r: seq<Score>)
    ensures |r| == |CANDIDATES|
  {
    seq(|CANDIDATES|, i requires 0 <= i < |CANDIDATES| => ScoreOf(CANDIDATES[i], o))
  }

  /** Go's `<` on strings. */
  predicate LexLess(a: string, b: string) {
    b != [] && (a == [] || a[0] < b[0] || (a[0] == b[0] && LexLess(a[1..], b[1..])))
  }

  /** The comparison given to the sort: higher value first, then the smaller identifier. */
  predicate Before(a: Score, b: Score) {
    a.value > b.value || (a.value == b.value && LexLess(a.candidate.id, b.candidate.id))
  }

  ghost predicate Ranked(s: seq<Score>) {
    forall i, j :: 0 <= i < j < |s| ==> Before(s[i], s[j])
  }

  ghost predicate DistinctIds(s: seq<Score>) {
    forall i, j :: 0 <= i < j < |s| ==> s[i].candidate.id != s[j].candidate.id
  }

  // --- The order ---

  lemma {:induction false} LexTransitive(a: string, b: string, c: string)
    requires LexLess(a, b) && LexLess(b, c)
    ensures LexLess(a, c)
  {
    if a != [] && a[0] == b[0] == c[0] {
      LexTransitive(a[1..], b[1..], c[1..]);
    }
  }

  lemma {:induction false} LexTotal(a: string, b: string)
    ensures a != b ==> LexLess(a, b) || LexLess(b, a)
    ensures !(LexLess(a, b) && LexLess(b, a)) && !LexLess(a, a)
  {
    if a != [] && b != [] && a[0] == b[0] {
      assert a == [a[0]] + a[1..] && b == [b[0]] + b[1..];
      LexTotal(a[1..], b[1..]);
    }
    if a != [] {
      LexTotal(a[1..], a[1..]);
    }
  }

  lemma BeforeTransitive(a: Score, b: Score, c: Score)
    requires Before(a, b) && Before(b, c)
    ensures Before(a, c)
  {
    if a.value == b.value == c.value {
      LexTransitive(a.candidate.id, b.candidate.id, c.candidate.id);
    }
  }

  lemma BeforeAsymmetric(a: Score, b: Score)
    ensures !(Before(a, b) && Before(b, a)) && !Before(a, a)
    ensures a.candidate.id != b.candidate.id ==> Before(a, b) || Before(b, a)
  {
    LexTotal(a.candidate.id, b.candidate.id);
    LexTotal(a.candidate.id, a.candidate.id);
  }

  // --- Sorting; the library's algorithm is not modelled, and `RankIsUnique` shows that it cannot matter ---

  function Insert(x: Score, s: seq<Score>): (r: seq<Score>)
    ensures multiset(r) == multiset{x} + multiset(s)
  {
    if s == [] then [x]
    else if Before(x, s[0]) then [x] + s
    else
      assert s == [s[0]] + s[1..];
      [s[0]] + Insert(x, s[1..])
  }

  lemma RankedFrom(x: Score, s: seq<Score>)
    requires Ranked(s) && forall y :: y in s ==> Before(x, y)
    ensures Ranked([x] + s)
  {
    hide Before;
  }

  lemma {:induction false} InsertKeepsRank(x: Score, s: seq<Score>)
    requires Ranked(s) && forall y :: y in s ==> y.candidate.id != x.candidate.id
    ensures Ranked(Insert(x, s))
  {
    if s != [] {
      BeforeAsymmetric(x, s[0]);
      if Before(x, s[0]) {
        forall j | 0 < j < |s|
          ensures Before(x, s[j])
        {
          BeforeTransitive(x, s[0], s[j]);
        }
        hide Before;
        RankedFrom(x, s);
      } else {
        InsertKeepsRank(x, s[1..]);
        hide Before;
        forall y | y in Insert(x, s[1..])
          ensures Before(s[0], y)
        {
          assert y in multiset(Insert(x, s[1..]));
        }
        RankedFrom(s[0], Insert(x, s[1..]));
      }
    }
  }

  lemma IdIsNew(scores: seq<Score>, i: nat, ranked: seq<Score>)
    requires DistinctIds(scores) && i < |scores| && multiset(ranked) == multiset(scores[..i])
    ensures forall y :: y in ranked ==> y.candidate.id != scores[i].candidate.id
  {
    forall y | y in ranked
      ensures y.candidate.id != scores[i].candidate.id
    {
      assert y in multiset(scores[..i]);
    }
  }

  method Sort(scores: seq<Score>) returns (ranked: seq<Score>)
    requires DistinctIds(scores)
    ensures multiset(ranked) == multiset(scores)
    ensures Ranked(ranked)
  {
    hide Before, Insert, DistinctIds;
    ranked := [];
    for i := 0 to |scores|
      invariant multiset(ranked) == multiset(scores[..i])
      invariant Ranked(ranked)
    {
      IdIsNew(scores, i, ranked);
      InsertKeepsRank(scores[i], ranked);
      assert scores[..i + 1] == scores[..i] + [scores[i]];
      ranked := Insert(scores[i], ranked);
    }
    assert scores[..|scores|] == scores;
  }

  lemma ScoresDistinct(o: Observation)
    ensures DistinctIds(Scores(o))
  {
    var s := Scores(o);
    forall i, j | 0 <= i < j < |s|
      ensures s[i].candidate.id != s[j].candidate.id
    {
      assert s[i].candidate == CANDIDATES[i] && s[j].candidate == CANDIDATES[j];
    }
  }

  /** `Rank`: every candidate scored, and the scores ordered by value, then identifier. */
  method Rank(o: Observation) returns (ranked: seq<Score>)
    ensures multiset(ranked) == multiset(Scores(o))
    ensures Ranked(ranked)
  {
    var scores: seq<Score> := [];
    for i := 0 to |CANDIDATES|
      invariant |scores| == i
      invariant forall k :: 0 <= k < i ==> scores[k] == ScoreOf(CANDIDATES[k], o)
    {
      scores := scores + [ScoreOf(CANDIDATES[i], o)];
    }
    assert scores == Scores(o);
    ScoresDistinct(o);
    ranked := Sort(scores);
  }

  lemma FirstIsSame(a: seq<Score>, b: seq<Score>)
    requires Ranked(a) && Ranked(b) && multiset(a) == multiset(b) && a != []
    ensures b != [] && a[0] == b[0]
  {
    assert a[0] in multiset(a);
    var i :| 0 <= i < |b| && b[i] == a[0];
    assert b[0] in multiset(b);
    var j :| 0 <= j < |a| && a[j] == b[0];
    BeforeAsymmetric(a[0], b[0]);
  }

  lemma RankedTail(s: seq<Score>)
    requires Ranked(s) && s != []
    ensures Ranked(s[1..]) && multiset(s[1..]) == multiset(s) - multiset{s[0]}
  {
    assert s == [s[0]] + s[1..];
  }

  /** An ordering of given scores is determined by them, so every correct sort returns the same list. */
  lemma {:induction false} RankIsUnique(a: seq<Score>, b: seq<Score>)
    requires Ranked(a) && Ranked(b) && multiset(a) == multiset(b)
    ensures a == b
  {
    if a == [] {
      assert |multiset(b)| == 0;
    } else {
      FirstIsSame(a, b);
      RankedTail(a);
      RankedTail(b);
      hide Ranked;
      assert a == [a[0]] + a[1..] && b == [b[0]] + b[1..];
      RankIsUnique(a[1..], b[1..]);
    }
  }

  // --- What evidence does to the order ---

  /** The scores that come before `x`. */
  ghost function ScoresBefore(s: multiset<Score>, x: Score): set<Score> {
    set y | y in s && Before(y, x)
  }

  /** In an ordered list, an entry's index is the number of entries before it. */
  lemma {:induction false} IndexIsAhead(s: seq<Score>, i: nat)
    requires Ranked(s) && i < |s|
    ensures ScoresBefore(multiset(s), s[i]) == set k | 0 <= k < i :: s[k]
    ensures |set k | 0 <= k < i :: s[k]| == i
  {
    forall y
      ensures y in multiset(s) && Before(y, s[i]) <==> exists k :: 0 <= k < i && s[k] == y
    {
      if y in multiset(s) && Before(y, s[i]) {
        var k :| 0 <= k < |s| && s[k] == y;
        BeforeAsymmetric(y, s[i]);
        assert k < i;
      }
    }
    PrefixSize(s, i);
  }

  lemma {:induction false} PrefixSize(s: seq<Score>, i: nat)
    requires Ranked(s) && i <= |s|
    ensures |set k | 0 <= k < i :: s[k]| == i
  {
    if i > 0 {
      PrefixSize(s, i - 1);
      var before := set k | 0 <= k < i - 1 :: s[k];
      forall k | 0 <= k < i - 1
        ensures s[k] != s[i - 1]
      {
        BeforeAsymmetric(s[k], s[i - 1]);
      }
      assert (set k | 0 <= k < i :: s[k]) == before + {s[i - 1]};
    }
  }

  /** More resets or timeouts alone never move the correlation candidate down the list. */
  lemma EvidenceNeverDemotes(o: Observation, rsts: int, timeouts: int, a: seq<Score>, b: seq<Score>, i: nat, j: nat)
    requires rsts >= o.rsts && timeouts >= o.timeouts
    requires Ranked(a) && multiset(a) == multiset(Scores(o))
    requires Ranked(b) && multiset(b) == multiset(Scores(o.(rsts := rsts, timeouts := timeouts)))
    requires i < |a| && a[i].candidate.id == CORRELATION
    requires j < |b| && b[j].candidate.id == CORRELATION
    ensures j <= i
  {
    var p := o.(rsts := rsts, timeouts := timeouts);
    ScoreNamed(o, a[i]);
    ScoreNamed(p, b[j]);
    IndexIsAhead(a, i);
    IndexIsAhead(b, j);
    forall y | y in ScoresBefore(multiset(b), b[j])
      ensures y in ScoresBefore(multiset(a), a[i])
    {
      BeforeAsymmetric(b[j], b[j]);
      OthersUnmoved(o, rsts, timeouts, y, b[j]);
    }
    SubsetSize(ScoresBefore(multiset(b), b[j]), ScoresBefore(multiset(a), a[i]));
  }

  lemma ScoreNamed(o: Observation, x: Score)
    requires x in multiset(Scores(o)) && x.candidate.id == CORRELATION
    ensures x == ScoreOf(CANDIDATES[2], o)
  {
  }

  /** A score other than the correlation candidate's does not depend on resets or timeouts. */
  lemma OthersUnmoved(o: Observation, rsts: int, timeouts: int, y: Score, x: Score)
    requires y in multiset(Scores(o.(rsts := rsts, timeouts := timeouts))) && y != x
    requires x == ScoreOf(CANDIDATES[2], o.(rsts := rsts, timeouts := timeouts))
    ensures y in multiset(Scores(o))
  {
    var s, t := Scores(o.(rsts := rsts, timeouts := timeouts)), Scores(o);
    var k :| 0 <= k < |s| && s[k] == y;
    assert t[k] == y;
  }

  lemma ScoreValues(o: Observation)
    ensures var s := Scores(o);
            && s[0].value == 1.0 && s[1].value <= 2.45 && s[3].value <= 2.9 && s[4].value <= 2.3
            && s[2].value == 0.9 + Capped(o.rsts, 0.8, 2.0) + Capped(o.timeouts, 0.5, 1.5)
  {
    assert "baseline"[0] != "address_family_matrix"[0] && "baseline"[0] != CORRELATION[0];
    assert "baseline"[0] != "tls_matrix"[0] && "baseline"[0] != "quic_observation"[0];
  }

  /** What raises each candidate above its weight, and how far. Connection and name failures raise none. */
  lemma EvidenceExactly(o: Observation)
    ensures var s := Scores(o);
            && |s| == 5 && s[0].value == 1.0
            && s[1].value == (if o.ipv4Success == o.ipv6Success then 0.95 else 2.45)
            && (s[3].value > 0.9 <==> o.tlsErrors > 0) && (s[3].value == 2.9 <==> o.tlsErrors >= 3)
            && (0 <= o.tlsErrors < 3 ==> s[3].value == 0.9 + 0.7 * o.tlsErrors as real)
            && (s[4].value > 0.8 <==> o.quicSeen > 0) && (s[4].value == 2.3 <==> o.quicSeen >= 4)
            && (0 <= o.quicSeen < 4 ==> s[4].value == 0.8 + 0.4 * o.quicSeen as real)
            && (o.rsts >= 3 && o.timeouts >= 3 ==> s[2].value == 4.4)
            && (0 <= o.rsts < 3 && 0 <= o.timeouts < 4 && o.timeouts != 3 ==>
                  s[2].value == 0.9 + 0.8 * o.rsts as real + 0.5 * o.timeouts as real)
    ensures Scores(o.(tcpFailures := 0, dnsMismatches := 0)) == Scores(o)
  {
    ScoreValues(o);
  }

  /** The reason given says whether the candidate's own evidence was seen. */
  lemma ReasonsExactly(o: Observation)
    ensures var s := Scores(o);
            && s[0].reason == Control
            && s[1].reason == (if o.ipv4Success == o.ipv6Success then FamilySymmetry else FamiliesDiffer)
            && (s[2].reason == FailureSymptoms <==> o.rsts > 0 || o.timeouts > 0)
            && (s[3].reason == TlsFailures <==> o.tlsErrors > 0)
            && (s[4].reason == QuicTraffic <==> o.quicSeen > 0)
  {
    ScoreValues(o);
  }

  /** With no evidence the ranking is this list. */
  lemma NoEvidence(o: Observation, ranked: seq<Score>)
    requires o.rsts == o.timeouts == o.tlsErrors == o.quicSeen == 0 && o.ipv4Success == o.ipv6Success
    requires Ranked(ranked) && multiset(ranked) == multiset(Scores(o))
    ensures |ranked| == 5
    ensures ranked[0].candidate.id == "baseline" && ranked[1].candidate.id == "address_family_matrix"
    ensures ranked[2].candidate.id == "reset_timeout_correlation" && ranked[3].candidate.id == "tls_matrix"
    ensures ranked[4].candidate.id == "quic_observation"
  {
    var s := Scores(o);
    ScoreValues(o);
    assert s[2].candidate.id[0] < s[3].candidate.id[0];
    assert Ranked(s);
    RankIsUnique(ranked, s);
  }

  lemma OnlyCorrelationReachesThree(o: Observation, x: Score)
    requires x in multiset(Scores(o)) && x.value >= 3.0
    ensures x.candidate.id == CORRELATION
  {
    ScoreValues(o);
    var k :| 0 <= k < |CANDIDATES| && Scores(o)[k] == x;
    assert k == 2;
  }

  lemma CorrelationTop(o: Observation)
    requires o.rsts >= 2 && o.timeouts >= 2
    ensures Scores(o)[2] in multiset(Scores(o)) && Scores(o)[2].value >= 3.0
  {
    ScoreValues(o);
    assert Capped(o.rsts, 0.8, 2.0) >= 1.6 && Capped(o.timeouts, 0.5, 1.5) >= 1.0;
  }

  lemma FirstIsHighest(ranked: seq<Score>, x: Score)
    requires Ranked(ranked) && x in multiset(ranked)
    ensures ranked != [] && ranked[0] in multiset(ranked) && ranked[0].value >= x.value
  {
    var i :| 0 <= i < |ranked| && ranked[i] == x;
    assert i > 0 ==> Before(ranked[0], x);
  }

  /** Two resets and two timeouts put the correlation candidate first, whatever else was observed. */
  lemma CorrelationLeads(o: Observation, ranked: seq<Score>)
    requires o.rsts >= 2 && o.timeouts >= 2
    requires Ranked(ranked) && multiset(ranked) == multiset(Scores(o))
    ensures ranked != [] && ranked[0].candidate.id == CORRELATION
  {
    CorrelationTop(o);
    FirstIsHighest(ranked, Scores(o)[2]);
    OnlyCorrelationReachesThree(o, ranked[0]);
  }
}
