/** `diagnostic.Engine.Run` after its network calls, and `summarize` (`engine.go`). */
module Diagnostics {
  import opened Prelude
  import opened Probe

  datatype Severity = SeverityOk | SeverityWarning | SeverityCritical
  datatype StageStatus = Pending | Running | Passed | Failed
  datatype ErrorClass = NoError | Timeout | ConnectionReset | TcpFailure | TlsFailure

  /** The four texts `summarize` chooses between. */
  datatype Headline = DnsAnomaly | AllWell | ResetAnomaly | PartlyFailed

  /** One target's name lookups: the system resolver's addresses, if it answered, and whether any DoH endpoint did. */
  datatype Lookup = Lookup(system: Option<nat>, doh: bool)

  datatype TargetResult = TargetResult(target: string, dnsOk: bool, dnsMismatch: bool, tcpConnected: bool,
                                       tlsHandshake: bool,
                                       latency: int, errorClass: ErrorClass, error: string)

  datatype Features = Features(rst: bool, poisoning: bool, timeout: bool)

  /** `tcpSucceeded` and `tlsSucceeded` are the numbers the two stage summaries give out of all results. */
  datatype Report = Report(severity: Severity, headline: Headline, dns: StageStatus, tcp: StageStatus, tls: StageStatus,
                           wfp: StageStatus, tcpSucceeded: nat, tlsSucceeded: nat, features: Features,
                           probeResults: seq<TargetResult>)

  predicate Contains(s: string, part: string) {
    part <= s || (s != [] && Contains(s[1..], part))
  }

  /** `classifyError`; `lower` is the library's lower-casing. */
  function ClassifyError(lower: string -> string, s: string): ErrorClass {
    var l := lower(s);
    if Contains(l, "timeout") || Contains(l, "deadline") then Timeout
    else if Contains(l, "reset") then ConnectionReset
    else TcpFailure
  }

  ghost predicate Occurs(s: string, part: string) {
    exists before: string, after: string :: s == before + part + after
  }

  lemma {:induction false} ContainsExactly(s: string, part: string)
    ensures Contains(s, part) <==> Occurs(s, part)
  {
    if part <= s {
      assert s == "" + part + s[|part|..];
    } else if s != [] {
      ContainsExactly(s[1..], part);
      OccursLater(s, part);
    } else {
      assert forall before: string, after: string :: |before + part + after| >= |part| > 0;
    }
  }

  /** What does not stand at the front stands further back or nowhere. */
  lemma OccursLater(s: string, part: string)
    requires s != [] && !(part <= s)
    ensures Occurs(s, part) <==> Occurs(s[1..], part)
  {
    if before: string, after: string :| s[1..] == before + part + after {
      assert s == ([s[0]] + before) + part + after;
    }
    if before: string, after: string :| s == before + part + after {
      assert before == [] ==> part <= s;
      assert s[1..] == before[1..] + part + after;
    }
  }

  /** The class of an error text, by what occurs in its lower-cased form. */
  lemma ClassifyExactly(lower: string -> string, s: string)
    ensures var c, l := ClassifyError(lower, s), lower(s);
            && (c == Timeout <==> Occurs(l, "timeout") || Occurs(l, "deadline"))
            && (c == ConnectionReset <==> Occurs(l, "reset") && !Occurs(l, "timeout") && !Occurs(l, "deadline"))
            && (c == TcpFailure <==> !Occurs(l, "reset") && !Occurs(l, "timeout") && !Occurs(l, "deadline"))
  {
    ContainsExactly(lower(s), "timeout");
    ContainsExactly(lower(s), "deadline");
    ContainsExactly(lower(s), "reset");
  }

  lemma MissingChar(s: string, part: string, i: nat)
    requires i < |part| && part[i] !in s
    ensures !Occurs(s, part)
  {
    forall before: string, after: string
      ensures s != before + part + after
    {
      assert (before + part + after)[|before| + i] == part[i];
    }
  }

  lemma RefusedIsNoReset()
    ensures !Occurs("connection refused", "reset")
  {
    var s := "connection refused";
    forall before: string, after: string
      ensures s != before + "reset" + after
    {
      var t, k := before + "reset" + after, |before|;
      assert t[k] == 'r' && t[k + 2] == 's';
      assert forall j :: 0 <= j < 14 && s[j] == 'r' ==> j == 11;
    }
  }

  lemma OccursBetween(before: string, part: string, after: string)
    ensures Occurs(before + part + after, part)
  {
  }

  lemma PeerReset()
    ensures var s := "connection reset by peer";
            Occurs(s, "reset") && !Occurs(s, "timeout") && !Occurs(s, "deadline")
  {
    hide Occurs;
    var s := "connection reset by peer";
    OccursBetween("connection ", "reset", " by peer");
    assert s == "connection " + "reset" + " by peer";
    MissingChar(s, "timeout", 2);
    MissingChar(s, "deadline", 0);
  }

  lemma Refused()
    ensures var s := "connection refused";
            !Occurs(s, "reset") && !Occurs(s, "timeout") && !Occurs(s, "deadline")
  {
    hide Occurs;
    var s := "connection refused";
    MissingChar(s, "timeout", 2);
    MissingChar(s, "deadline", 2);
    RefusedIsNoReset();
  }

  lemma TimedOut()
    ensures Occurs("i/o timeout", "timeout")
  {
    hide Occurs;
    OccursBetween("i/o ", "timeout", "");
    assert "i/o timeout" == "i/o " + "timeout" + "";
  }

  /** Three texts the Go network stack produces. */
  lemma FamiliarErrors(lower: string -> string, s: string)
    ensures lower(s) == "connection reset by peer" ==> ClassifyError(lower, s) == ConnectionReset
    ensures lower(s) == "i/o timeout" ==> ClassifyError(lower, s) == Timeout
    ensures lower(s) == "connection refused" ==> ClassifyError(lower, s) == TcpFailure
  {
    hide ClassifyError, Occurs;
    ClassifyExactly(lower, s);
    PeerReset();
    Refused();
    TimedOut();
  }

  function StageForFailures(failures: nat, total: nat): StageStatus {
    if total == 0 || failures == 0 then Passed else Failed
  }

  /** The two resolvers disagree about whether a name resolves. */
  predicate Disagree(l: Lookup) {
    l.system.Some? != l.doh
  }

  predicate TlsFailed(connected: bool, handshake: bool) {
    connected && !handshake
  }

  // --- Which probes failed, as the result loop and as `summarize` see it ---

  predicate TcpDown(r: Result) { !r.tcpConnected }
  predicate TlsDown(r: Result) { TlsFailed(r.tcpConnected, r.tlsHandshake) }
  predicate HandshakeDone(r: Result) { r.tcpConnected && r.tlsHandshake }
  predicate TcpDownEntry(t: TargetResult) { !t.tcpConnected }
  predicate TlsDownEntry(t: TargetResult) { TlsFailed(t.tcpConnected, t.tlsHandshake) }

  /** The indices of the elements that satisfy `p`. */
  ghost function Where<T>(s: seq<T>, p: T -> bool): set<nat> {
    set k: nat | k < |s| && p(s[k])
  }

  lemma WhereGrows<T>(s: seq<T>, i: nat, p: T -> bool)
    requires i < |s|
    ensures |Where(s[..i + 1], p)| == |Where(s[..i], p)| + if p(s[i]) then 1 else 0
  {
    assert Where(s[..i + 1], p) == Where(s[..i], p) + if p(s[i]) then {i} else {};
  }

  lemma WhereEmpty<T>(s: seq<T>, p: T -> bool)
    ensures |Where(s, p)| == 0 <==> forall k :: 0 <= k < |s| ==> !p(s[k])
  {
    forall k: nat | k < |s|
      ensures k in Where(s, p) <==> p(s[k])
    {
    }
  }

  /** Every probe fails to connect, fails its handshake or completes it: exactly one of the three. */
  lemma {:induction false} ProbesSplit(results: seq<Result>)
    ensures |Where(results, TcpDown)| + |Where(results, TlsDown)| + |Where(results, HandshakeDone)| == |results|
  {
    if results != [] {
      var n := |results| - 1;
      ProbesSplit(results[..n]);
      assert results[..n + 1] == results;
      WhereGrows(results, n, TcpDown);
      WhereGrows(results, n, TlsDown);
      WhereGrows(results, n, HandshakeDone);
    }
  }

  /** The number the tls stage gives out is that of the completed handshakes exactly when every target was reached. */
  lemma TlsCountRightExactly(results: seq<Result>)
    ensures |results| - |Where(results, TlsDown)| == |Where(results, HandshakeDone)| + |Where(results, TcpDown)|
    ensures |results| - |Where(results, TlsDown)| == |Where(results, HandshakeDone)| <==>
            forall i :: 0 <= i < |results| ==> results[i].tcpConnected
  {
    ProbesSplit(results);
    WhereEmpty(results, TcpDown);
  }

  /** One target that was never reached: the stage says one of one succeeded, yet no handshake took place. */
  lemma TlsCountWitness()
    ensures var results := [Result("example.com", false, false, 0, "i/o timeout")];
            |results| - |Where(results, TlsDown)| == 1 && |Where(results, HandshakeDone)| == 0
  {
    var results := [Result("example.com", false, false, 0, "i/o timeout")];
    WhereEmpty(results, TlsDown);
    WhereEmpty(results, HandshakeDone);
  }

  ghost predicate ResetSeen(lower: string -> string, results: seq<Result>) {
    exists i ::
      0 <= i < |results| && !results[i].tcpConnected && ClassifyError(lower, results[i].error) == ConnectionReset
  }

  ghost predicate TimeoutSeen(lower: string -> string, results: seq<Result>) {
    exists i :: 0 <= i < |results| && !results[i].tcpConnected && ClassifyError(lower, results[i].error) == Timeout
  }

  /** The recount of `summarize`, from the report's own entries. */
  method Recount(targets: seq<TargetResult>) returns (failTcp: nat, failTls: nat)
    ensures failTcp == |Where(targets, TcpDownEntry)| && failTls == |Where(targets, TlsDownEntry)|
  {
    failTcp, failTls := 0, 0;
    for i := 0 to |targets|
      invariant failTcp == |Where(targets[..i], TcpDownEntry)| && failTls == |Where(targets[..i], TlsDownEntry)|
    {
      WhereGrows(targets, i, TcpDownEntry);
      WhereGrows(targets, i, TlsDownEntry);
      if !targets[i].tcpConnected { failTcp := failTcp + 1; }
      if targets[i].tcpConnected && !targets[i].tlsHandshake { failTls := failTls + 1; }
    }
    assert targets[..|targets|] == targets;
  }

  /** `summarize` decides by the recounted failures. */
  method Summarize(features: Features, targets: seq<TargetResult>) returns (severity: Severity, headline: Headline)
    ensures headline == DnsAnomaly <==> features.poisoning
    ensures headline == AllWell <==>
            !features.poisoning && forall i :: 0 <= i < |targets| ==> targets[i].tcpConnected && targets[i].tlsHandshake
    ensures headline == ResetAnomaly ==> features.rst
    ensures headline == PartlyFailed ==> !features.rst
    ensures severity == if headline == AllWell then SeverityOk else SeverityWarning
  {
    var failTcp, failTls := Recount(targets);
    WhereEmpty(targets, TcpDownEntry);
    WhereEmpty(targets, TlsDownEntry);
    if features.poisoning { return SeverityWarning, DnsAnomaly; }
    if failTcp == 0 && failTls == 0 { return SeverityOk, AllWell; }
    if features.rst { return SeverityWarning, ResetAnomaly; }
    return SeverityWarning, PartlyFailed;
  }

  /** The last answered lookup of a name decides whether its DNS counts as working. */
  predicate Resolved(targets: seq<string>, lookups: seq<Lookup>, name: string)
    requires |targets| == |lookups|
  {
    targets != [] &&
    if Last(targets) == name && Last(lookups).system.Some? then Last(lookups).system.value > 0
    else Resolved(targets[..|targets| - 1], lookups[..|lookups| - 1], name)
  }

  /** The entry `Run` makes for one probe result. */
  ghost predicate Describes(lower: string -> string, t: TargetResult, r: Result, dnsOk: bool, dnsFailed: bool) {
    && t.target == r.target && t.tcpConnected == r.tcpConnected && t.tlsHandshake == r.tlsHandshake
    && t.latency == r.latency
    && t.dnsOk == dnsOk && t.dnsMismatch == (dnsFailed && dnsOk)
    && t.errorClass == (if !r.tcpConnected then ClassifyError(lower, r.error)
                        else if !r.tlsHandshake then TlsFailure
                        else NoError)
    && t.error == (if r.tcpConnected && r.tlsHandshake then "" else r.error)
  }

  method CompareLookups(targets: seq<string>, lookups: seq<Lookup>) returns (dnsMap: map<string, nat>, failed: bool)
    requires |targets| == |lookups|
    ensures failed <==> exists i :: 0 <= i < |lookups| && Disagree(lookups[i])
    ensures forall name :: name in dnsMap && dnsMap[name] > 0 <==> Resolved(targets, lookups, name)
  {
    dnsMap, failed := map[], false;
    for i := 0 to |targets|
      invariant failed <==> exists k :: 0 <= k < i && Disagree(lookups[k])
      invariant forall name :: name in dnsMap && dnsMap[name] > 0 <==> Resolved(targets[..i], lookups[..i], name)
    {
      assert targets[..i + 1][..i] == targets[..i] && lookups[..i + 1][..i] == lookups[..i];
      if lookups[i].system.Some? {
        dnsMap := dnsMap[targets[i] := lookups[i].system.value];
      }
      if lookups[i].system.Some? != lookups[i].doh {
        failed := true;
      }
    }
    assert targets[..|targets|] == targets && lookups[..|targets|] == lookups;
  }

  /** The result loop: both failure counts, the features and one entry per result. */
  method ProbeLoop(lower: string -> string, dnsMap: map<string, nat>, dnsFailed: bool, results: seq<Result>)
    returns (failTcp: nat, failTls: nat, features: Features, entries: seq<TargetResult>)
    ensures failTcp == |Where(results, TcpDown)| && failTls == |Where(results, TlsDown)|
    ensures features == Features(ResetSeen(lower, results), dnsFailed, TimeoutSeen(lower, results))
    ensures |entries| == |results|
    ensures forall k :: 0 <= k < |results| ==>
              Describes(lower, entries[k], results[k],
                        results[k].target in dnsMap && dnsMap[results[k].target] > 0, dnsFailed)
    // What `summarize` will count again in the entries.
    ensures failTcp == |Where(entries, TcpDownEntry)| && failTls == |Where(entries, TlsDownEntry)|
  {
    hide ClassifyError, Where;
    WhereEmpty(results[..0], TcpDown);
    WhereEmpty(results[..0], TlsDown);
    features := Features(false, dnsFailed, false);
    failTcp, failTls, entries := 0, 0, [];
    for i := 0 to |results|
      invariant |entries| == i
      invariant failTcp == |Where(results[..i], TcpDown)| && failTls == |Where(results[..i], TlsDown)|
      invariant features == Features(ResetSeen(lower, results[..i]), dnsFailed, TimeoutSeen(lower, results[..i]))
      invariant forall k :: 0 <= k < i ==>
                  Describes(lower, entries[k], results[k],
                            results[k].target in dnsMap && dnsMap[results[k].target] > 0, dnsFailed)
    {
      var r := results[i];
      SeenStep(lower, results, i);
      WhereGrows(results, i, TcpDown);
      WhereGrows(results, i, TlsDown);
      var t := MakeEntry(lower, r, r.target in dnsMap && dnsMap[r.target] > 0, dnsFailed);
      if !r.tcpConnected {
        failTcp := failTcp + 1;
        features := features.(timeout := features.timeout || ClassifyError(lower, r.error) == Timeout);
        if t.errorClass == ConnectionReset { features := features.(rst := true); }
      }
      if r.tcpConnected && !r.tlsHandshake {
        failTls := failTls + 1;
      }
      entries := entries + [t];
    }
    assert results[..|results|] == results;
    RecountAgrees(results, entries);
  }

  /** The recount in the entries finds the failures of the results. */
  lemma RecountAgrees(results: seq<Result>, entries: seq<TargetResult>)
    requires |entries| == |results|
    requires forall k :: 0 <= k < |results| ==>
               entries[k].tcpConnected == results[k].tcpConnected && entries[k].tlsHandshake == results[k].tlsHandshake
    ensures Where(entries, TcpDownEntry) == Where(results, TcpDown)
    ensures Where(entries, TlsDownEntry) == Where(results, TlsDown)
  {
  }

  method MakeEntry(lower: string -> string, r: Result, dnsOk: bool, dnsFailed: bool) returns (t: TargetResult)
    ensures Describes(lower, t, r, dnsOk, dnsFailed)
  {
    t := TargetResult(r.target, dnsOk, dnsFailed && dnsOk, r.tcpConnected, r.tlsHandshake, r.latency, NoError, "");
    if !r.tcpConnected {
      t := t.(errorClass := ClassifyError(lower, r.error), error := r.error);
    }
    if r.tcpConnected && !r.tlsHandshake {
      t := t.(errorClass := TlsFailure, error := r.error);
    }
  }

  /** From the lookups and the probe results to the report. */
  method Run(lower: string -> string, targets: seq<string>, lookups: seq<Lookup>, results: seq<Result>)
    returns (report: Report)
    requires |targets| == |lookups|
    // The stages say what the probes found.
    ensures report.dns == (if exists i :: 0 <= i < |lookups| && lookups[i].system.Some? != lookups[i].doh then Failed
                           else Passed)
    ensures report.tcp == (if forall i :: 0 <= i < |results| ==> results[i].tcpConnected then Passed else Failed)
    ensures report.tls == (if forall i ::
                             0 <= i < |results| ==> !(results[i].tcpConnected && !results[i].tlsHandshake)
                           then Passed else Failed)
    ensures report.wfp == Passed
    // The summaries count; every target that was never reached counts as a TLS success.
    ensures report.tcpSucceeded == |results| - |Where(results, TcpDown)|
    ensures report.tlsSucceeded == |Where(results, HandshakeDone)| + |Where(results, TcpDown)|
    ensures report.tlsSucceeded == |Where(results, HandshakeDone)| <==> report.tcp == Passed
    // The severity is the verdict of the three measured stages, and a reset always shows.
    ensures report.severity == SeverityOk <==> report.dns == Passed && report.tcp == Passed && report.tls == Passed
    ensures report.severity != SeverityCritical
    ensures report.features.rst ==> report.severity == SeverityWarning
    ensures report.headline == ResetAnomaly <==> report.dns == Passed && ResetSeen(lower, results)
    ensures report.features == Features(ResetSeen(lower, results), report.dns == Failed, TimeoutSeen(lower, results))
    ensures |report.probeResults| == |results|
    ensures forall i :: 0 <= i < |results| ==>
              Describes(lower, report.probeResults[i], results[i],
                        Resolved(targets, lookups, results[i].target), report.dns == Failed)
  {
    hide Where, ClassifyError, Resolved, TimeoutSeen;
    var dnsMap, dnsFailed := CompareLookups(targets, lookups);
    var failTcp, failTls, features, entries := ProbeLoop(lower, dnsMap, dnsFailed, results);
    ProbesSplit(results);
    WhereEmpty(results, TcpDown);
    WhereEmpty(results, TlsDown);
    var severity, headline := Summarize(features, entries);
    report := Report(severity, headline, if dnsFailed then Failed else Passed, StageForFailures(failTcp, |results|),
                     StageForFailures(failTls, |results|), Passed, |results| - failTcp, |results| - failTls,
                     features, entries);
  }

  lemma SeenStep(lower: string -> string, results: seq<Result>, i: nat)
    requires i < |results|
    ensures var r := results[i];
            && (ResetSeen(lower, results[..i + 1]) <==>
                  || ResetSeen(lower, results[..i])
                  || (!r.tcpConnected && ClassifyError(lower, r.error) == ConnectionReset))
            && (TimeoutSeen(lower, results[..i + 1]) <==>
                  TimeoutSeen(lower, results[..i]) || (!r.tcpConnected && ClassifyError(lower, r.error) == Timeout))
  {
    var before, after := results[..i], results[..i + 1];
    assert after[i] == results[i];
    assert forall k :: 0 <= k < i ==> after[k] == before[k];
  }
}
