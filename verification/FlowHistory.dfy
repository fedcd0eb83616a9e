/** Both tables over whole histories of packets and expiries. */
module FlowHistory {
  import opened Prelude
  import opened TransportTypes
  import opened FlowTypes
  import opened FlowTable
  import opened FlowAnalyzer
  import opened PayloadAnalyzer

  datatype Op = Packet(seen: Observation) | Expiry(now: int, idle: nat)

  function AnalyzerAfter(ops: seq<Op>): Sessions {
    if ops == [] then map[]
    else
      var before := AnalyzerAfter(ops[..|ops| - 1]);
      match Last(ops)
      case Packet(o) => Observed(before, o)
      case Expiry(now, idle) => Kept(before, now, idle)
  }

  function DatapathAfter(ops: seq<Op>): Flows {
    if ops == [] then map[]
    else
      var before := DatapathAfter(ops[..|ops| - 1]);
      match Last(ops)
      case Packet(o) => Counted(before, o.meta, o.now)
      case Expiry(now, idle) => Fresh(before, now, idle)
  }

  /** The observations of a flow since it was last found idle: the history its entry stands for. */
  function Epoch(ops: seq<Op>, key: FlowKey): seq<Observation> {
    if ops == [] then []
    else
      var before := Epoch(ops[..|ops| - 1], key);
      match Last(ops)
      case Packet(o) => if o.meta.flow == key then before + [o] else before
      case Expiry(now, idle) => if before != [] && now > Last(before).now + idle then [] else before
  }

  // --- The two tables agree ---

  /** The two tables hold the same flows with the same counts and times, each filed under its own endpoint. */
  ghost predicate Agree(sessions: Sessions, flows: Flows) {
    && sessions.Keys == flows.Keys
    && forall k :: k in flows ==>
         && flows[k].context == FlowContext(k.protocol, k.remoteIp, k.remotePort)
         && sessions[k].counters ==
            Counters(flows[k].packets, flows[k].bytes, Some(flows[k].createdAt), Some(flows[k].lastSeen))
  }

  lemma {:induction false} Lockstep(ops: seq<Op>)
    ensures Agree(AnalyzerAfter(ops), DatapathAfter(ops))
  {
    if ops != [] {
      Lockstep(ops[..|ops| - 1]);
    }
  }

  /** Every expiry removes the same flows from both tables, so both return the same number. */
  lemma SameExpiryCount(ops: seq<Op>, now: int, idle: nat)
    ensures var sessions, flows := AnalyzerAfter(ops), DatapathAfter(ops);
            && Lapsed(sessions, now, idle) == Silent(flows, now, idle)
            && |sessions| - |Kept(sessions, now, idle)| == |flows| - |Fresh(flows, now, idle)|
  {
    Lockstep(ops);
    KeptOrLapsed(AnalyzerAfter(ops), now, idle);
    FreshOrSilent(DatapathAfter(ops), now, idle);
  }

  // --- An entry is a summary of its epoch ---

  ghost predicate Any(e: seq<Observation>, p: Observation -> bool) {
    exists i :: 0 <= i < |e| && p(e[i])
  }

  /** The value shown by the last observation that shows one. */
  function Latest<T>(e: seq<Observation>, shown: Observation -> Option<T>): Option<T> {
    if e == [] then None else shown(Last(e)).OrElse(Latest(e[..|e| - 1], shown))
  }

  function TotalBytes(e: seq<Observation>): nat {
    if e == [] then 0 else TotalBytes(e[..|e| - 1]) + Last(e).meta.payloadLen
  }

  /** By observation `i` both halves of the handshake have been seen, and the clock is not behind the first packet. */
  ghost predicate Connected(e: seq<Observation>, i: nat)
    requires i < |e|
  {
    Any(e[..i + 1], ShowsSyn) && Any(e[..i + 1], ShowsSynAck) && e[0].now <= e[i].now
  }

  /** The latency is taken at the first observation that qualifies, and counts from the first packet. */
  ghost predicate LatencyOf(latency: Option<nat>, e: seq<Observation>) {
    match latency
    case None => forall i: nat :: i < |e| ==> !Connected(e, i)
    case Some(d) => exists i: nat :: i < |e| && Connected(e, i) && d == e[i].now - e[0].now
                                    && forall j: nat :: j < i ==> !Connected(e, j)
  }

  ghost predicate CountsOf(c: Counters, e: seq<Observation>) {
    && e != []
    && c.packets == Min(|e|, MAX_U64) && c.bytes == Min(TotalBytes(e), MAX_U64)
    && c.firstSeen == Some(e[0].now) && c.lastSeen == Some(Last(e).now)
  }

  ghost predicate FlagsOf(t: TcpSignals, e: seq<Observation>) {
    && t.syn == Any(e, ShowsSyn) && t.synAck == Any(e, ShowsSynAck) && t.ack == Any(e, ShowsAck)
    && t.fin == Any(e, ShowsFin) && t.rst == Any(e, ShowsRst)
  }

  ghost predicate PayloadsOf(p: PayloadSignals, e: seq<Observation>) {
    && p.tls == Any(e, ShowsHello) && p.sni == Latest(e, SniShown)
    && p.quic == Any(e, ShowsQuic) && p.version == Latest(e, VersionShown) && p.packetType == Latest(e, TypeShown)
  }

  /** Every field of an entry is what the observations of its epoch show. */
  ghost predicate Summarises(s: FlowSignals, e: seq<Observation>) {
    CountsOf(s.counters, e) && FlagsOf(s.tcp, e) && PayloadsOf(s.payloads, e) && LatencyOf(s.connectLatency, e)
  }

  lemma AnyGrows(e: seq<Observation>, o: Observation, p: Observation -> bool)
    ensures Any(e + [o], p) <==> Any(e, p) || p(o)
  {
    var g := e + [o];
    if Any(e, p) {
      var i :| 0 <= i < |e| && p(e[i]);
      assert g[i] == e[i];
    }
    if p(o) {
      assert g[|e|] == o;
    }
  }

  /** One more observation leaves the earlier instants as they were. */
  lemma ConnectedStays(e: seq<Observation>, o: Observation)
    requires e != []
    ensures forall i: nat :: i < |e| ==> Connected(e + [o], i) == Connected(e, i)
  {
    var g := e + [o];
    forall i: nat | i < |e|
      ensures Connected(g, i) == Connected(e, i)
    {
      assert g[..i + 1] == e[..i + 1];
    }
  }

  /** The new one qualifies when the flags and the clock say so. */
  lemma ConnectedGrows(t: TcpSignals, e: seq<Observation>, o: Observation)
    requires e != [] && FlagsOf(t, e)
    ensures Connected(e + [o], |e|) <==> TcpAfter(t, o).syn && TcpAfter(t, o).synAck && e[0].now <= o.now
  {
    hide ShowsSyn, ShowsSynAck;
    var g := e + [o];
    assert g[..|e| + 1] == g;
    AnyGrows(e, o, ShowsSyn);
    AnyGrows(e, o, ShowsSynAck);
  }

  /** A flow on which TCP flags were seen is a TCP flow. */
  lemma FlagsMeanTcp(t: TcpSignals, e: seq<Observation>, o: Observation)
    requires FlagsOf(t, e) && (forall x :: x in e ==> x.meta.flow == o.meta.flow) && TcpAfter(t, o).syn
    ensures o.meta.flow.protocol == Tcp
  {
    if t.syn {
      var i :| 0 <= i < |e| && ShowsSyn(e[i]);
      assert e[i] in e;
    }
  }

  lemma LatencyStays(latency: Option<nat>, e: seq<Observation>, o: Observation)
    requires e != [] && LatencyOf(latency, e) && latency.Some?
    ensures LatencyOf(latency, e + [o])
  {
    hide Connected;
    ConnectedStays(e, o);
    var i: nat :| i < |e| && Connected(e, i) && latency.value == e[i].now - e[0].now
                  && forall j: nat :: j < i ==> !Connected(e, j);
    var g := e + [o];
    assert g[0] == e[0] && g[i] == e[i] && Connected(g, i);
  }

  lemma LatencyTaken(e: seq<Observation>, o: Observation)
    requires e != [] && LatencyOf(None, e)
    ensures !Connected(e + [o], |e|) ==> LatencyOf(None, e + [o])
    ensures Connected(e + [o], |e|) && o.now >= e[0].now ==> LatencyOf(Some(o.now - e[0].now), e + [o])
  {
    hide Connected;
    ConnectedStays(e, o);
    var g := e + [o];
    assert g[0] == e[0] && g[|e|] == o;
  }

  lemma LatencyGrows(s: FlowSignals, e: seq<Observation>, o: Observation)
    requires e != [] && s.counters.firstSeen == Some(e[0].now) && FlagsOf(s.tcp, e) && LatencyOf(s.connectLatency, e)
    requires forall x :: x in e ==> x.meta.flow == o.meta.flow
    ensures LatencyOf(Updated(s, o).connectLatency, e + [o])
  {
    hide LatencyOf, Connected, PayloadsAfter;
    ConnectedGrows(s.tcp, e, o);
    if s.connectLatency.Some? {
      LatencyStays(s.connectLatency, e, o);
    } else {
      LatencyTaken(e, o);
      if TcpAfter(s.tcp, o).syn {
        FlagsMeanTcp(s.tcp, e, o);
      }
    }
  }

  lemma FlagsGrow(t: TcpSignals, e: seq<Observation>, o: Observation)
    requires FlagsOf(t, e)
    ensures FlagsOf(TcpAfter(t, o), e + [o])
  {
    AnyGrows(e, o, ShowsSyn);
    AnyGrows(e, o, ShowsSynAck);
    AnyGrows(e, o, ShowsAck);
    AnyGrows(e, o, ShowsFin);
    AnyGrows(e, o, ShowsRst);
  }

  lemma PayloadsGrow(p: PayloadSignals, e: seq<Observation>, o: Observation)
    requires PayloadsOf(p, e)
    ensures PayloadsOf(PayloadsAfter(p, o), e + [o])
  {
    AnyGrows(e, o, ShowsHello);
    AnyGrows(e, o, ShowsQuic);
    assert (e + [o])[..|e|] == e;
  }

  lemma CountsGrow(c: Counters, e: seq<Observation>, o: Observation)
    requires if e == [] then c == NO_SIGNALS.counters else CountsOf(c, e)
    ensures CountsOf(CountersAfter(c, o), e + [o])
  {
    assert (e + [o])[..|e|] == e;
  }

  lemma SummaryGrows(s: FlowSignals, e: seq<Observation>, o: Observation)
    requires if e == [] then s == NO_SIGNALS else Summarises(s, e)
    requires forall x :: x in e ==> x.meta.flow == o.meta.flow
    ensures Summarises(Updated(s, o), e + [o])
  {
    CountsGrow(s.counters, e, o);
    FlagsGrow(s.tcp, e, o);
    PayloadsGrow(s.payloads, e, o);
    if e != [] {
      LatencyGrows(s, e, o);
    } else {
      LatencyStarts(o);
    }
  }

  /** One packet cannot be both a SYN and a SYN-ACK. */
  lemma LatencyStarts(o: Observation)
    ensures Updated(NO_SIGNALS, o).connectLatency == None && LatencyOf(None, [] + [o])
  {
    AnyGrows([], o, ShowsSyn);
    AnyGrows([], o, ShowsSynAck);
    assert ([] + [o])[..1] == [] + [o];
  }

  /** The table has an entry for the flow exactly when `e` is not empty, and that entry summarises it. */
  ghost predicate Files(flows: Sessions, key: FlowKey, e: seq<Observation>) {
    && (forall x :: x in e ==> x.meta.flow == key)
    && (key in flows <==> e != [])
    && (key in flows ==> Summarises(flows[key], e))
  }

  lemma ObservedFiles(flows: Sessions, key: FlowKey, e: seq<Observation>, o: Observation)
    requires Files(flows, key, e)
    ensures Files(Observed(flows, o), key, if o.meta.flow == key then e + [o] else e)
  {
    hide Summarises, Updated;
    if o.meta.flow == key {
      SummaryGrows(if key in flows then flows[key] else NO_SIGNALS, e, o);
    }
  }

  lemma KeptFiles(flows: Sessions, key: FlowKey, e: seq<Observation>, now: int, idle: nat)
    requires Files(flows, key, e)
    ensures Files(Kept(flows, now, idle), key, if e != [] && now > Last(e).now + idle then [] else e)
  {
    hide FlagsOf, PayloadsOf, LatencyOf, TotalBytes;
  }

  /** After any history a flow has an entry exactly while its epoch is not empty, and that entry summarises it. */
  lemma {:induction false} EntryIsEpoch(ops: seq<Op>, key: FlowKey)
    ensures forall x :: x in Epoch(ops, key) ==> x.meta.flow == key
    ensures key in AnalyzerAfter(ops) <==> Epoch(ops, key) != []
    ensures key in AnalyzerAfter(ops) ==> Summarises(AnalyzerAfter(ops)[key], Epoch(ops, key))
  {
    hide Summarises, Observed, Kept;
    if ops != [] {
      var before := ops[..|ops| - 1];
      EntryIsEpoch(before, key);
      match Last(ops)
      case Packet(o) => ObservedFiles(AnalyzerAfter(before), key, Epoch(before, key), o);
      case Expiry(now, idle) => KeptFiles(AnalyzerAfter(before), key, Epoch(before, key), now, idle);
    }
  }

  /** An expiry removes exactly the flows whose last packet lies more than `idle` back. */
  lemma ExpiredExactly(ops: seq<Op>, key: FlowKey, now: int, idle: nat)
    ensures var e := Epoch(ops, key);
            key in Lapsed(AnalyzerAfter(ops), now, idle) <==> e != [] && now > Last(e).now + idle
  {
    EntryIsEpoch(ops, key);
  }

  /** With a clock that never goes back, a latency is present exactly when both halves of the handshake were seen. */
  lemma LatencyWithSteadyClock(ops: seq<Op>, key: FlowKey)
    requires key in AnalyzerAfter(ops)
    requires var e := Epoch(ops, key); forall i, j :: 0 <= i <= j < |e| ==> e[i].now <= e[j].now
    ensures var e := Epoch(ops, key);
            AnalyzerAfter(ops)[key].connectLatency.Some? <==> Any(e, ShowsSyn) && Any(e, ShowsSynAck)
  {
    EntryIsEpoch(ops, key);
    SteadyLatency(AnalyzerAfter(ops)[key].connectLatency, Epoch(ops, key));
  }

  lemma SteadyLatency(latency: Option<nat>, e: seq<Observation>)
    requires e != [] && LatencyOf(latency, e) && e[0].now <= Last(e).now
    ensures latency.Some? <==> Any(e, ShowsSyn) && Any(e, ShowsSynAck)
  {
    hide ShowsSyn, ShowsSynAck;
    var n: nat := |e| - 1;
    assert e[..n + 1] == e;
    if latency.None? {
      assert !Connected(e, n);
    } else {
      var i: nat :| i < |e| && Connected(e, i);
      AnyOfPrefix(e, i + 1, ShowsSyn);
      AnyOfPrefix(e, i + 1, ShowsSynAck);
    }
  }

  lemma AnyOfPrefix(e: seq<Observation>, n: nat, p: Observation -> bool)
    requires n <= |e| && Any(e[..n], p)
    ensures Any(e, p)
  {
    var i :| 0 <= i < n && p(e[..n][i]);
    assert p(e[i]);
  }

  // --- What a diagnosis says about the history ---

  function Rank(l: Lifecycle): nat {
    match l
    case New => 0
    case SynSent => 1
    case Established => 2
    case FinSeen => 3
    case Reset => 4
  }

  /** One operation that leaves the flow in the table does not move its state back. */
  lemma LifecycleStep(ops: seq<Op>, op: Op, key: FlowKey)
    requires key in AnalyzerAfter(ops) && key in AnalyzerAfter(ops + [op])
    ensures Rank(LifecycleOf(AnalyzerAfter(ops)[key])) <= Rank(LifecycleOf(AnalyzerAfter(ops + [op])[key]))
  {
    assert (ops + [op])[..|ops|] == ops;
  }

  /** The state of a flow never moves back while the flow stays in the table, however long. */
  lemma {:induction false} LifecycleNeverMovesBack(ops: seq<Op>, more: seq<Op>, key: FlowKey)
    requires forall n :: 0 <= n <= |more| ==> key in AnalyzerAfter(ops + more[..n])
    ensures key in AnalyzerAfter(ops) && key in AnalyzerAfter(ops + more)
    ensures Rank(LifecycleOf(AnalyzerAfter(ops)[key])) <= Rank(LifecycleOf(AnalyzerAfter(ops + more)[key]))
  {
    hide AnalyzerAfter, LifecycleOf;
    assert ops + more[..0] == ops && more[..|more|] == more;
    if more != [] {
      var some := more[..|more| - 1];
      assert key in AnalyzerAfter(ops + some);
      forall n | 0 <= n <= |some|
        ensures key in AnalyzerAfter(ops + some[..n])
      {
        assert some[..n] == more[..n];
      }
      LifecycleNeverMovesBack(ops, some, key);
      assert ops + more == (ops + some) + [Last(more)];
      LifecycleStep(ops + some, Last(more), key);
    }
  }

  lemma SynAckIsAck(ops: seq<Op>, key: FlowKey)
    requires key in AnalyzerAfter(ops)
    ensures AnalyzerAfter(ops)[key].tcp.synAck ==> AnalyzerAfter(ops)[key].tcp.ack
  {
    EntryIsEpoch(ops, key);
    assert forall o :: ShowsSynAck(o) ==> ShowsAck(o);
  }

  /** Every payload report in the history is one the payload analyzer gives for that packet's protocol. */
  ghost predicate Genuine(ops: seq<Op>) {
    forall i :: 0 <= i < |ops| && ops[i].Packet? ==>
      exists payload :: ops[i].seen.report == PayloadOutcome(ops[i].seen.meta.flow.protocol, payload)
  }

  lemma {:induction false} GenuineEpoch(ops: seq<Op>, key: FlowKey, o: Observation)
    requires Genuine(ops) && o in Epoch(ops, key)
    ensures exists payload :: o.report == PayloadOutcome(o.meta.flow.protocol, payload)
  {
    if o !in Epoch(ops[..|ops| - 1], key) {
      assert ops[|ops| - 1] == Packet(o);
    } else {
      GenuineEpoch(ops[..|ops| - 1], key, o);
    }
  }

  /** UDP flows are only ever diagnosed QUIC or not at all, TCP flows never QUIC, and other protocols never. */
  lemma DiagnosisFitsProtocol(ops: seq<Op>, key: FlowKey, now: int, timeout: nat)
    requires key in AnalyzerAfter(ops) && Genuine(ops)
    ensures var s := AnalyzerAfter(ops)[key];
            var d := DiagnosisOf(s, LifecycleOf(s), now, timeout);
            && (key.protocol == Udp ==> d == QuicLongHeaderObserved || d == NoDiagnosis)
            && (key.protocol == Tcp ==> d != QuicLongHeaderObserved)
            && (key.protocol == Unknown ==> d == NoDiagnosis)
  {
    hide PayloadOutcome, AnalyzerAfter, Epoch, CountsOf, LatencyOf;
    EntryIsEpoch(ops, key);
    var e := Epoch(ops, key);
    forall i | 0 <= i < |e|
      ensures ShowsHello(e[i]) ==> key.protocol == Tcp
      ensures ShowsQuic(e[i]) ==> key.protocol == Udp
    {
      GenuineEpoch(ops, key, e[i]);
      var payload :| e[i].report == PayloadOutcome(key.protocol, payload);
      ReportMatchesProtocol(key.protocol, payload);
    }
  }

  // The TCP flags of an epoch, by their bits: SYN alone, SYN with ACK, FIN, RST.
  ghost predicate SawSyn(e: seq<Observation>) {
    exists i :: 0 <= i < |e| && e[i].meta.flow.protocol == Tcp
                && e[i].meta.tcpFlags / 2 % 2 == 1 && e[i].meta.tcpFlags / 16 % 2 == 0
  }

  ghost predicate SawSynAck(e: seq<Observation>) {
    exists i :: 0 <= i < |e| && e[i].meta.flow.protocol == Tcp
                && e[i].meta.tcpFlags / 2 % 2 == 1 && e[i].meta.tcpFlags / 16 % 2 == 1
  }

  ghost predicate SawFin(e: seq<Observation>) {
    exists i :: 0 <= i < |e| && e[i].meta.flow.protocol == Tcp && e[i].meta.tcpFlags % 2 == 1
  }

  ghost predicate SawRst(e: seq<Observation>) {
    exists i :: 0 <= i < |e| && e[i].meta.flow.protocol == Tcp && e[i].meta.tcpFlags / 4 % 2 == 1
  }

  ghost predicate SawHello(e: seq<Observation>) {
    exists i :: 0 <= i < |e| && e[i].report.Ok? && e[i].report.info.TlsClientHello?
  }

  ghost predicate SawQuic(e: seq<Observation>) {
    exists i :: 0 <= i < |e| && e[i].report.Ok? && e[i].report.info.QuicLongHeader?
  }

  /** The signals of an entry are the raw bits and reports of its epoch. */
  lemma SignalsAreRaw(ops: seq<Op>, key: FlowKey)
    requires key in AnalyzerAfter(ops)
    ensures var s, e := AnalyzerAfter(ops)[key], Epoch(ops, key);
            && e != [] && s.counters.lastSeen == Some(Last(e).now)
            && s.tcp.syn == SawSyn(e) && s.tcp.synAck == SawSynAck(e)
            && s.tcp.fin == SawFin(e) && s.tcp.rst == SawRst(e)
            && (s.tcp.synAck ==> s.tcp.ack)
            && s.payloads.tls == SawHello(e) && s.payloads.quic == SawQuic(e)
  {
    EntryIsEpoch(ops, key);
    SynAckIsAck(ops, key);
    hide AnalyzerAfter, Epoch, LatencyOf, TotalBytes;
    BitsOf(Epoch(ops, key));
  }

  lemma BitsOf(e: seq<Observation>)
    ensures Any(e, ShowsSyn) == SawSyn(e) && Any(e, ShowsSynAck) == SawSynAck(e)
    ensures Any(e, ShowsFin) == SawFin(e) && Any(e, ShowsRst) == SawRst(e)
    ensures Any(e, ShowsHello) == SawHello(e) && Any(e, ShowsQuic) == SawQuic(e)
  {
  }

  /** Which state a flow is in, by what its packets since the last expiry carried. */
  lemma LifecycleExactly(ops: seq<Op>, key: FlowKey)
    requires key in AnalyzerAfter(ops)
    ensures var l, e := LifecycleOf(AnalyzerAfter(ops)[key]), Epoch(ops, key);
            && (l == Reset <==> SawRst(e))
            && (l == FinSeen <==> SawFin(e) && !SawRst(e))
            && (l == Established <==> SawSyn(e) && SawSynAck(e) && !SawFin(e) && !SawRst(e))
            && (l == SynSent <==> SawSyn(e) && !SawSynAck(e) && !SawFin(e) && !SawRst(e))
            && (l == New <==> !SawSyn(e) && !SawFin(e) && !SawRst(e))
  {
    SignalsAreRaw(ops, key);
    hide AnalyzerAfter, Epoch, SawSyn, SawSynAck, SawFin, SawRst;
  }

  /** A SYN that nothing answered or ended. */
  ghost predicate Unanswered(e: seq<Observation>) {
    SawSyn(e) && !SawSynAck(e) && !SawFin(e) && !SawRst(e)
  }

  /** Which diagnosis a flow gets: exactly one of the seven, in this order. */
  lemma DiagnosisExactly(ops: seq<Op>, key: FlowKey, now: int, timeout: nat)
    requires key in AnalyzerAfter(ops)
    ensures var s, e := AnalyzerAfter(ops)[key], Epoch(ops, key);
            var d := DiagnosisOf(s, LifecycleOf(s), now, timeout);
            && e != []
            && (d == TcpReset <==> SawRst(e))
            && (d == IdleTimeoutSuspected <==> Unanswered(e) && (timeout == 0 || now >= Last(e).now + timeout))
            && (d == TcpHandshakeIncomplete <==> Unanswered(e) && timeout != 0 && now < Last(e).now + timeout)
            && (d == TlsClientHelloObserved <==> SawHello(e) && !SawRst(e) && !Unanswered(e))
            && (d == QuicLongHeaderObserved <==> SawQuic(e) && !SawHello(e) && !SawRst(e) && !Unanswered(e))
            && (d == HealthyTransport <==>
                  SawSyn(e) && SawSynAck(e) && !SawFin(e) && !SawRst(e) && !SawHello(e) && !SawQuic(e))
  {
    SignalsAreRaw(ops, key);
    hide AnalyzerAfter, Epoch, SawSyn, SawSynAck, SawFin, SawRst, SawHello, SawQuic;
  }

  /** The value `Latest` picks is shown somewhere, and nothing after that shows one. */
  lemma {:induction false} LatestMeaning<T>(e: seq<Observation>, shown: Observation -> Option<T>, v: T)
    ensures Latest(e, shown) == Some(v) <==>
            exists i :: 0 <= i < |e| && shown(e[i]) == Some(v) && forall j :: i < j < |e| ==> shown(e[j]) == None
  {
    if e != [] {
      var front := e[..|e| - 1];
      LatestMeaning(front, shown, v);
      assert e[|e| - 1] == Last(e);
      if shown(Last(e)) == None {
        forall i | && 0 <= i < |front| && shown(front[i]) == Some(v)
                   && forall j :: i < j < |front| ==> shown(front[j]) == None
          ensures shown(e[i]) == Some(v) && forall j :: i < j < |e| ==> shown(e[j]) == None
        {
          forall j | i < j < |e|
            ensures shown(e[j]) == None
          {
            assert j < |front| ==> e[j] == front[j];
          }
        }
        forall i | 0 <= i < |e| && shown(e[i]) == Some(v) && forall j :: i < j < |e| ==> shown(e[j]) == None
          ensures i < |front| && shown(front[i]) == Some(v) && forall j :: i < j < |front| ==> shown(front[j]) == None
        {
          assert i < |front| && front[i] == e[i];
        }
      }
    }
  }

  ghost predicate NamesHost(o: Observation, host: seq<byte>) {
    o.report.Ok? && o.report.info.TlsClientHello? && o.report.info.sni == Some(host)
  }

  /** The server name kept is that of the last ClientHello of the epoch that carried one. */
  lemma NameIsLast(ops: seq<Op>, key: FlowKey, host: seq<byte>)
    requires key in AnalyzerAfter(ops)
    ensures var e := Epoch(ops, key);
            AnalyzerAfter(ops)[key].payloads.sni == Some(host) <==>
            exists i :: 0 <= i < |e| && NamesHost(e[i], host)
                        && forall j, other :: i < j < |e| ==> !NamesHost(e[j], other)
  {
    EntryIsEpoch(ops, key);
    var e := Epoch(ops, key);
    LatestMeaning(e, SniShown, host);
    forall i | 0 <= i < |e|
      ensures SniShown(e[i]) == Some(host) <==> NamesHost(e[i], host)
      ensures SniShown(e[i]) == None <==> forall other :: !NamesHost(e[i], other)
    {
      assert SniShown(e[i]).Some? ==> NamesHost(e[i], SniShown(e[i]).value);
    }
  }

  ghost predicate ReportsQuic(o: Observation, version: u32, packetType: byte) {
    o.report.Ok? && o.report.info.QuicLongHeader?
    && o.report.info.version == version && o.report.info.packetType == packetType
  }

  /** The QUIC version and packet type kept are those of the last long header of the epoch. */
  lemma QuicFieldsAreLast(ops: seq<Op>, key: FlowKey, i: nat, version: u32, packetType: byte)
    requires key in AnalyzerAfter(ops)
    requires var e := Epoch(ops, key);
             i < |e| && ReportsQuic(e[i], version, packetType)
             && forall j, v, t :: i < j < |e| ==> !ReportsQuic(e[j], v, t)
    ensures var p := AnalyzerAfter(ops)[key].payloads; p.version == Some(version) && p.packetType == Some(packetType)
  {
    EntryIsEpoch(ops, key);
    var e := Epoch(ops, key);
    forall j | i < j < |e|
      ensures VersionShown(e[j]) == None && TypeShown(e[j]) == None
    {
      assert ShowsQuic(e[j]) ==> ReportsQuic(e[j], e[j].report.info.version, e[j].report.info.packetType);
    }
    LatestMeaning(e, VersionShown, version);
    LatestMeaning(e, TypeShown, packetType);
  }

  /** A RST with ACK as the only packet, as in `flow_analyzer.rs`: the flow is reset and diagnosed so. */
  lemma ResetDetected()
    ensures var key := FlowKey(Tcp, [1, 1, 1, 1, 0, 0, 0, 0, 0, 0, 0, 0, 0, 0, 0, 0], 443, 50000);
            var ops := [Packet(Seen(PacketMeta(key, Inbound, 0, 0x14), [], 0))];
            && key in AnalyzerAfter(ops)
            && var s := AnalyzerAfter(ops)[key];
               LifecycleOf(s) == Reset && DiagnosisOf(s, LifecycleOf(s), 0, 5) == TcpReset
  {
    var key := FlowKey(Tcp, [1, 1, 1, 1, 0, 0, 0, 0, 0, 0, 0, 0, 0, 0, 0, 0], 443, 50000);
    var o := Seen(PacketMeta(key, Inbound, 0, 0x14), [], 0);
    assert AnalyzerAfter([]) == map[];
    assert [Packet(o)][..0] == [];
  }

  /** An idle timeout is suspected exactly for a SYN that nothing answered or ended, after `timeout` of silence. */
  lemma IdleTimeoutExactly(ops: seq<Op>, key: FlowKey, now: int, timeout: nat)
    requires key in AnalyzerAfter(ops)
    ensures var s, e := AnalyzerAfter(ops)[key], Epoch(ops, key);
            e != [] &&
            (DiagnosisOf(s, LifecycleOf(s), now, timeout) == IdleTimeoutSuspected <==>
             && SawSyn(e) && !SawSynAck(e) && !SawFin(e) && !SawRst(e)
             && (timeout == 0 || now >= Last(e).now + timeout))
  {
    DiagnosisExactly(ops, key, now, timeout);
  }
}
