/** The sequential probe run of `probe.go` and the worker pool of `engine.go`. */
module Probe {
  /** Durations are nanoseconds. */
  datatype Config = Config(timeout: int, targets: seq<string>, port: string, serverName: string)

  datatype Result = Result(target: string, tcpConnected: bool, tlsHandshake: bool, latency: int, error: string)

  /** The zero value that `make([]Result, n)` fills in. */
  const ZERO_RESULT := Result("", false, false, 0, "")

  /** How an attempt ends: no connection, a connection after `latency` without a handshake, or both. */
  datatype Attempt = Refused(error: string) | NoHandshake(latency: int, error: string) | Completed(latency: int)

  /** What the network answers for a timeout, port, server name and target. */
  type Network = (int, string, string, string) -> Attempt

  /** The result of probing one target. The configured targets are not looked at. */
  function RunOne(net: Network, cfg: Config, target: string): Result {
    match net(cfg.timeout, if cfg.port == "" then "443" else cfg.port,
              if cfg.serverName == "" then target else cfg.serverName, target)
    case Refused(error) => Result(target, false, false, 0, error)
    case NoHandshake(latency, error) => Result(target, true, false, latency, "tls handshake: " + error)
    case Completed(latency) => Result(target, true, true, latency, "")
  }

  /** `runOne`: the result is filled in as the attempt proceeds, and returned where it fails. */
  method ProbeOne(net: Network, cfg: Config, target: string) returns (result: Result)
    ensures result == RunOne(net, cfg, target)
  {
    result := ZERO_RESULT.(target := target);
    var port := cfg.port;
    if port == "" {
      port := "443";
    }
    var serverName := cfg.serverName;
    if serverName == "" {
      serverName := target;
    }
    var attempt := net(cfg.timeout, port, serverName, target);
    if attempt.Refused? {
      result := result.(error := attempt.error);
      return;
    }
    result := result.(tcpConnected := true, latency := attempt.latency);
    if attempt.NoHandshake? {
      result := result.(error := "tls handshake: " + attempt.error);
      return;
    }
    result := result.(tlsHandshake := true);
  }

  /** A result names its target and reports the attempt; a handshake needs a connection, and only it leaves no error. */
  lemma ResultReports(net: Network, cfg: Config, target: string)
    ensures var r := RunOne(net, cfg, target);
            && r.target == target && (r.tlsHandshake ==> r.tcpConnected && r.error == "")
            && (r.tcpConnected && !r.tlsHandshake ==> "tls handshake: " <= r.error)
            && (!r.tcpConnected ==> r.latency == 0)
    ensures cfg.port != "" && cfg.serverName != "" ==>
              var a := net(cfg.timeout, cfg.port, cfg.serverName, target);
              && RunOne(net, cfg, target).tcpConnected == !a.Refused?
              && RunOne(net, cfg, target).tlsHandshake == a.Completed?
    ensures cfg.port == "" && cfg.serverName == "" ==>
              var a := net(cfg.timeout, "443", target, target);
              && RunOne(net, cfg, target).tcpConnected == !a.Refused?
              && RunOne(net, cfg, target).tlsHandshake == a.Completed?
  {
  }

  /** The sequential reference: one probe per target, in order. */
  method Run(net: Network, cfg: Config) returns (results: seq<Result>)
    ensures |results| == |cfg.targets|
    ensures forall i :: 0 <= i < |results| ==> results[i] == RunOne(net, cfg, cfg.targets[i])
  {
    results := [];
    for i := 0 to |cfg.targets|
      invariant |results| == i
      invariant forall j :: 0 <= j < i ==> results[j] == RunOne(net, cfg, cfg.targets[j])
    {
      var result := ProbeOne(net, cfg, cfg.targets[i]);
      results := results + [result];
    }
  }
}

/**
  * `Engine.Run` as a step system: the main goroutine hands jobs over an unbuffered channel, workers probe and write
  * their slot, the channel is closed after the last job and every worker leaves when it finds it closed.
  */
module ProbePool {
  import opened Prelude
  import opened Probe

  datatype EngineConfig = EngineConfig(targets: seq<string>, port: string, timeout: int, concurrency: int)

  /** `NewEngine`: the defaults. */
  function NewEngine(cfg: EngineConfig): EngineConfig {
    EngineConfig(cfg.targets, if cfg.port == "" then "443" else cfg.port,
                 if cfg.timeout <= 0 then 2_000_000_000 else cfg.timeout,
                 if cfg.concurrency <= 0 then 8 else cfg.concurrency)
  }

  datatype Goroutine = Waiting | Holding(idx: nat) | Done

  /** `next` is the job the main goroutine offers next; `takenBy[i]` records which worker received job `i`. */
  datatype Pool = Pool(next: nat, closed: bool, workers: seq<Goroutine>, results: seq<Result>, takenBy: seq<nat>)

  datatype Step = HandOver(worker: nat) | Finish(worker: nat) | Close | Exit(worker: nat)

  function WorkerCount(cfg: EngineConfig): int {
    Min(cfg.concurrency, |cfg.targets|)
  }

  function Start(cfg: EngineConfig): Pool {
    Pool(0, false, seq(Max(0, WorkerCount(cfg)), _ => Waiting), seq(|cfg.targets|, _ => ZERO_RESULT), [])
  }

  /** The probe a worker makes for one job: a configuration of its own, without a server name. */
  function Outcome(net: Network, cfg: EngineConfig, i: nat): Result
    requires i < |cfg.targets|
  {
    RunOne(net, Config(cfg.timeout, [cfg.targets[i]], cfg.port, ""), cfg.targets[i])
  }

  predicate Enabled(cfg: EngineConfig, p: Pool, step: Step) {
    match step
    case HandOver(w) => w < |p.workers| && p.workers[w].Waiting? && p.next < |cfg.targets|
    case Finish(w) =>
      w < |p.workers| && p.workers[w].Holding? && p.workers[w].idx < |p.results| && p.workers[w].idx < |cfg.targets|
    case Close => p.next >= |cfg.targets| && !p.closed
    case Exit(w) => w < |p.workers| && p.workers[w].Waiting? && p.closed
  }

  function Next(net: Network, cfg: EngineConfig, p: Pool, step: Step): Pool
    requires Enabled(cfg, p, step)
  {
    match step
    case HandOver(w) => p.(next := p.next + 1, workers := p.workers[w := Holding(p.next)], takenBy := p.takenBy + [w])
    case Finish(w) =>
      p.(workers := p.workers[w := Waiting],
         results := p.results[p.workers[w].idx := Outcome(net, cfg, p.workers[w].idx)])
    case Close => p.(closed := true)
    case Exit(w) => p.(workers := p.workers[w := Done])
  }

  function Run(net: Network, cfg: EngineConfig, steps: seq<Step>): Option<Pool> {
    if steps == [] then Some(Start(cfg))
    else
      match Run(net, cfg, steps[..|steps| - 1])
      case None => None
      case Some(p) => if Enabled(cfg, p, Last(steps)) then Some(Next(net, cfg, p, Last(steps))) else None
  }

  /** `wg.Wait()` has returned: the main goroutine closed the channel and every worker left. */
  predicate Finished(p: Pool) {
    p.closed && forall w :: 0 <= w < |p.workers| ==> p.workers[w].Done?
  }

  ghost predicate Held(p: Pool, i: nat) {
    exists w :: 0 <= w < |p.workers| && p.workers[w] == Holding(i)
  }

  /** Each job handed over has one taker; a slot is written exactly when its job was taken and is no longer held. */
  ghost predicate Inv(net: Network, cfg: EngineConfig, p: Pool) {
    && p.next <= |cfg.targets| && |p.results| == |cfg.targets| && |p.takenBy| == p.next
    && |p.workers| == Max(0, WorkerCount(cfg))
    && (p.closed ==> p.next == |cfg.targets|)
    && (forall w :: 0 <= w < |p.workers| && p.workers[w].Done? ==> p.closed)
    && (forall w :: 0 <= w < |p.workers| && p.workers[w].Holding? ==>
          p.workers[w].idx < p.next && p.takenBy[p.workers[w].idx] == w)
    && (forall i :: 0 <= i < |p.results| ==>
          p.results[i] == if i < p.next && !Held(p, i) then Outcome(net, cfg, i) else ZERO_RESULT)
  }

  lemma HandOverKeeps(net: Network, cfg: EngineConfig, p: Pool, w: nat)
    requires Inv(net, cfg, p) && Enabled(cfg, p, HandOver(w))
    ensures Inv(net, cfg, Next(net, cfg, p, HandOver(w)))
  {
    var q := Next(net, cfg, p, HandOver(w));
    assert q.workers[w] == Holding(p.next);
    forall i: nat | i < p.next
      ensures Held(q, i) == Held(p, i)
    {
      if Held(p, i) {
        var v :| 0 <= v < |p.workers| && p.workers[v] == Holding(i);
        assert q.workers[v] == Holding(i);
      }
      if Held(q, i) {
        var v :| 0 <= v < |q.workers| && q.workers[v] == Holding(i);
        assert p.workers[v] == Holding(i);
      }
    }
  }

  lemma FinishKeeps(net: Network, cfg: EngineConfig, p: Pool, w: nat)
    requires Inv(net, cfg, p) && Enabled(cfg, p, Finish(w))
    ensures Inv(net, cfg, Next(net, cfg, p, Finish(w)))
  {
    var q, done := Next(net, cfg, p, Finish(w)), p.workers[w].idx;
    forall i: nat
      ensures Held(q, i) == (Held(p, i) && i != done)
    {
      if Held(p, i) && i != done {
        var v :| 0 <= v < |p.workers| && p.workers[v] == Holding(i);
        assert q.workers[v] == Holding(i);
      }
      if Held(q, i) {
        var v :| 0 <= v < |q.workers| && q.workers[v] == Holding(i);
        assert p.workers[v] == Holding(i);
      }
    }
  }

  lemma ExitKeeps(net: Network, cfg: EngineConfig, p: Pool, w: nat)
    requires Inv(net, cfg, p) && Enabled(cfg, p, Exit(w))
    ensures Inv(net, cfg, Next(net, cfg, p, Exit(w)))
  {
    var q := Next(net, cfg, p, Exit(w));
    forall i: nat
      ensures Held(q, i) == Held(p, i)
    {
      if Held(p, i) {
        var v :| 0 <= v < |p.workers| && p.workers[v] == Holding(i);
        assert q.workers[v] == Holding(i);
      }
      if Held(q, i) {
        var v :| 0 <= v < |q.workers| && q.workers[v] == Holding(i);
        assert p.workers[v] == Holding(i);
      }
    }
  }

  lemma {:induction false} RunKeepsInv(net: Network, cfg: EngineConfig, steps: seq<Step>)
    requires Run(net, cfg, steps).Some?
    ensures Inv(net, cfg, Run(net, cfg, steps).value)
  {
    if steps != [] {
      RunKeepsInv(net, cfg, steps[..|steps| - 1]);
      var p := Run(net, cfg, steps[..|steps| - 1]).value;
      match Last(steps)
      case HandOver(w) => HandOverKeeps(net, cfg, p, w);
      case Finish(w) => FinishKeeps(net, cfg, p, w);
      case Exit(w) => ExitKeeps(net, cfg, p, w);
      case Close =>
        forall i: nat
          ensures Held(p.(closed := true), i) == Held(p, i)
        {
        }
    }
  }

  /** No two workers ever hold the same job, and none holds a job that was not handed over. */
  lemma JobsAreExclusive(net: Network, cfg: EngineConfig, steps: seq<Step>, v: nat, w: nat)
    requires Run(net, cfg, steps).Some?
    requires var p := Run(net, cfg, steps).value;
             v < |p.workers| && w < |p.workers| && p.workers[v].Holding? && p.workers[w].Holding?
    ensures var p := Run(net, cfg, steps).value;
            p.workers[v].idx < p.next && (p.workers[v].idx == p.workers[w].idx ==> v == w)
  {
    RunKeepsInv(net, cfg, steps);
  }

  // --- Every run ends, and ends the same way ---

  function Weights(workers: seq<Goroutine>): nat {
    if workers == [] then 0
    else Weights(workers[..|workers| - 1]) + match Last(workers) case Waiting => 1 case Holding(_) => 2 case Done => 0
  }

  function Weight(g: Goroutine): nat {
    match g case Waiting => 1 case Holding(_) => 2 case Done => 0
  }

  lemma {:induction false} WeightsUpdate(workers: seq<Goroutine>, w: nat, g: Goroutine)
    requires w < |workers|
    ensures Weights(workers[w := g]) == Weights(workers) - Weight(workers[w]) + Weight(g)
  {
    var front, updated := workers[..|workers| - 1], workers[w := g];
    if w < |front| {
      WeightsUpdate(front, w, g);
      assert updated[..|updated| - 1] == front[w := g];
    } else {
      assert updated[..|updated| - 1] == front;
    }
  }

  /** The steps still to come. */
  function Measure(cfg: EngineConfig, p: Pool): nat
    requires p.next <= |cfg.targets|
  {
    2 * (|cfg.targets| - p.next) + (if p.closed then 0 else 1) + Weights(p.workers)
  }

  lemma MeasureFalls(net: Network, cfg: EngineConfig, p: Pool, step: Step)
    requires Inv(net, cfg, p) && Enabled(cfg, p, step)
    ensures var q := Next(net, cfg, p, step); q.next <= |cfg.targets| && Measure(cfg, q) == Measure(cfg, p) - 1
  {
    match step
    case HandOver(w) => WeightsUpdate(p.workers, w, Holding(p.next));
    case Finish(w) => WeightsUpdate(p.workers, w, Waiting);
    case Exit(w) => WeightsUpdate(p.workers, w, Done);
    case Close =>
  }

  lemma {:induction false} WaitingWeights(n: nat)
    ensures Weights(seq(n, _ => Waiting)) == n
  {
    if n > 0 {
      var s := seq(n, _ => Waiting);
      assert s[..|s| - 1] == seq(n - 1, _ => Waiting);
      WaitingWeights(n - 1);
    }
  }

  /** A run of `k` steps has `k` fewer to go, so none is longer than two per target, one per worker and the close. */
  lemma {:induction false} RunsAreBounded(net: Network, cfg: EngineConfig, steps: seq<Step>)
    requires Run(net, cfg, steps).Some?
    ensures var p := Run(net, cfg, steps).value;
            p.next <= |cfg.targets| && |steps| + Measure(cfg, p) == 2 * |cfg.targets| + 1 + Max(0, WorkerCount(cfg))
  {
    if steps == [] {
      WaitingWeights(Max(0, WorkerCount(cfg)));
    } else {
      var front := steps[..|steps| - 1];
      RunsAreBounded(net, cfg, front);
      RunKeepsInv(net, cfg, front);
      MeasureFalls(net, cfg, Run(net, cfg, front).value, Last(steps));
    }
  }

  /** The pool never gets stuck: until it is finished some step can be taken. */
  lemma PoolNeverStuck(net: Network, cfg: EngineConfig, steps: seq<Step>)
    requires cfg.concurrency > 0 && Run(net, cfg, steps).Some? && !Finished(Run(net, cfg, steps).value)
    ensures exists step: Step :: Enabled(cfg, Run(net, cfg, steps).value, step)
  {
    RunKeepsInv(net, cfg, steps);
    var p := Run(net, cfg, steps).value;
    if w :| 0 <= w < |p.workers| && p.workers[w].Holding? {
      assert Enabled(cfg, p, Finish(w));
    } else if p.closed {
      var w :| 0 <= w < |p.workers| && !p.workers[w].Done?;
      assert Enabled(cfg, p, Exit(w));
    } else if p.next < |cfg.targets| {
      assert p.workers[0].Waiting?;
      assert Enabled(cfg, p, HandOver(0));
    } else {
      assert Enabled(cfg, p, Close);
    }
  }

  /** However the goroutines interleave, a finished pool holds in slot `i` what the sequential run finds for it. */
  lemma PoolRefinesSequential(net: Network, cfg: EngineConfig, steps: seq<Step>)
    requires Run(net, cfg, steps).Some? && Finished(Run(net, cfg, steps).value)
    ensures var results := Run(net, cfg, steps).value.results;
            && |results| == |cfg.targets|
            && forall i :: 0 <= i < |results| ==>
                 results[i] == RunOne(net, Config(cfg.timeout, cfg.targets, cfg.port, ""), cfg.targets[i])
  {
    RunKeepsInv(net, cfg, steps);
    var p := Run(net, cfg, steps).value;
    forall i: nat | i < |p.results|
      ensures !Held(p, i) && p.results[i] == Outcome(net, cfg, i)
    {
    }
  }

  /** A finished run took exactly `2n + 1 + workers` steps and handed every job to one worker. */
  lemma FinishedRuns(net: Network, cfg: EngineConfig, steps: seq<Step>)
    requires Run(net, cfg, steps).Some? && Finished(Run(net, cfg, steps).value)
    ensures var p := Run(net, cfg, steps).value;
            |steps| == 2 * |cfg.targets| + 1 + |p.workers| && |p.takenBy| == |cfg.targets|
  {
    RunKeepsInv(net, cfg, steps);
    RunsAreBounded(net, cfg, steps);
    DoneWeights(Run(net, cfg, steps).value.workers);
  }

  lemma {:induction false} DoneWeights(workers: seq<Goroutine>)
    requires forall w :: 0 <= w < |workers| ==> workers[w].Done?
    ensures Weights(workers) == 0
  {
    if workers != [] {
      DoneWeights(workers[..|workers| - 1]);
    }
  }

  /** What the defaults replace is what is missing: a port, a positive timeout, a positive number of workers. */
  lemma DefaultsExactly(cfg: EngineConfig)
    ensures var e := NewEngine(cfg);
            && e.targets == cfg.targets
            && (cfg.port != "" ==> e.port == cfg.port) && (cfg.port == "" ==> e.port == "443")
            && (cfg.timeout > 0 ==> e.timeout == cfg.timeout) && (cfg.timeout <= 0 ==> e.timeout == 2_000_000_000)
            && (cfg.concurrency > 0 ==> e.concurrency == cfg.concurrency)
            && (cfg.concurrency <= 0 ==> e.concurrency == 8)
  {
  }

  /** What a finished engine has asked the network: its own timeout and port, the target as server name. */
  lemma EngineAsks(net: Network, cfg: EngineConfig, steps: seq<Step>, i: nat)
    requires Run(net, NewEngine(cfg), steps).Some? && Finished(Run(net, NewEngine(cfg), steps).value)
    requires i < |cfg.targets|
    ensures var results, target := Run(net, NewEngine(cfg), steps).value.results, cfg.targets[i];
            var a := net(if cfg.timeout > 0 then cfg.timeout else 2_000_000_000,
                         if cfg.port == "" then "443" else cfg.port, target, target);
            && |results| == |cfg.targets| && results[i].target == target
            && results[i].tcpConnected == !a.Refused? && results[i].tlsHandshake == a.Completed?
            && (!a.Refused? ==> results[i].latency == a.latency)
            && (a.Refused? ==> results[i].error == a.error)
  {
    PoolRefinesSequential(net, NewEngine(cfg), steps);
  }

  /** `NewEngine` always leaves a pool that can work: it needs no worker only when there is no target. */
  lemma EngineHasWorkers(cfg: EngineConfig)
    ensures var e := NewEngine(cfg);
            && e.concurrency > 0 && e.timeout > 0 && e.port != ""
            && (WorkerCount(e) == 0 <==> e.targets == [])
            && WorkerCount(e) == (if e.concurrency > |e.targets| then |e.targets| else e.concurrency)
  {
  }
}
