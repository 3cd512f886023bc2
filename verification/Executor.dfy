/** `Executor.Execute` and the four places that keep a record of it: the circuit breaker, the metrics,
    the persisted state and the operations history.  */
module Executors {
  import opened Clock
  import opened Option
  import opened Workers
  import opened CircuitBreakers
  import opened Operations
  import opened Persistence

  /** One call: whether the agent is registered, what each attempt would yield, whether the context is
      done in the sleep before attempt `k`, and the clock readings taken on the way.  */
  datatype Call = Call(name: string, known: bool, outcomes: nat -> Outcome, cancelled: nat -> bool, error: string,
                       gateAt: int, startedAt: int, finishedAt: int, failedAt: int)

  /** `log` is every record ever made; `store` what the history keeps of it. */
  datatype World = World(breaker: Breaker, metrics: Metrics, agents: Agents,
                         store: seq<ExecutionRecord>, log: seq<ExecutionRecord>)

  /** What the executor is set up with: the breaker always, a model and the other recorders perhaps. */
  datatype Setup = Setup(circuit: CircuitBreakers.Settings, model: bool, metrics: bool, state: bool, ops: bool)

  function RecordOf(call: Call, ok: bool): ExecutionRecord {
    ExecutionRecord(call.name, ok, call.startedAt, call.finishedAt, Duration(call), if ok then "" else call.error)
  }

  function Duration(call: Call): real {
    (call.finishedAt - call.startedAt) as real / NANOS_PER_SECOND as real
  }

  /** The recording phase. */
  function Recorded(cfg: Setup, call: Call, ok: bool, w: World): World {
    var r := RecordOf(call, ok);
    World(if ok then Succeeded(w.breaker, call.name) else Failed(cfg.circuit, w.breaker, call.name, call.failedAt),
          if cfg.metrics then Measured(w.metrics, call.name, ok, Duration(call)) else w.metrics,
          if cfg.state then Updated(w.agents, call.name, call.finishedAt, ok) else w.agents,
          if cfg.ops then Appended(w.store, r) else w.store,
          w.log + [r])
  }

  function Gated(call: Call, w: World): (bool, World) {
    var (b, open) := Checked(w.breaker, call.name, call.gateAt);
    (open, w.(breaker := b))
  }

  function WorkerOf(cfg: Setup, call: Call): Worker<World> {
    Worker((_, w) => Gated(call, w),
           (_, k, _) => call.cancelled(k),
           (_, k, w) => (call.outcomes(k), w),
           (_, ok, w) => Recorded(cfg, call, ok, w))
  }

  function Perform(cfg: Setup, call: Call, w: World): (Option<string>, World) {
    if !cfg.model || !call.known then (None, w) else Workers.Execute(WorkerOf(cfg, call), call.name, w)
  }

  // ---------------------------------------------------------------- what one call records

  /** The call passes the gate and none of its sleeps is cut short. */
  ghost predicate ReachesRecording(cfg: Setup, call: Call, w: World) {
    cfg.model && call.known && !Gated(call, w).0 && !CourseFrom(WorkerOf(cfg, call), call.name, 0, Gated(call, w).1).cut
  }

  lemma {:induction false} AttemptsLeaveRecordsAlone(cfg: Setup, call: Call, k: nat, w: World)
    ensures CourseFrom(WorkerOf(cfg, call), call.name, k, w).state == w
    ensures CourseFrom(WorkerOf(cfg, call), call.name, k, w).made != []
    ensures CourseFrom(WorkerOf(cfg, call), call.name, k, w).made[0] == call.outcomes(k)
    decreases MAX_ATTEMPTS - k
  {
    if call.outcomes(k).Retryable? && k + 1 < MAX_ATTEMPTS {
      AttemptsLeaveRecordsAlone(cfg, call, k + 1, w);
    }
  }

  /** Which calls get as far as being recorded, told from the call itself: the circuit has to be closed or
      past its timeout, and no sleep that the attempts lead to may be cut short.  There are at most two.  */
  lemma RecordingIsReachedIff(cfg: Setup, call: Call, w: World)
    ensures ReachesRecording(cfg, call, w) <==>
            && cfg.model && call.known
            && (call.name in w.breaker.openUntil ==> call.gateAt > w.breaker.openUntil[call.name])
            && !(call.outcomes(0).Retryable? &&
                 (call.cancelled(1) || (call.outcomes(1).Retryable? && call.cancelled(2))))
  {
    var wk, w' := WorkerOf(cfg, call), Gated(call, w).1;
    assert CourseFrom(wk, call.name, 2, w').cut == false;
    assert CourseFrom(wk, call.name, 1, w').cut == (call.outcomes(1).Retryable? && call.cancelled(2));
  }

  /** The text of a call is its first attempt's, if the call is recorded and that attempt replied. */
  lemma CallReturnsFirstReply(cfg: Setup, call: Call, w: World)
    ensures Perform(cfg, call, w).0 ==
            if ReachesRecording(cfg, call, w) && call.outcomes(0).Reply? then call.outcomes(0).text else None
  {
    var w' := Gated(call, w).1;
    AttemptsLeaveRecordsAlone(cfg, call, 0, w');
    OneOutcomeIsRecorded(WorkerOf(cfg, call), call.name, 0, false, w');
  }

  /** What a recorded call leaves behind, field by field: the same outcome, at the same time, of the same
      duration in every place.  */
  lemma CallLeavesRecord(cfg: Setup, call: Call, w: World)
    requires ReachesRecording(cfg, call, w)
    ensures var ok, seconds := call.outcomes(0).Reply?, (call.finishedAt - call.startedAt) as real / 1_000_000_000.0;
            var r := ExecutionRecord(call.name, ok, call.startedAt, call.finishedAt, seconds,
                                     if ok then "" else call.error);
            var w' := Perform(cfg, call, w).1;
            && w'.log == w.log + [r]
            && (cfg.ops ==> w'.store != [] && w'.store[|w'.store| - 1] == r)
            && (cfg.metrics ==>
                  var am, am' := MetricsOf(w.metrics, call.name), MetricsOf(w'.metrics, call.name);
                  am'.lastDuration == seconds && am'.totalDuration == am.totalDuration + seconds)
            && (cfg.state ==>
                  var a, a' := Entry(w.agents, call.name), Entry(w'.agents, call.name);
                  && a'.lastRunAt == UnixSeconds(call.finishedAt)
                  && a'.lastSuccessAt == if ok then a'.lastRunAt else a.lastSuccessAt)
            && (ok ==> call.name !in w'.breaker.failures && call.name !in w'.breaker.openUntil)
            && (!ok ==>
                  // an expired circuit has started the agent afresh
                  var count := 1 + if call.name in w.breaker.openUntil then 0 else FailureCount(w.breaker, call.name);
                  && FailureCount(w'.breaker, call.name) == count
                  && (call.name in w'.breaker.openUntil <==> count >= cfg.circuit.threshold)
                  && (call.name in w'.breaker.openUntil ==>
                        w'.breaker.openUntil[call.name] == call.failedAt + cfg.circuit.timeout))
  {
    CallIsRecordedOnceOrNever(cfg, call, w);
    GateIsClosed(cfg, call, w);
  }

  lemma GateIsClosed(cfg: Setup, call: Call, w: World)
    requires ReachesRecording(cfg, call, w)
    ensures call.name !in Gated(call, w).1.breaker.openUntil
    ensures FailureCount(Gated(call, w).1.breaker, call.name) ==
            if call.name in w.breaker.openUntil then 0 else FailureCount(w.breaker, call.name)
    ensures Gated(call, w).1 == w.(breaker := Gated(call, w).1.breaker)
  {
  }

  /** A call either makes one record in all four places, of a success exactly if its first attempt
      replied, or leaves all four as the gate left them.  */
  lemma CallIsRecordedOnceOrNever(cfg: Setup, call: Call, w: World)
    ensures Perform(cfg, call, w).1 ==
            if ReachesRecording(cfg, call, w) then Recorded(cfg, call, call.outcomes(0).Reply?, Gated(call, w).1)
            else if cfg.model && call.known then Gated(call, w).1 else w
    ensures Perform(cfg, call, w).0.Some? ==> ReachesRecording(cfg, call, w) && call.outcomes(0).Reply?
  {
    var w' := Gated(call, w).1;
    AttemptsLeaveRecordsAlone(cfg, call, 0, w');
    OneOutcomeIsRecorded(WorkerOf(cfg, call), call.name, 0, false, w');
  }

  // ---------------------------------------------------------------- runs of calls

  function Run(cfg: Setup, w: World, calls: seq<Call>): World {
    if calls == [] then w else Perform(cfg, calls[|calls| - 1], Run(cfg, w, calls[..|calls| - 1])).1
  }

  /** A process that has just loaded its state: everything else is empty. */
  predicate Loaded(w: World) {
    w.breaker == Breaker(map[], map[]) && w.metrics == map[] && w.store == [] && w.log == []
  }

  /** The metrics of an agent count its log. */
  predicate MetricsAgree(am: AgentMetrics, own: seq<ExecutionRecord>) {
    am.total == |own| && am.failed == Operations.Failures(own) && am.successful + am.failed == am.total
  }

  /** The state of an agent counts its log on top of what was loaded. */
  predicate StateAgrees(before: AgentState, now: AgentState, own: seq<ExecutionRecord>) {
    now.totalRuns == before.totalRuns + |own| && now.totalFailures == before.totalFailures + Operations.Failures(own)
  }

  /** The records of an agent agree; what is not set up is left alone. */
  predicate Agree(cfg: Setup, w0: World, w: World, name: string) {
    var own, now := Of(w.log, name), Entry(w.agents, name);
    && (if cfg.metrics then MetricsAgree(MetricsOf(w.metrics, name), own) else w.metrics == w0.metrics)
    && (if cfg.state then StateAgrees(Entry(w0.agents, name), now, own) else w.agents == w0.agents)
    && 0 <= FailureCount(w.breaker, name) && (cfg.state ==> FailureCount(w.breaker, name) <= now.consecutiveFailures)
    && w.store == if cfg.ops then Tail(w.log, MAX_RECORDS) else w0.store
  }

  lemma GateKeepsAgreement(cfg: Setup, w0: World, call: Call, w: World, name: string)
    requires Agree(cfg, w0, w, name)
    ensures Agree(cfg, w0, Gated(call, w).1, name)
  {
  }

  /** What one record adds to the entries of an agent, its own or another's. */
  lemma RecordOfName(cfg: Setup, call: Call, ok: bool, w: World, name: string)
    ensures var w', mine := Recorded(cfg, call, ok, w), call.name == name;
            && (cfg.metrics && mine ==>
                  var am, am' := MetricsOf(w.metrics, name), MetricsOf(w'.metrics, name);
                  && am'.total == am.total + 1 && am'.failed == am.failed + (if ok then 0 else 1)
                  && am'.successful == am.successful + if ok then 1 else 0)
            && (cfg.state && mine ==>
                  var a, a' := Entry(w.agents, name), Entry(w'.agents, name);
                  && a'.totalRuns == a.totalRuns + 1 && a'.totalFailures == a.totalFailures + (if ok then 0 else 1)
                  && a'.consecutiveFailures == if ok then 0 else a.consecutiveFailures + 1)
            && (mine ==> FailureCount(w'.breaker, name) == if ok then 0 else FailureCount(w.breaker, name) + 1)
            && (!mine ==> MetricsOf(w'.metrics, name) == MetricsOf(w.metrics, name))
            && (!mine ==> Entry(w'.agents, name) == Entry(w.agents, name))
            && (!mine ==> FailureCount(w'.breaker, name) == FailureCount(w.breaker, name))
  {
  }

  lemma RecordingKeepsAgreement(cfg: Setup, w0: World, call: Call, ok: bool, w: World, name: string)
    requires Agree(cfg, w0, w, name)
    ensures Agree(cfg, w0, Recorded(cfg, call, ok, w), name)
  {
    hide Tail, Appended, Of, Operations.Failures, Measured, Updated, Succeeded, Failed, MetricsOf, Entry, FailureCount;
    var r, w' := RecordOf(call, ok), Recorded(cfg, call, ok, w);
    assert cfg.ops ==> w'.store == Tail(w'.log, MAX_RECORDS) by {
      AppendToTail(w.log, r);
    }
    var own, own' := Of(w.log, name), Of(w'.log, name);
    assert |own'| == |own| + (if call.name == name then 1 else 0) &&
           Operations.Failures(own') == Operations.Failures(own) + (if call.name == name && !ok then 1 else 0) by {
      OwnLog(w.log, r, name);
      Snoc(own, r);
    }
    RecordOfName(cfg, call, ok, w, name);
  }

  lemma OwnLog(log: seq<ExecutionRecord>, r: ExecutionRecord, name: string)
    ensures Of(log + [r], name) == if r.agentName == name then Of(log, name) + [r] else Of(log, name)
  {
    assert (log + [r])[..|log|] == log;
  }

  /** Over any run of calls all records of every agent that are kept agree; the breaker, which forgets at an
      expiry, never counts more failures than the state does in a row.  */
  lemma {:induction false} RecordersAgree(cfg: Setup, w0: World, calls: seq<Call>, name: string)
    requires Loaded(w0)
    ensures Agree(cfg, w0, Run(cfg, w0, calls), name)
  {
    if calls != [] {
      var before, call := calls[..|calls| - 1], calls[|calls| - 1];
      RecordersAgree(cfg, w0, before, name);
      var w := Run(cfg, w0, before);
      CallIsRecordedOnceOrNever(cfg, call, w);
      GateKeepsAgreement(cfg, w0, call, w, name);
      RecordingKeepsAgreement(cfg, w0, call, call.outcomes(0).Reply?, Gated(call, w).1, name);
    }
  }

  // ---------------------------------------------------------------- the executor

  class Executor {
    const model: bool
    const circuit: CircuitBreaker
    const metrics: MetricsCollector?
    const state: StatePersistence?
    const ops: Manager?
    ghost var log: seq<ExecutionRecord>

    constructor (model: bool, circuit: CircuitBreaker, metrics: MetricsCollector?, state: StatePersistence?,
                 ops: Manager?)
      ensures this.model == model && this.circuit == circuit
      ensures this.metrics == metrics && this.state == state && this.ops == ops
      ensures log == []
    {
      this.model, this.circuit, this.metrics, this.state, this.ops := model, circuit, metrics, state, ops;
      log := [];
    }

    ghost function Config(): Setup {
      Setup(circuit.cfg, model, metrics != null, state != null, ops != null)
    }

    ghost function Contents(): World
      reads this, circuit, metrics, state, ops
    {
      World(circuit.Contents(),
            if metrics == null then map[] else metrics.agentMetrics,
            if state == null then map[] else state.agents,
            if ops == null then [] else ops.records, log)
    }

    method Execute(call: Call) returns (text: Option<string>)
      modifies this, circuit, metrics, state, ops
      ensures (text, Contents()) == Perform(Config(), call, old(Contents()))
    {
      ghost var cfg, name := Config(), call.name;
      if !model || !call.known {
        return None;
      }
      var open := circuit.IsOpen(call.name, call.gateAt);
      if open {
        return None;
      }
      ghost var w, s := WorkerOf(cfg, call), Contents();
      assert (false, s) == Gated(call, old(Contents()));
      var result: Option<string> := None;
      var execErr := false;
      var attempt := 0;
      while attempt < MAX_ATTEMPTS
        invariant 0 <= attempt <= MAX_ATTEMPTS && result.None? && execErr == (attempt > 0)
        invariant Contents() == s
        invariant Try(w, name, 0, false, s) ==
                  if attempt == 0 then Try(w, name, 0, false, s)
                  else if attempt < MAX_ATTEMPTS then Resume(w, name, attempt, s)
                  else Record(w, name, false, None, s)
      {
        if attempt > 0 {
          if call.cancelled(attempt) {
            return None;
          }
        }
        match call.outcomes(attempt) {
          case Reply(reply) =>
            result := reply;
            assert Try(w, name, attempt, execErr, s) == Record(w, name, !execErr, result, s);
            break;
          case Fatal =>
            assert Try(w, name, attempt, execErr, s) == Record(w, name, false, None, s);
            execErr := true;
            break;
          case Retryable =>
            assert Try(w, name, attempt, execErr, s) == Settle(w, name, attempt, execErr, Retryable, s);
            execErr := true;
        }
        attempt := attempt + 1;
      }
      assert Try(w, name, 0, false, s) == Record(w, name, !execErr, result, s);
      RecordOutcome(call, !execErr);
      text := if execErr then None else result;
    }

    /** The recording phase: the breaker, and whatever other recorders there are. */
    method RecordOutcome(call: Call, ok: bool)
      modifies this, circuit, metrics, state, ops
      ensures Contents() == Recorded(Config(), call, ok, old(Contents()))
    {
      var duration := Duration(call);
      if ok {
        circuit.RecordSuccess(call.name);
      } else {
        circuit.RecordFailure(call.name, call.failedAt);
      }
      if metrics != null {
        metrics.RecordExecution(call.name, ok, duration);
      }
      if state != null {
        state.UpdateAgent(call.name, call.finishedAt, ok);
      }
      if ops != null {
        ops.Record(RecordOf(call, ok));
      }
      log := log + [RecordOf(call, ok)];
    }
  }
}
