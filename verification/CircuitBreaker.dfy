/** The per-agent circuit breaker, refined to the log of what was reported to it. */
module CircuitBreakers {

  datatype Settings = Settings(threshold: int, timeout: int)

  datatype Breaker = Breaker(failures: map<string, int>, openUntil: map<string, int>)

  /** `Check` is an `IsOpen` query, which clears an expired circuit. */
  datatype Event = Failure(agent: string, now: int) | Success(agent: string) | Check(agent: string, now: int)

  function FailureCount(b: Breaker, agent: string): int {
    if agent in b.failures then b.failures[agent] else 0
  }

  function Checked(b: Breaker, agent: string, now: int): (Breaker, bool) {
    if agent !in b.openUntil then (b, false)
    else if now > b.openUntil[agent] then
      (Breaker(b.failures[agent := 0], b.openUntil - {agent}), false)
    else (b, true)
  }

  function Failed(cfg: Settings, b: Breaker, agent: string, now: int): Breaker {
    var count := FailureCount(b, agent) + 1;
    Breaker(b.failures[agent := count],
            if count >= cfg.threshold then b.openUntil[agent := now + cfg.timeout] else b.openUntil)
  }

  function Succeeded(b: Breaker, agent: string): Breaker {
    Breaker(b.failures - {agent}, b.openUntil - {agent})
  }

  function Apply(cfg: Settings, b: Breaker, e: Event): Breaker {
    match e
    case Failure(agent, now) => Failed(cfg, b, agent, now)
    case Success(agent) => Succeeded(b, agent)
    case Check(agent, now) => Checked(b, agent, now).0
  }

  function Run(cfg: Settings, log: seq<Event>): Breaker {
    if log == [] then Breaker(map[], map[]) else Apply(cfg, Run(cfg, log[..|log| - 1]), log[|log| - 1])
  }

  /** The agents `GetStatus` lists as open. */
  function ListedOpen(b: Breaker, now: int): set<string> {
    set a | a in b.openUntil && now < b.openUntil[a]
  }

  // ---------------------------------------------------------------- what the log says

  /** The instants at which `agent` failed, in order. */
  function FailureTimes(log: seq<Event>, agent: string): (times: seq<int>) {
    if log == [] then []
    else
      var e := log[|log| - 1];
      FailureTimes(log[..|log| - 1], agent) + if e.Failure? && e.agent == agent then [e.now] else []
  }

  /** The failures since `agent` last started afresh. */
  function Streak(cfg: Settings, log: seq<Event>, agent: string): seq<int>
    decreases |log|, 1
  {
    FailureTimes(log[Fresh(cfg, log, agent)..], agent)
  }

  /** Where `agent` last started afresh: after its last success, or after the last query that came
      later than `timeout` after the last failure of a streak that had reached the threshold.  */
  function Fresh(cfg: Settings, log: seq<Event>, agent: string): (from: nat)
    ensures from <= |log|
    decreases |log|, 0
  {
    if log == [] then 0
    else
      var before, e := log[..|log| - 1], log[|log| - 1];
      var streak := Streak(cfg, before, agent);
      if e.agent == agent &&
         (e.Success? ||
          (e.Check? && streak != [] && |streak| >= cfg.threshold && e.now > streak[|streak| - 1] + cfg.timeout))
      then |log| else Fresh(cfg, before, agent)
  }

  /** The breaker knows exactly what the log says about `agent`. */
  predicate Agrees(cfg: Settings, log: seq<Event>, agent: string) {
    var b, streak := Run(cfg, log), Streak(cfg, log, agent);
    && FailureCount(b, agent) == |streak|
    && (agent in b.openUntil <==> FailureCount(b, agent) >= cfg.threshold)
    && (agent in b.openUntil ==> streak != [] && b.openUntil[agent] == streak[|streak| - 1] + cfg.timeout)
  }

  lemma StreakGrows(cfg: Settings, log: seq<Event>, agent: string)
    requires log != []
    ensures var before, e := log[..|log| - 1], log[|log| - 1];
            Streak(cfg, log, agent) ==
            if Fresh(cfg, log, agent) == |log| then []
            else if e.Failure? && e.agent == agent then Streak(cfg, before, agent) + [e.now]
            else Streak(cfg, before, agent)
  {
    var from, before := Fresh(cfg, log, agent), log[..|log| - 1];
    if from < |log| {
      assert log[from..][..|log[from..]| - 1] == before[from..];
    }
  }

  /** For a threshold of at least one the breaker refines its log, after every log whatsoever. */
  lemma {:induction false} BreakerRefinesLog(cfg: Settings, log: seq<Event>, agent: string)
    requires cfg.threshold >= 1
    ensures Agrees(cfg, log, agent)
  {
    if log != [] {
      BreakerRefinesLog(cfg, log[..|log| - 1], agent);
      StreakGrows(cfg, log, agent);
    }
  }

  /** A threshold below one breaks the correspondence at once, so the bound is exact. */
  lemma ThresholdMustBePositive(cfg: Settings)
    ensures (forall log, agent :: Agrees(cfg, log, agent)) <==> cfg.threshold >= 1
  {
    if cfg.threshold >= 1 {
      forall log, agent ensures Agrees(cfg, log, agent) {
        BreakerRefinesLog(cfg, log, agent);
      }
    } else {
      assert !Agrees(cfg, [], "");
    }
  }

  /** `IsOpen` answers from the log alone. */
  lemma OpenIsDecidedByLog(cfg: Settings, log: seq<Event>, agent: string, now: int)
    requires cfg.threshold >= 1
    ensures var streak := Streak(cfg, log, agent);
            Checked(Run(cfg, log), agent, now).1 <==>
            |streak| >= cfg.threshold && now <= streak[|streak| - 1] + cfg.timeout
  {
    BreakerRefinesLog(cfg, log, agent);
  }

  /** `GetStatus` and `IsOpen` differ at one instant only: the very end of the timeout. */
  lemma StatusDisagreesOnlyAtExpiry(cfg: Settings, log: seq<Event>, agent: string, now: int)
    requires cfg.threshold >= 1
    ensures var b, streak := Run(cfg, log), Streak(cfg, log, agent);
            (agent in ListedOpen(b, now)) != Checked(b, agent, now).1 <==>
            |streak| >= cfg.threshold && now == streak[|streak| - 1] + cfg.timeout
  {
    BreakerRefinesLog(cfg, log, agent);
  }

  // ---------------------------------------------------------------- the breaker itself

  class CircuitBreaker {
    const cfg: Settings
    var failures: map<string, int>
    var openUntil: map<string, int>

    constructor (cfg: Settings)
      ensures this.cfg == cfg && Contents() == Breaker(map[], map[])
    {
      this.cfg := cfg;
      failures, openUntil := map[], map[];
    }

    function Contents(): Breaker
      reads this
    {
      Breaker(failures, openUntil)
    }

    method IsOpen(agent: string, now: int) returns (open: bool)
      modifies this
      ensures (Contents(), open) == Checked(old(Contents()), agent, now)
    {
      if agent !in openUntil {
        return false;
      }
      if now > openUntil[agent] {
        openUntil := openUntil - {agent};
        failures := failures[agent := 0];
        return false;
      }
      return true;
    }

    method RecordSuccess(agent: string)
      modifies this
      ensures Contents() == Succeeded(old(Contents()), agent)
    {
      failures := failures - {agent};
      openUntil := openUntil - {agent};
    }

    method RecordFailure(agent: string, now: int)
      modifies this
      ensures Contents() == Failed(cfg, old(Contents()), agent, now)
    {
      failures := failures[agent := FailureCount(Contents(), agent) + 1];
      if failures[agent] >= cfg.threshold {
        openUntil := openUntil[agent := now + cfg.timeout];
      }
    }

    /** The names are listed in the order the runtime ranges over the map, and the time is read again at
        each of them: who is listed lies between what one look at the start and one at the end would list.  */
    method GetStatus(clock: nat -> int) returns (open: seq<string>, counts: map<string, int>)
      requires forall k, l :: k <= l ==> clock(k) <= clock(l)
      ensures forall a :: a in open ==> a in ListedOpen(Contents(), clock(0))
      ensures forall a :: a in ListedOpen(Contents(), clock(|openUntil|)) ==> a in open
      ensures forall i, j :: 0 <= i < j < |open| ==> open[i] != open[j]
      ensures counts == failures
    {
      open := [];
      var remaining, k := openUntil.Keys, 0;
      while remaining != {}
        invariant remaining <= openUntil.Keys && k + |remaining| == |openUntil|
        invariant forall a :: a in open ==> a in openUntil && a !in remaining && clock(0) < openUntil[a]
        invariant forall a :: a in openUntil && a !in remaining && clock(|openUntil|) < openUntil[a] ==> a in open
        invariant forall i, j :: 0 <= i < j < |open| ==> open[i] != open[j]
        decreases |remaining|
      {
        var a :| a in remaining;
        if clock(k) < openUntil[a] {
          open := open + [a];
        }
        remaining, k := remaining - {a}, k + 1;
      }
      counts := failures;
    }
  }
}
