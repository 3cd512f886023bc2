/** Simple mode: the loop that runs every agent whose interval has passed since its last recorded run.

    Rounds do not overlap: a round waits for all its agents.  An execution may leave no record (it
    was refused by the circuit breaker or cancelled), in which case the agent stays due.  */
module SimpleRounds {
  import opened Clock
  import opened Option
  import opened Persistence

  datatype Spec = Spec(name: string, interval: int)

  datatype Execution = Execution(startedAt: int, finishedAt: int, recorded: bool, success: bool)

  /** A tick of the scheduler, and how each agent fares if it is executed then. */
  datatype Round = Round(now: int, exec: string -> Execution)

  function Interval(spec: Spec, overrideSec: int): int {
    if overrideSec > 0 then overrideSec else spec.interval
  }

  predicate IsDue(spec: Spec, overrideSec: int, agents: Agents, now: int) {
    && Interval(spec, overrideSec) > 0
    && (LastRun(agents, spec.name).Some? ==>
          now - LastRun(agents, spec.name).value * NANOS_PER_SECOND >= Interval(spec, overrideSec) * NANOS_PER_SECOND)
  }

  function Due(specs: seq<Spec>, overrideSec: int, agents: Agents, now: int): (due: seq<Spec>)
    ensures forall sp :: sp in due <==> sp in specs && IsDue(sp, overrideSec, agents, now)
  {
    if specs == [] then []
    else
      var sp, before := specs[|specs| - 1], Due(specs[..|specs| - 1], overrideSec, agents, now);
      if IsDue(sp, overrideSec, agents, now) then before + [sp] else before
  }

  /** The executions of a round, each of which updates its agent's state when it leaves a record. */
  function Executed(due: seq<Spec>, round: Round, agents: Agents): Agents {
    if due == [] then agents
    else
      var name, before := due[|due| - 1].name, Executed(due[..|due| - 1], round, agents);
      var e := round.exec(name);
      if e.recorded then Updated(before, name, e.finishedAt, e.success) else before
  }

  /** The state as round `j` finds it. */
  function AgentsAt(specs: seq<Spec>, overrideSec: int, agents: Agents, rounds: seq<Round>, j: nat): Agents
    requires j <= |rounds|
  {
    if j == 0 then agents
    else
      var before := AgentsAt(specs, overrideSec, agents, rounds, j - 1);
      Executed(Due(specs, overrideSec, before, rounds[j - 1].now), rounds[j - 1], before)
  }

  /** Executions start after their tick, and the next tick is handled after they have finished. */
  ghost predicate Sequential(rounds: seq<Round>) {
    && (forall j, n :: 0 <= j < |rounds| ==>
                         rounds[j].now <= rounds[j].exec(n).startedAt <= rounds[j].exec(n).finishedAt)
    && (forall i, j, n :: 0 <= i < j < |rounds| ==> rounds[i].exec(n).finishedAt <= rounds[j].now)
    && (forall j :: 0 <= j < |rounds| ==> rounds[j].now >= NANOS_PER_SECOND)
  }

  predicate DueIn(specs: seq<Spec>, overrideSec: int, agents: Agents, rounds: seq<Round>, j: nat, spec: Spec)
    requires j < |rounds|
  {
    spec in Due(specs, overrideSec, AgentsAt(specs, overrideSec, agents, rounds, j), rounds[j].now)
  }

  /** Executions in a round touch their own agents only, whichever finishes first. */
  lemma {:induction false} ExecutedPointwise(due: seq<Spec>, round: Round, agents: Agents, name: string)
    ensures (exists sp :: sp in due && sp.name == name) && round.exec(name).recorded ==>
              Entry(Executed(due, round, agents), name).lastRunAt == UnixSeconds(round.exec(name).finishedAt)
    ensures !((exists sp :: sp in due && sp.name == name) && round.exec(name).recorded) ==>
              Entry(Executed(due, round, agents), name) == Entry(agents, name)
  {
    if due != [] {
      var last, before := due[|due| - 1], due[..|due| - 1];
      ExecutedPointwise(before, round, agents, name);
      assert forall sp :: sp in due <==> sp in before || sp == last;
    }
  }

  lemma LastRunIsEntry(agents: Agents, name: string)
    ensures LastRun(agents, name) ==
            if Entry(agents, name).lastRunAt > 0 then Some(Entry(agents, name).lastRunAt) else None
  {
  }

  /** A recorded run is never forgotten: in every later round the state names it or a later one. */
  lemma {:induction false} LastRunOnlyGrows(specs: seq<Spec>, overrideSec: int, agents: Agents, rounds: seq<Round>,
                                            i: nat, j: nat, spec: Spec)
    requires Sequential(rounds) && i < j <= |rounds|
    requires DueIn(specs, overrideSec, agents, rounds, i, spec) && rounds[i].exec(spec.name).recorded
    ensures var at := LastRun(AgentsAt(specs, overrideSec, agents, rounds, j), spec.name);
            at.Some? && at.value >= UnixSeconds(rounds[i].exec(spec.name).finishedAt)
  {
    var before := AgentsAt(specs, overrideSec, agents, rounds, j - 1);
    var due := Due(specs, overrideSec, before, rounds[j - 1].now);
    ExecutedPointwise(due, rounds[j - 1], before, spec.name);
    LastRunIsEntry(AgentsAt(specs, overrideSec, agents, rounds, j), spec.name);
    LastRunIsEntry(before, spec.name);
    SecondsGrow(NANOS_PER_SECOND, rounds[i].exec(spec.name).finishedAt);
    if i < j - 1 {
      LastRunOnlyGrows(specs, overrideSec, agents, rounds, i, j - 1, spec);
      SecondsGrow(rounds[i].exec(spec.name).finishedAt, rounds[j - 1].exec(spec.name).finishedAt);
    }
  }

  lemma SecondsGrow(t: int, t': int)
    requires t <= t'
    ensures UnixSeconds(t) <= UnixSeconds(t')
  {
  }

  /** Spacing: whenever an agent runs again, it starts at least its interval after the second in
      which any earlier recorded run of it finished, hence more than its interval less one second
      after that finish itself.  */
  lemma RunsAreSpaced(specs: seq<Spec>, overrideSec: int, agents: Agents, rounds: seq<Round>,
                      i: nat, j: nat, spec: Spec)
    requires Sequential(rounds) && i < j < |rounds|
    requires DueIn(specs, overrideSec, agents, rounds, i, spec) && rounds[i].exec(spec.name).recorded
    requires DueIn(specs, overrideSec, agents, rounds, j, spec)
    ensures var finish, start := rounds[i].exec(spec.name).finishedAt, rounds[j].exec(spec.name).startedAt;
            && start >= (UnixSeconds(finish) + Interval(spec, overrideSec)) * NANOS_PER_SECOND
            && start > finish + (Interval(spec, overrideSec) - 1) * NANOS_PER_SECOND
  {
    LastRunOnlyGrows(specs, overrideSec, agents, rounds, i, j, spec);
  }

  lemma {:induction false} RunsOnlyAdd(due: seq<Spec>, round: Round, agents: Agents, name: string)
    ensures Entry(Executed(due, round, agents), name).totalRuns >= Entry(agents, name).totalRuns
    ensures Entry(Executed(due, round, agents), name).totalRuns == Entry(agents, name).totalRuns <==>
            !(round.exec(name).recorded && exists sp :: sp in due && sp.name == name)
  {
    if due != [] {
      var last, before := due[|due| - 1], due[..|due| - 1];
      RunsOnlyAdd(before, round, agents, name);
      assert forall sp :: sp in due <==> sp in before || sp == last;
    }
  }

  // ---------------------------------------------------------------- the order of completion

  /** The registry keeps its specifications in a map, keyed by name. */
  ghost predicate UniqueNames(specs: seq<Spec>) {
    forall i, j :: 0 <= i < j < |specs| ==> specs[i].name != specs[j].name
  }

  lemma {:induction false} ExecutedOnce(due: seq<Spec>, round: Round, agents: Agents, name: string)
    requires UniqueNames(due)
    ensures var after := Executed(due, round, agents);
            if (exists sp :: sp in due && sp.name == name) && round.exec(name).recorded
            then var once := Updated(agents, name, round.exec(name).finishedAt, round.exec(name).success);
                 name in after && after[name] == once[name]
            else (name in after <==> name in agents) && (name in agents ==> after[name] == agents[name])
  {
    if due != [] {
      var last, before := due[|due| - 1], due[..|due| - 1];
      ExecutedOnce(before, round, agents, name);
      assert forall sp :: sp in due <==> sp in before || sp == last;
      assert last.name == name ==> !exists sp :: sp in before && sp.name == name;
    }
  }

  /** The agents of a round run concurrently; the order in which they finish leaves no trace. */
  lemma OrderLeavesNoTrace(due: seq<Spec>, due': seq<Spec>, round: Round, agents: Agents)
    requires UniqueNames(due) && UniqueNames(due') && forall sp :: sp in due <==> sp in due'
    ensures Executed(due, round, agents) == Executed(due', round, agents)
  {
    var a, a' := Executed(due, round, agents), Executed(due', round, agents);
    forall n ensures (n in a <==> n in a') && (n in a ==> a[n] == a'[n]) {
      ExecutedOnce(due, round, agents, n);
      ExecutedOnce(due', round, agents, n);
      assert (exists sp :: sp in due && sp.name == n) <==> (exists sp :: sp in due' && sp.name == n);
    }
  }

  lemma {:induction false} DueIsUnique(specs: seq<Spec>, overrideSec: int, agents: Agents, now: int)
    requires UniqueNames(specs)
    ensures UniqueNames(Due(specs, overrideSec, agents, now))
  {
    if specs != [] {
      var before := Due(specs[..|specs| - 1], overrideSec, agents, now);
      DueIsUnique(specs[..|specs| - 1], overrideSec, agents, now);
      assert forall k :: 0 <= k < |before| ==> before[k] in specs[..|specs| - 1];
    }
  }

  lemma ExecutedSnoc(finished: seq<Spec>, sp: Spec, round: Round, agents: Agents)
    ensures var before, e := Executed(finished, round, agents), round.exec(sp.name);
            Executed(finished + [sp], round, agents)
            == if e.recorded then Updated(before, sp.name, e.finishedAt, e.success) else before
  {
    assert (finished + [sp])[..|finished|] == finished;
  }

  lemma StillUnique(due: seq<Spec>, finished: seq<Spec>, sp: Spec)
    requires UniqueNames(due) && UniqueNames(finished)
    requires sp in due && sp !in finished && forall x :: x in finished ==> x in due
    ensures UniqueNames(finished + [sp])
  {
    forall x | x in finished ensures x.name != sp.name {
      var i, j :| 0 <= i < |due| && 0 <= j < |due| && due[i] == x && due[j] == sp;
    }
  }

  /** An agent gets a run in a round exactly if it is due and its execution leaves a record, and then
      just one: nobody who is due has to wait for another round.  */
  lemma RoundRunsExactlyTheDue(specs: seq<Spec>, overrideSec: int, agents: Agents, round: Round, name: string)
    ensures var due := exists sp :: sp in specs && sp.name == name && IsDue(sp, overrideSec, agents, round.now);
            var after := Executed(Due(specs, overrideSec, agents, round.now), round, agents);
            && (Entry(after, name).totalRuns == Entry(agents, name).totalRuns <==> !(due && round.exec(name).recorded))
            && (UniqueNames(specs) && due && round.exec(name).recorded ==>
                  Entry(after, name).totalRuns == Entry(agents, name).totalRuns + 1)
  {
    var due := Due(specs, overrideSec, agents, round.now);
    RunsOnlyAdd(due, round, agents, name);
    assert (exists sp :: sp in specs && sp.name == name && IsDue(sp, overrideSec, agents, round.now)) <==>
           (exists sp :: sp in due && sp.name == name);
    if UniqueNames(specs) {
      DueIsUnique(specs, overrideSec, agents, round.now);
      ExecutedOnce(due, round, agents, name);
    }
  }

  /** Punctuality, from the recorded state and the clock alone: an agent whose interval is positive runs in
      the first round from the end of its interval on, or at once if it has no recorded run; before that,
      and without an interval, it does not.  */
  lemma RunsArePunctual(specs: seq<Spec>, overrideSec: int, agents: Agents, rounds: seq<Round>, j: nat, spec: Spec)
    requires j < |rounds| && spec in specs && UniqueNames(specs)
    ensures var iv := if overrideSec > 0 then overrideSec else spec.interval;
            var before := Entry(AgentsAt(specs, overrideSec, agents, rounds, j), spec.name);
            var after := Entry(AgentsAt(specs, overrideSec, agents, rounds, j + 1), spec.name);
            var due := before.lastRunAt <= 0 || rounds[j].now >= (before.lastRunAt + iv) * 1_000_000_000;
            && (iv > 0 && due && rounds[j].exec(spec.name).recorded ==> after.totalRuns == before.totalRuns + 1)
            && (iv <= 0 || !due ==> after == before)
  {
    var before := AgentsAt(specs, overrideSec, agents, rounds, j);
    var due := Due(specs, overrideSec, before, rounds[j].now);
    RoundRunsExactlyTheDue(specs, overrideSec, before, rounds[j], spec.name);
    DueIsUnique(specs, overrideSec, before, rounds[j].now);
    ExecutedOnce(due, rounds[j], before, spec.name);
    LastRunIsEntry(before, spec.name);
    assert forall sp :: sp in specs && sp.name == spec.name ==> sp == spec;
    assert (exists sp :: sp in due && sp.name == spec.name) <==> IsDue(spec, overrideSec, before, rounds[j].now);
  }

  // ---------------------------------------------------------------- one round

  ghost predicate AnyRecorded(due: seq<Spec>, round: Round) {
    exists sp :: sp in due && round.exec(sp.name).recorded
  }

  /** The due agents run concurrently and finish in any order. */
  method RunAgents(due: seq<Spec>, state: StatePersistence, round: Round)
    requires UniqueNames(due)
    modifies state
    ensures state.agents == Executed(due, round, old(state.agents))
    ensures state.dirty == (old(state.dirty) || AnyRecorded(due, round))
  {
    ghost var finished: seq<Spec> := [];
    var running := set sp | sp in due;
    while running != {}
      invariant state.agents == Executed(finished, round, old(state.agents))
      invariant forall sp :: sp in running ==> sp in due
      invariant forall sp :: sp in finished <==> sp in due && sp !in running
      invariant UniqueNames(finished)
      invariant state.dirty == (old(state.dirty) || AnyRecorded(finished, round))
      decreases |running|
    {
      var sp :| sp in running;
      var e := round.exec(sp.name);
      ExecutedSnoc(finished, sp, round, old(state.agents));
      if e.recorded {
        state.UpdateAgent(sp.name, e.finishedAt, e.success);
      }
      StillUnique(due, finished, sp);
      assert forall x :: x in finished + [sp] <==> x in finished || x == sp;
      finished := finished + [sp];
      running := running - {sp};
    }
    OrderLeavesNoTrace(finished, due, round, old(state.agents));
  }

  method SaveIfDirty(state: StatePersistence, fault: Fault)
    modifies state`dirty, state.fs
    ensures state.persist && old(state.dirty) && fault.NoFault? ==>
              !state.dirty && state.fs.file == Some(Complete(state.agents))
    ensures !(state.persist && old(state.dirty) && fault.NoFault?) ==>
              state.dirty == old(state.dirty) && state.fs.file == old(state.fs.file)
  {
    if state.dirty {
      var ok := state.Save(fault);
    }
  }

  /** One round on the state that drives it.  A round that ran anything tries to save twice, once when
      its agents are done and once more at its end.  */
  method RunSimpleRound(specs: seq<Spec>, overrideSec: int, state: StatePersistence, round: Round,
                        fault: Fault, fault': Fault)
    requires UniqueNames(specs)
    modifies state, state.fs
    ensures state.agents == Executed(Due(specs, overrideSec, old(state.agents), round.now), round, old(state.agents))
    ensures var due := Due(specs, overrideSec, old(state.agents), round.now);
            var dirty := old(state.dirty) || AnyRecorded(due, round);
            if state.persist && due != [] && dirty && (fault.NoFault? || fault'.NoFault?)
            then !state.dirty && state.fs.file == Some(Complete(state.agents))
            else state.dirty == dirty && state.fs.file == old(state.fs.file)
  {
    var due := DueSpecs(specs, overrideSec, state, round.now);
    if |due| == 0 {
      return;
    }
    DueIsUnique(specs, overrideSec, state.agents, round.now);
    RunAgents(due, state, round);
    SaveIfDirty(state, fault);
    SaveIfDirty(state, fault');
  }

  method DueSpecs(specs: seq<Spec>, overrideSec: int, state: StatePersistence, now: int) returns (due: seq<Spec>)
    ensures due == Due(specs, overrideSec, state.agents, now)
  {
    due := [];
    for k := 0 to |specs|
      invariant due == Due(specs[..k], overrideSec, state.agents, now)
    {
      assert specs[..k + 1][..k] == specs[..k];
      var sp := specs[k];
      var iv := sp.interval;
      if overrideSec > 0 {
        iv := overrideSec;
      }
      if iv <= 0 {
        continue;
      }
      var lastRun := state.GetAgentLastRun(sp.name);
      if lastRun.None? {
        due := due + [sp];
        continue;
      }
      var elapsed := now - lastRun.value * NANOS_PER_SECOND;
      if elapsed >= iv * NANOS_PER_SECOND {
        due := due + [sp];
      }
    }
    assert specs[..|specs|] == specs;
  }
}
