/** A whole intelligent round with agents that have a state of their own: what an agent keeps from one
    step of a plan to a later one (its breaker entry, its counters, its cached instance).

    Each step waits for its goroutines, so a round is a sequence of the schedules of `ParallelSteps`,
    which hand results and states on from step to step.  */
module WholeRounds {
  import opened Option
  import opened Workers
  import opened PlanRounds
  import ParallelSteps

  /** The workers of a step, given the dependency results it hands to its agents. */
  type Crew<!S> = (nat, Results) -> Worker<S>

  datatype State<S> = State(results: Results, store: map<string, S>)

  /** The places of a parallel step's semaphore, and of the process-wide agent channel. */
  datatype Capacity = Capacity(places: nat, slots: nat)

  /** Every agent of the plan has a state. */
  predicate Known<S>(plan: Plan, store: map<string, S>) {
    forall i, n :: 0 <= i < |plan.steps| && n in Agents(plan, i) ==> n in store
  }

  function Jobs(names: seq<string>): (jobs: seq<ParallelSteps.Job>)
    ensures |jobs| == |names| && forall k :: 0 <= k < |names| ==> jobs[k] == ParallelSteps.Job(names[k], 0)
  {
    seq(|names|, k requires 0 <= k < |names| => ParallelSteps.Job(names[k], 0))
  }

  function WorkerAt<S>(plan: Plan, crew: Crew<S>, i: nat, results: Results): Worker<S>
    requires i < |plan.steps|
  {
    crew(i, Inputs(plan.steps[i], results))
  }

  // ---------------------------------------------------------------- the sequential round

  function SequentialStep<S>(plan: Plan, crew: Crew<S>, i: nat, st: State<S>): (st': State<S>)
    requires i < |plan.steps| && Known(plan, st.store)
    ensures st'.store.Keys == st.store.Keys
  {
    if !Runs(plan, i, st.results) then st
    else
      var (results, store) :=
        ParallelSteps.Sequential(WorkerAt(plan, crew, i, st.results), Jobs(Agents(plan, i)), st.results, st.store);
      State(results, store)
  }

  /** The first `i` steps, one agent after the other. */
  function SequentialRound<S>(plan: Plan, crew: Crew<S>, store: map<string, S>, i: nat): (st: State<S>)
    requires i <= |plan.steps| && Known(plan, store)
    ensures st.store.Keys == store.Keys
  {
    if i == 0 then State(map[], store)
    else SequentialStep(plan, crew, i - 1, SequentialRound(plan, crew, store, i - 1))
  }

  // ---------------------------------------------------------------- the concurrent round

  function SetupOf<S>(plan: Plan, crew: Crew<S>, cap: Capacity, i: nat, results: Results): ParallelSteps.Setup<S>
    requires i < |plan.steps|
  {
    ParallelSteps.Setup(Jobs(Agents(plan, i)), [cap.places], cap.slots, WorkerAt(plan, crew, i, results))
  }

  function StartOf<S>(jobs: seq<ParallelSteps.Job>, st: State<S>): ParallelSteps.System<S> {
    ParallelSteps.System(seq(|jobs|, _ => ParallelSteps.Start), [0], 0, {}, st.results, st.store)
  }

  lemma StartIsInitial<S>(plan: Plan, crew: Crew<S>, cap: Capacity, i: nat, st: State<S>)
    requires i < |plan.steps| && Known(plan, st.store)
    ensures ParallelSteps.Initial(SetupOf(plan, crew, cap, i, st.results), StartOf(Jobs(Agents(plan, i)), st))
  {
  }

  /** The schedule takes all the goroutines of a step from `st` to their ends, at `st'`. */
  ghost predicate Takes<S>(p: ParallelSteps.Setup<S>, moves: seq<ParallelSteps.Move>, st: State<S>, st': State<S>)
    requires ParallelSteps.Initial(p, StartOf(p.jobs, st))
  {
    && ParallelSteps.Schedule(p, StartOf(p.jobs, st), moves) && (forall m :: m in moves ==> !m.cancelled)
    && var end := ParallelSteps.After(p, StartOf(p.jobs, st), moves);
       ParallelSteps.Final(end) && st' == State(end.results, end.store)
  }

  /** What step `i` can do: its agents run in turn, or as goroutines in any interleaving. */
  ghost predicate StepLeads<S>(plan: Plan, crew: Crew<S>, cap: Capacity, i: nat, st: State<S>, st': State<S>)
    requires i < |plan.steps|
  {
    && Known(plan, st.store)
    && if !Runs(plan, i, st.results) || plan.steps[i].sequential then st' == SequentialStep(plan, crew, i, st)
       else
         StartIsInitial(plan, crew, cap, i, st);
         exists moves :: Takes(SetupOf(plan, crew, cap, i, st.results), moves, st, st')
  }

  /** `hist[i]` is what step `i` finds, as far as the round has come. */
  ghost predicate SoFar<S>(plan: Plan, crew: Crew<S>, cap: Capacity, store: map<string, S>, hist: seq<State<S>>) {
    && 1 <= |hist| <= |plan.steps| + 1 && hist[0] == State(map[], store)
    && forall i :: 0 <= i < |hist| - 1 ==> StepLeads(plan, crew, cap, i, hist[i], hist[i + 1])
  }

  lemma StepIsSequential<S>(plan: Plan, crew: Crew<S>, cap: Capacity, i: nat, st: State<S>, st': State<S>)
    requires i < |plan.steps| && StepLeads(plan, crew, cap, i, st, st') && DistinctInParallel(plan)
    ensures st' == SequentialStep(plan, crew, i, st)
  {
    if Runs(plan, i, st.results) && !plan.steps[i].sequential {
      var p := SetupOf(plan, crew, cap, i, st.results);
      StartIsInitial(plan, crew, cap, i, st);
      var moves :| Takes(p, moves, st, st');
      assert ParallelSteps.DistinctNames(p.jobs);
      ParallelSteps.Confluence(p, StartOf(p.jobs, st), moves);
    }
  }

  /** Confluence of rounds: if the agents of each parallel step are distinct, every interleaving of every
      step's goroutines leaves the results and all agents' states, at every step of the round, as the
      sequential round does.  */
  lemma {:induction false} RoundIsSequential<S>(plan: Plan, crew: Crew<S>, cap: Capacity, store: map<string, S>,
                                                hist: seq<State<S>>, i: nat)
    requires SoFar(plan, crew, cap, store, hist) && DistinctInParallel(plan) && Known(plan, store) && i < |hist|
    ensures hist[i] == SequentialRound(plan, crew, store, i)
  {
    if i > 0 {
      var j: nat := i - 1;
      RoundIsSequential(plan, crew, cap, store, hist, j);
      StepIsSequential(plan, crew, cap, j, hist[j], hist[j + 1]);
    }
  }

  /** In a step whose agents are distinct, each runs once on its own state, with a worker that was handed
      exactly the texts of the step's dependencies, and its reply is its result.  */
  lemma AgentsRunOnTheirInputs<S>(plan: Plan, crew: Crew<S>, cap: Capacity, i: nat, st: State<S>, st': State<S>,
                                  q: nat, inputs: Results)
    requires i < |plan.steps| && StepLeads(plan, crew, cap, i, st, st') && DistinctInParallel(plan)
    requires Runs(plan, i, st.results) && q < |Agents(plan, i)|
    requires forall k, l :: 0 <= k < l < |Agents(plan, i)| ==> Agents(plan, i)[k] != Agents(plan, i)[l]
    requires forall d :: d in inputs <==> d in plan.steps[i].dependsOn
    requires forall d :: d in inputs ==> d in st.results && inputs[d] == st.results[d]
    ensures var n := Agents(plan, i)[q];
            var (reply, own) := Execute(crew(i, inputs), n, st.store[n]);
            && n in st'.store && st'.store[n] == own
            && Look(st'.results, n) == if reply.Some? then reply else Look(st.results, n)
  {
    assert inputs == Inputs(plan.steps[i], st.results);
    StepIsSequential(plan, crew, cap, i, st, st');
    var jobs, n := Jobs(Agents(plan, i)), Agents(plan, i)[q];
    assert jobs[q].name == n && ParallelSteps.IsJob(jobs, n);
    ParallelSteps.SequentialPointwise(crew(i, inputs), jobs, st.results, st.store, n);
  }

  /** With room for one in both channels every step can be finished. */
  lemma StepCompletes<S>(plan: Plan, crew: Crew<S>, cap: Capacity, i: nat, st: State<S>) returns (st': State<S>)
    requires i < |plan.steps| && Known(plan, st.store) && cap.places >= 1 && cap.slots >= 1
    ensures StepLeads(plan, crew, cap, i, st, st')
  {
    st' := SequentialStep(plan, crew, i, st);
    if Runs(plan, i, st.results) && !plan.steps[i].sequential {
      var p, start := SetupOf(plan, crew, cap, i, st.results), StartOf(Jobs(Agents(plan, i)), st);
      StartIsInitial(plan, crew, cap, i, st);
      ParallelSteps.InitiallySafe(p, start);
      var moves := ParallelSteps.CanFinish(p, start);
      var end := ParallelSteps.After(p, start, moves);
      st' := State(end.results, end.store);
      assert Takes(p, moves, st, st');
    }
  }

  /** However far a round has come, it can be completed: no interleaving gets it stuck. */
  lemma {:induction false} RoundCompletes<S>(plan: Plan, crew: Crew<S>, cap: Capacity, store: map<string, S>,
                                             hist: seq<State<S>>) returns (all: seq<State<S>>)
    requires SoFar(plan, crew, cap, store, hist) && DistinctInParallel(plan) && Known(plan, store)
    requires cap.places >= 1 && cap.slots >= 1
    ensures SoFar(plan, crew, cap, store, all) && |all| == |plan.steps| + 1 && all[..|hist|] == hist
    decreases |plan.steps| - |hist|
  {
    hide StepLeads, SequentialRound;
    all := hist;
    if |hist| <= |plan.steps| {
      var i: nat := |hist| - 1;
      RoundIsSequential(plan, crew, cap, store, hist, i);
      var st' := StepCompletes(plan, crew, cap, i, hist[i]);
      assert SoFar(plan, crew, cap, store, hist + [st']);
      all := RoundCompletes(plan, crew, cap, store, hist + [st']);
      assert all[..|hist|] == all[..|hist| + 1][..|hist|];
    }
  }

  // ---------------------------------------------------------------- back to rounds without states

  /** What the agent at position `q` replies, on the state that the agents before it leave. */
  function Reply<S>(w: Worker<S>, names: seq<string>, q: nat, st: State<S>): Option<string>
    requires q < |names| && forall k :: 0 <= k < |names| ==> names[k] in st.store
  {
    Execute(w, names[q], ParallelSteps.Sequential(w, Jobs(names)[..q], st.results, st.store).1[names[q]]).0
  }

  function ExecutorOf<S>(plan: Plan, crew: Crew<S>, store: map<string, S>): PlanRounds.Executor
    requires Known(plan, store)
  {
    (i: nat, q: nat, inputs: Results) =>
      if i < |plan.steps| && q < |Agents(plan, i)|
      then Reply(crew(i, inputs), Agents(plan, i), q, SequentialRound(plan, crew, store, i)) else None
  }

  lemma OneMoreAgent<S>(w: Worker<S>, names: seq<string>, k: nat, st: State<S>)
    requires k < |names| && forall q :: 0 <= q < |names| ==> names[q] in st.store
    ensures var before := ParallelSteps.Sequential(w, Jobs(names)[..k], st.results, st.store).0;
            ParallelSteps.Sequential(w, Jobs(names)[..k + 1], st.results, st.store).0 ==
            match Reply(w, names, k, st)
            case None => before
            case Some(text) => before[names[k] := text]
  {
    hide Execute;
    assert Jobs(names)[..k + 1][..k] == Jobs(names)[..k];
  }

  lemma OneMoreWrite(names: seq<string>, outs: seq<Option<string>>, results: Results, k: nat)
    requires k < |names| == |outs|
    ensures var before := WriteAll(names[..k], outs[..k], results);
            WriteAll(names[..k + 1], outs[..k + 1], results) ==
            match outs[k]
            case None => before
            case Some(text) => before[names[k] := text]
  {
    assert names[..k + 1][..k] == names[..k] && outs[..k + 1][..k] == outs[..k];
  }

  lemma {:induction false} SequentialWritesAll<S>(w: Worker<S>, names: seq<string>, outs: seq<Option<string>>,
                                                  st: State<S>, k: nat)
    requires k <= |names| == |outs| && forall q :: 0 <= q < |names| ==> names[q] in st.store
    requires forall q :: 0 <= q < |names| ==> outs[q] == Reply(w, names, q, st)
    ensures ParallelSteps.Sequential(w, Jobs(names)[..k], st.results, st.store).0
            == WriteAll(names[..k], outs[..k], st.results)
  {
    if k > 0 {
      SequentialWritesAll(w, names, outs, st, k - 1);
      OneMoreAgent(w, names, k - 1, st);
      OneMoreWrite(names, outs, st.results, k - 1);
    }
  }

  lemma StepWrites<S>(plan: Plan, crew: Crew<S>, store: map<string, S>, i: nat)
    requires i < |plan.steps| && Known(plan, store)
    ensures StepResult(plan, ExecutorOf(plan, crew, store), i, SequentialRound(plan, crew, store, i).results,
                       SequentialRound(plan, crew, store, i + 1).results)
  {
    hide Reply, WriteAll, Merged, ParallelSteps.Sequential;
    var st, names, exec := SequentialRound(plan, crew, store, i), Agents(plan, i), ExecutorOf(plan, crew, store);
    assert SequentialRound(plan, crew, store, i + 1) == SequentialStep(plan, crew, i, st);
    if Runs(plan, i, st.results) {
      var outs, w := Outcomes(plan, exec, i, st.results), WorkerAt(plan, crew, i, st.results);
      SequentialWritesAll(w, names, outs, st, |names|);
      assert Jobs(names)[..|names|] == Jobs(names) && names[..|names|] == names && outs[..|names|] == outs;
      WriteAllMerges(names, outs, st.results);
    }
  }

  /** The results of a whole round are those of a round whose agents have no state: everything known of
      such rounds, in particular which steps run, holds for whole ones.  */
  lemma WholeRoundIsRound<S>(plan: Plan, crew: Crew<S>, cap: Capacity, store: map<string, S>, hist: seq<State<S>>)
    requires SoFar(plan, crew, cap, store, hist) && |hist| == |plan.steps| + 1
    requires DistinctInParallel(plan) && Known(plan, store)
    ensures Round(plan, ExecutorOf(plan, crew, store), seq(|hist|, i requires 0 <= i < |hist| => hist[i].results))
    ensures forall i: nat :: i < |plan.steps| ==>
                               (Runs(plan, i, hist[i].results) <==> Live(plan, ExecutorOf(plan, crew, store), i))
  {
    var exec, results := ExecutorOf(plan, crew, store), seq(|hist|, i requires 0 <= i < |hist| => hist[i].results);
    forall i | 0 <= i < |plan.steps| ensures StepResult(plan, exec, i, results[i], results[i + 1]) {
      RoundIsSequential(plan, crew, cap, store, hist, i);
      RoundIsSequential(plan, crew, cap, store, hist, i + 1);
      StepWrites(plan, crew, store, i);
    }
    assert Round(plan, exec, results);
    forall i: nat | i < |plan.steps| ensures Runs(plan, i, hist[i].results) <==> Live(plan, exec, i) {
      LoopRunsLiveSteps(plan, exec, results, i);
    }
  }
}
