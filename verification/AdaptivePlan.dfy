/** The adaptive plan executor: a recursion over plans that are made while it runs.

    Plans are reached through pointers, which may form cycles: `Heap` says what every pointer, of
    this or any later moment, points to.  Agents and the plan creator are arbitrary and may depend
    on everything that happened before: they see the trace of calls so far.  */
module AdaptivePlans {
  import opened Option

  type PlanRef = nat

  datatype PlanStep = PlanStep(id: string, action: string, subPlan: Option<PlanRef>)

  datatype ThinkingPlan = ThinkingPlan(goal: string, steps: seq<PlanStep>)

  type Heap = PlanRef -> ThinkingPlan

  datatype Event = Called(action: string) | Asked(action: string, reason: string)

  /** A reply is `complex` when its lower-cased text contains one of the replanning keywords. */
  datatype AgentOutcome = Failed(message: string) | Replied(text: Option<string>, complex: bool)

  datatype Executor = Executor(
    heap: Heap,
    agent: Option<(seq<Event>, string) -> AgentOutcome>,
    creator: Option<(seq<Event>, string, string) -> Option<PlanRef>>,
    maxDepth: int)

  datatype Output = Goal(goal: string) | Message(text: Option<string>) | Recorded(action: string)

  datatype Error = NoError | DepthReached | AgentError(message: string)

  datatype Result = Result(success: bool, output: Option<Output>, subResults: seq<Result>, depth: int, stepId: string,
                           needsReplan: bool, replanReason: string, error: Error)

  /** What the loop over a plan's steps has gathered so far. */
  datatype Progress = Progress(results: seq<Result>, allSuccess: bool, trace: seq<Event>)

  /** How many levels of recursion are left. */
  function Levels(e: Executor, depth: int): nat {
    if depth > e.maxDepth then 0 else e.maxDepth - depth + 1
  }

  // ---------------------------------------------------------------- meaning

  function ExecuteStep(e: Executor, step: PlanStep, depth: int, trace: seq<Event>): (Result, seq<Event>) {
    if e.agent.None? then
      (Result(true, Some(Recorded(step.action)), [], depth, step.id, false, "", NoError), trace)
    else
      var trace' := trace + [Called(step.action)];
      match e.agent.value(trace, step.action)
      case Failed(m) =>
        (Result(false, None, [], depth, step.id, true, "execution failed: " + m, AgentError(m)), trace')
      case Replied(text, complex) =>
        (Result(true, Some(Message(text)), [], depth, step.id, complex,
                if complex then "complexity detected in results" else "", NoError), trace')
  }

  function Execute(e: Executor, ref: PlanRef, depth: int, trace: seq<Event>): (Result, seq<Event>)
    decreases Levels(e, depth), 2
  {
    if depth > e.maxDepth then
      (Result(false, None, [], depth, "", false, "", DepthReached), trace)
    else
      var plan := e.heap(ref);
      var p := RunSteps(e, plan.steps, depth, Progress([], true, trace));
      (Result(p.allSuccess, Some(Goal(plan.goal)), p.results, depth, "", false, "", NoError), p.trace)
  }

  /** The steps in order. */
  function RunSteps(e: Executor, steps: seq<PlanStep>, depth: int, p: Progress): Progress
    requires depth <= e.maxDepth
    decreases Levels(e, depth), 1, |steps|
  {
    if steps == [] then p
    else
      var last := |steps| - 1;
      RunStep(e, steps[last], depth, RunSteps(e, steps[..last], depth, p))
  }

  /** The sub-plan a step's result calls for, made on the spot if the step carries none. */
  function SubPlanFor(e: Executor, step: PlanStep, depth: int, res: Result, trace: seq<Event>)
    : (Option<PlanRef>, seq<Event>)
  {
    if !(res.needsReplan && depth < e.maxDepth && e.creator.Some?) then (None, trace)
    else if step.subPlan.Some? then (step.subPlan, trace)
    else (e.creator.value(trace, step.action, res.replanReason), trace + [Asked(step.action, res.replanReason)])
  }

  /** One step up to the point where its sub-plan, if it calls for one, is executed. */
  function RunAction(e: Executor, step: PlanStep, depth: int, p: Progress): (Progress, Option<PlanRef>) {
    var (res, trace) := ExecuteStep(e, step, depth, p.trace);
    var (sub, trace') := SubPlanFor(e, step, depth, res, trace);
    (Progress(p.results + [res], p.allSuccess && res.success, trace'), sub)
  }

  /** One step, and the sub-plan it calls for. */
  function RunStep(e: Executor, step: PlanStep, depth: int, p: Progress): Progress
    requires depth <= e.maxDepth
    decreases Levels(e, depth), 0
  {
    var (p', sub) := RunAction(e, step, depth, p);
    if sub.None? || depth == e.maxDepth then p'
    else
      var (subRes, trace) := Execute(e, sub.value, depth + 1, p'.trace);
      Progress(p'.results + [subRes], p'.allSuccess, trace)
  }

  // ---------------------------------------------------------------- what a step does

  /** Why the outcome of a step calls for another plan; empty if it does not. */
  function Reason(outcome: AgentOutcome): string {
    match outcome
    case Failed(m) => "execution failed: " + m
    case Replied(_, complex) => if complex then "complexity detected in results" else ""
  }

  /** A step's own result, from its agent's outcome. */
  function OwnResult(outcome: AgentOutcome, step: PlanStep, depth: int): Result {
    match outcome
    case Failed(m) => Result(false, None, [], depth, step.id, true, Reason(outcome), AgentError(m))
    case Replied(text, complex) =>
      Result(true, Some(Message(text)), [], depth, step.id, complex, Reason(outcome), NoError)
  }

  /** From `p` to `p'` the step's own result was added, and then that of the plan, if there is one. */
  predicate Adds(e: Executor, depth: int, p: Progress, own: Result, trace: seq<Event>, sub: Option<PlanRef>,
                 p': Progress)
  {
    && p'.allSuccess == (p.allSuccess && own.success)
    && match sub
       case None => p'.results == p.results + [own] && p'.trace == trace
       case Some(ref) =>
         var (below, trace') := Execute(e, ref, depth + 1, trace);
         p'.results == p.results + [own, below] && p'.trace == trace'
  }

  /** One step told from its agent's outcome alone: a failure or a complex reply is followed by the plan
      the step carries, or by one the creator is asked for, with the reason, and may refuse; anything
      else, the deepest level, and an executor without a creator end the step with its own result.  */
  lemma StepFollowsOutcome(e: Executor, step: PlanStep, depth: int, p: Progress)
    requires depth <= e.maxDepth
    ensures var p' := RunStep(e, step, depth, p);
            match e.agent
            case None =>
              p' == p.(results := p.results +
                                  [Result(true, Some(Recorded(step.action)), [], depth, step.id, false, "", NoError)])
            case Some(agent) =>
              var outcome := agent(p.trace, step.action);
              var own, called := OwnResult(outcome, step, depth), p.trace + [Called(step.action)];
              if (outcome.Failed? || outcome.complex) && depth < e.maxDepth && e.creator.Some? then
                if step.subPlan.Some? then Adds(e, depth, p, own, called, step.subPlan, p')
                else
                  var made := e.creator.value(called, step.action, Reason(outcome));
                  Adds(e, depth, p, own, called + [Asked(step.action, Reason(outcome))], made, p')
              else Adds(e, depth, p, own, called, None, p')
  {
    hide Execute;
    assert forall own, below :: p.results + [own] + [below] == p.results + [own, below];
  }

  /** A plan's steps take effect one after the other, each on what the one before it left, and the plan
      reports its goal and all results.  */
  lemma PlanFollowsSteps(e: Executor, ref: PlanRef, depth: int, trace: seq<Event>) returns (ps: seq<Progress>)
    requires depth <= e.maxDepth
    ensures var steps := e.heap(ref).steps;
            && |ps| == |steps| + 1 && ps[0] == Progress([], true, trace)
            && (forall k :: 0 <= k < |steps| ==> ps[k + 1] == RunStep(e, steps[k], depth, ps[k]))
            && Execute(e, ref, depth, trace) ==
               (Result(ps[|steps|].allSuccess, Some(Goal(e.heap(ref).goal)), ps[|steps|].results, depth, "", false, "",
                       NoError), ps[|steps|].trace)
  {
    hide RunStep;
    var steps := e.heap(ref).steps;
    ps := [Progress([], true, trace)];
    for k := 0 to |steps|
      invariant |ps| == k + 1 && ps[0] == Progress([], true, trace)
      invariant ps[k] == RunSteps(e, steps[..k], depth, Progress([], true, trace))
      invariant forall j :: 0 <= j < k ==> ps[j + 1] == RunStep(e, steps[j], depth, ps[j])
    {
      assert steps[..k + 1][..k] == steps[..k];
      ps := ps + [RunStep(e, steps[k], depth, ps[k])];
    }
    assert steps[..|steps|] == steps;
  }

  // ---------------------------------------------------------------- depth

  /** No node of the result is deeper than allowed, and none is a depth error. */
  predicate Shallow(r: Result, maxDepth: int) {
    && r.depth <= maxDepth && r.error != DepthReached
    && forall k :: 0 <= k < |r.subResults| ==> Shallow(r.subResults[k], maxDepth)
  }

  /** Started within the limit, the executor never runs into it, whatever the plans, the agents and
      the creator do.  Started beyond it, a depth error is all there is.  */
  lemma {:induction false} DepthIsNeverExceeded(e: Executor, ref: PlanRef, depth: int, trace: seq<Event>)
    ensures Shallow(Execute(e, ref, depth, trace).0, e.maxDepth) <==> depth <= e.maxDepth
    decreases Levels(e, depth), 2
  {
    if depth <= e.maxDepth {
      StepsStayShallow(e, e.heap(ref).steps, depth, Progress([], true, trace));
    }
  }

  lemma {:induction false} StepsStayShallow(e: Executor, steps: seq<PlanStep>, depth: int, p: Progress)
    requires depth <= e.maxDepth && forall k :: 0 <= k < |p.results| ==> Shallow(p.results[k], e.maxDepth)
    ensures forall k :: 0 <= k < |RunSteps(e, steps, depth, p).results| ==>
                          Shallow(RunSteps(e, steps, depth, p).results[k], e.maxDepth)
    decreases Levels(e, depth), 1, |steps|
  {
    if steps != [] {
      var last := |steps| - 1;
      StepsStayShallow(e, steps[..last], depth, p);
      StepStaysShallow(e, steps[last], depth, RunSteps(e, steps[..last], depth, p));
    }
  }

  lemma {:induction false} StepStaysShallow(e: Executor, step: PlanStep, depth: int, p: Progress)
    requires depth <= e.maxDepth && forall k :: 0 <= k < |p.results| ==> Shallow(p.results[k], e.maxDepth)
    ensures forall k :: 0 <= k < |RunStep(e, step, depth, p).results| ==>
                          Shallow(RunStep(e, step, depth, p).results[k], e.maxDepth)
    decreases Levels(e, depth), 0
  {
    var (p', sub) := RunAction(e, step, depth, p);
    if sub.Some? {
      DepthIsNeverExceeded(e, sub.value, depth + 1, p'.trace);
    }
  }

  // ---------------------------------------------------------------- agent calls

  function Calls(trace: seq<Event>): nat {
    if trace == [] then 0 else Calls(trace[..|trace| - 1]) + if trace[|trace| - 1].Called? then 1 else 0
  }

  lemma CallsSnoc(trace: seq<Event>, ev: Event)
    ensures Calls(trace + [ev]) == Calls(trace) + if ev.Called? then 1 else 0
  {
    assert (trace + [ev])[..|trace|] == trace;
  }

  /** `m` steps, each calling an agent once and having a sub-plan of `n - 1` levels. */
  function Budget(b: nat, m: nat, n: nat): nat
    decreases n, m
  {
    if n == 0 || m == 0 then 0 else Budget(b, m - 1, n) + 1 + Budget(b, b, n - 1)
  }

  lemma {:induction false} BudgetGrows(b: nat, m: nat, m': nat, n: nat)
    requires m <= m'
    ensures Budget(b, m, n) <= Budget(b, m', n)
    decreases m'
  {
    if m < m' {
      BudgetGrows(b, m, m' - 1, n);
    }
  }

  function Pow(b: nat, n: nat): nat {
    if n == 0 then 1 else b * Pow(b, n - 1)
  }

  /** b + b^2 + ... + b^n */
  function GeometricSum(b: nat, n: nat): nat {
    if n == 0 then 0 else GeometricSum(b, n - 1) + Pow(b, n)
  }

  lemma {:induction false} SumShifts(b: nat, n: nat)
    ensures GeometricSum(b, n + 1) == b + b * GeometricSum(b, n)
  {
    if n == 0 {
      assert Pow(b, 1) == b * Pow(b, 0);
    } else {
      SumShifts(b, n - 1);
      assert b * (GeometricSum(b, n - 1) + Pow(b, n)) == b * GeometricSum(b, n - 1) + b * Pow(b, n);
    }
  }

  lemma {:induction false} BudgetIsProduct(b: nat, m: nat, n: nat)
    requires n > 0
    ensures Budget(b, m, n) == m * (1 + Budget(b, b, n - 1))
    decreases m
  {
    if m > 0 {
      BudgetIsProduct(b, m - 1, n);
      assert m * (1 + Budget(b, b, n - 1)) == (m - 1) * (1 + Budget(b, b, n - 1)) + (1 + Budget(b, b, n - 1));
    }
  }

  lemma {:induction false} BudgetIsGeometric(b: nat, n: nat)
    ensures Budget(b, b, n) == GeometricSum(b, n)
  {
    if n > 0 {
      BudgetIsGeometric(b, n - 1);
      BudgetIsProduct(b, b, n);
      SumShifts(b, n - 1);
      assert b * (1 + GeometricSum(b, n - 1)) == b + b * GeometricSum(b, n - 1);
    }
  }

  ghost predicate PlansHaveAtMost(e: Executor, b: nat) {
    forall ref :: |e.heap(ref).steps| <= b
  }

  /** If no plan has more than `b` steps, agents are called at most b + b^2 + ... + b^levels times. */
  lemma CallsAreBounded(e: Executor, b: nat, ref: PlanRef, depth: int, trace: seq<Event>)
    requires PlansHaveAtMost(e, b)
    ensures Calls(Execute(e, ref, depth, trace).1) <= Calls(trace) + GeometricSum(b, Levels(e, depth))
  {
    CallsWithinBudget(e, b, ref, depth, trace);
    BudgetIsGeometric(b, Levels(e, depth));
  }

  lemma {:induction false} CallsWithinBudget(e: Executor, b: nat, ref: PlanRef, depth: int, trace: seq<Event>)
    requires PlansHaveAtMost(e, b)
    ensures Calls(Execute(e, ref, depth, trace).1) <= Calls(trace) + Budget(b, b, Levels(e, depth))
    decreases Levels(e, depth), 2
  {
    if depth <= e.maxDepth {
      var steps := e.heap(ref).steps;
      StepsWithinBudget(e, b, steps, depth, Progress([], true, trace));
      BudgetGrows(b, |steps|, b, Levels(e, depth));
    }
  }

  lemma {:induction false} StepsWithinBudget(e: Executor, b: nat, steps: seq<PlanStep>, depth: int, p: Progress)
    requires PlansHaveAtMost(e, b) && depth <= e.maxDepth
    ensures Calls(RunSteps(e, steps, depth, p).trace) <= Calls(p.trace) + Budget(b, |steps|, Levels(e, depth))
    decreases Levels(e, depth), 1, |steps|
  {
    if steps != [] {
      var last := |steps| - 1;
      StepsWithinBudget(e, b, steps[..last], depth, p);
      StepWithinBudget(e, b, steps[last], depth, RunSteps(e, steps[..last], depth, p));
    }
  }

  lemma ActionCallsOnce(e: Executor, step: PlanStep, depth: int, p: Progress)
    ensures Calls(RunAction(e, step, depth, p).0.trace) == Calls(p.trace) + if e.agent.Some? then 1 else 0
    ensures RunAction(e, step, depth, p).1.Some? ==> depth < e.maxDepth
  {
    hide Calls;
    var (res, trace) := ExecuteStep(e, step, depth, p.trace);
    CallsSnoc(p.trace, Called(step.action));
    CallsSnoc(trace, Asked(step.action, res.replanReason));
  }

  lemma {:induction false} StepWithinBudget(e: Executor, b: nat, step: PlanStep, depth: int, p: Progress)
    requires PlansHaveAtMost(e, b) && depth <= e.maxDepth
    ensures Calls(RunStep(e, step, depth, p).trace) <= Calls(p.trace) + 1 + Budget(b, b, Levels(e, depth) - 1)
    decreases Levels(e, depth), 0
  {
    hide Execute, RunAction;
    var (p', sub) := RunAction(e, step, depth, p);
    ActionCallsOnce(e, step, depth, p);
    if sub.Some? {
      CallsWithinBudget(e, b, sub.value, depth + 1, p'.trace);
      assert Levels(e, depth + 1) == Levels(e, depth) - 1;
      assert RunStep(e, step, depth, p).trace == Execute(e, sub.value, depth + 1, p'.trace).1;
    } else {
      assert RunStep(e, step, depth, p) == p';
    }
  }

  /** Every plan has `b` steps, no agent ever succeeds, and there is always a sub-plan: each step carries
      one, perhaps its own plan, or the creator makes one whenever it is asked.  */
  ghost predicate Relentless(e: Executor, b: nat) {
    && e.agent.Some? && e.creator.Some?
    && (forall trace, action :: e.agent.value(trace, action).Failed?)
    && (forall ref :: |e.heap(ref).steps| == b)
    && ((forall ref, k :: 0 <= k < b ==> e.heap(ref).steps[k].subPlan.Some?) || AlwaysPlans(e))
  }

  ghost predicate AlwaysPlans(e: Executor) {
    e.creator.Some? && forall trace, action, reason :: e.creator.value(trace, action, reason).Some?
  }

  /** The bound is attained: relentless plans use all of it. */
  lemma RelentlessPlansMeetTheBound(e: Executor, b: nat, ref: PlanRef, depth: int, trace: seq<Event>)
    requires Relentless(e, b)
    ensures Calls(Execute(e, ref, depth, trace).1) == Calls(trace) + GeometricSum(b, Levels(e, depth))
  {
    RelentlessUsesBudget(e, b, ref, depth, trace);
    BudgetIsGeometric(b, Levels(e, depth));
  }

  /** An agent that always fails, and a single plan of `b` steps: each step has that very plan as its
      sub-plan, or carries none and the creator keeps coming back with that plan.  */
  function SelfReferring(b: nat, carried: bool, maxDepth: int): Executor {
    var plan := ThinkingPlan("", seq(b, _ => PlanStep("", "", if carried then Some(0) else None)));
    Executor(_ => plan, Some((_, _) => Failed("")), Some((_, _, _) => if carried then None else Some(0)), maxDepth)
  }

  /** A single plan that is its own sub-plan uses all of the bound, carried by its steps or made anew. */
  lemma CyclicPlanMeetsTheBound(b: nat, carried: bool, maxDepth: int, depth: int)
    ensures var e := SelfReferring(b, carried, maxDepth);
            && (forall k :: 0 <= k < b ==> e.heap(0).steps[k].subPlan == if carried then Some(0) else None)
            && Calls(Execute(e, 0, depth, []).1) == GeometricSum(b, Levels(e, depth))
  {
    RelentlessPlansMeetTheBound(SelfReferring(b, carried, maxDepth), b, 0, depth, []);
  }

  lemma {:induction false} RelentlessUsesBudget(e: Executor, b: nat, ref: PlanRef, depth: int, trace: seq<Event>)
    requires Relentless(e, b)
    ensures Calls(Execute(e, ref, depth, trace).1) == Calls(trace) + Budget(b, b, Levels(e, depth))
    decreases Levels(e, depth), 2
  {
    if depth <= e.maxDepth {
      RelentlessSteps(e, b, e.heap(ref).steps, depth, Progress([], true, trace));
    }
  }

  lemma {:induction false} RelentlessSteps(e: Executor, b: nat, steps: seq<PlanStep>, depth: int, p: Progress)
    requires Relentless(e, b) && depth <= e.maxDepth
    requires forall k :: 0 <= k < |steps| ==> steps[k].subPlan.Some? || AlwaysPlans(e)
    ensures Calls(RunSteps(e, steps, depth, p).trace) == Calls(p.trace) + Budget(b, |steps|, Levels(e, depth))
    decreases Levels(e, depth), 1, |steps|
  {
    if steps != [] {
      var last := |steps| - 1;
      RelentlessSteps(e, b, steps[..last], depth, p);
      RelentlessStep(e, b, steps[last], depth, RunSteps(e, steps[..last], depth, p));
    }
  }

  lemma ActionReplans(e: Executor, b: nat, step: PlanStep, depth: int, p: Progress)
    requires Relentless(e, b) && (step.subPlan.Some? || AlwaysPlans(e))
    ensures RunAction(e, step, depth, p).1.Some? <==> depth < e.maxDepth
  {
  }

  lemma {:induction false} RelentlessStep(e: Executor, b: nat, step: PlanStep, depth: int, p: Progress)
    requires Relentless(e, b) && depth <= e.maxDepth && (step.subPlan.Some? || AlwaysPlans(e))
    ensures Calls(RunStep(e, step, depth, p).trace) == Calls(p.trace) + 1 + Budget(b, b, Levels(e, depth) - 1)
    decreases Levels(e, depth), 0
  {
    hide Execute, RunAction;
    var (p', sub) := RunAction(e, step, depth, p);
    ActionCallsOnce(e, step, depth, p);
    ActionReplans(e, b, step, depth, p);
    if depth < e.maxDepth {
      RelentlessUsesBudget(e, b, sub.value, depth + 1, p'.trace);
      assert Levels(e, depth + 1) == Levels(e, depth) - 1;
      assert RunStep(e, step, depth, p).trace == Execute(e, sub.value, depth + 1, p'.trace).1;
    } else {
      assert RunStep(e, step, depth, p) == p';
    }
  }

  // ---------------------------------------------------------------- results

  /** The results of a plan's own steps: sub-plans report one level deeper. */
  function OwnSteps(results: seq<Result>, depth: int): seq<Result> {
    if results == [] then []
    else
      var r := results[|results| - 1];
      OwnSteps(results[..|results| - 1], depth) + if r.depth == depth then [r] else []
  }

  lemma OwnStepsSnoc(results: seq<Result>, r: Result, depth: int)
    ensures OwnSteps(results + [r], depth) == OwnSteps(results, depth) + if r.depth == depth then [r] else []
  {
    assert (results + [r])[..|results|] == results;
  }

  ghost predicate Summarises(steps: seq<PlanStep>, own: seq<Result>, allSuccess: bool) {
    && |own| == |steps|
    && (forall k :: 0 <= k < |steps| ==> own[k].stepId == steps[k].id)
    && (allSuccess <==> forall k :: 0 <= k < |own| ==> own[k].success)
  }

  /** Every step of the plan is executed exactly once and in order, and the plan succeeds exactly
      when all of its own steps do: how sub-plans fare makes no difference.  */
  lemma SuccessIsAboutOwnSteps(e: Executor, ref: PlanRef, depth: int, trace: seq<Event>)
    requires depth <= e.maxDepth
    ensures var r := Execute(e, ref, depth, trace).0;
            Summarises(e.heap(ref).steps, OwnSteps(r.subResults, depth), r.success)
  {
    StepsAreSummarised(e, e.heap(ref).steps, depth, trace);
  }

  lemma {:induction false} StepsAreSummarised(e: Executor, steps: seq<PlanStep>, depth: int, trace: seq<Event>)
    requires depth <= e.maxDepth
    ensures var p := RunSteps(e, steps, depth, Progress([], true, trace));
            Summarises(steps, OwnSteps(p.results, depth), p.allSuccess)
    decreases |steps|
  {
    hide RunStep;
    if steps != [] {
      var last := |steps| - 1;
      StepsAreSummarised(e, steps[..last], depth, trace);
      var p := RunSteps(e, steps[..last], depth, Progress([], true, trace));
      SummaryStep(e, steps[..last], steps[last], depth, p);
      assert steps == steps[..last] + [steps[last]];
    }
  }

  lemma SummaryStep(e: Executor, before: seq<PlanStep>, step: PlanStep, depth: int, p: Progress)
    requires depth <= e.maxDepth && Summarises(before, OwnSteps(p.results, depth), p.allSuccess)
    ensures var p' := RunStep(e, step, depth, p);
            Summarises(before + [step], OwnSteps(p'.results, depth), p'.allSuccess)
  {
    ActionAddsOne(e, step, depth, p);
    SubPlanIsDeeper(e, step, depth, p);
    SummaryGrows(before, OwnSteps(p.results, depth), p.allSuccess, step, ExecuteStep(e, step, depth, p.trace).0);
  }

  lemma SummaryGrows(steps: seq<PlanStep>, own: seq<Result>, allSuccess: bool, step: PlanStep, res: Result)
    requires Summarises(steps, own, allSuccess) && res.stepId == step.id
    ensures Summarises(steps + [step], own + [res], allSuccess && res.success)
  {
    assert (own + [res])[|own|] == res;
    assert forall k :: 0 <= k < |own| ==> (own + [res])[k] == own[k];
  }

  lemma ActionAddsOne(e: Executor, step: PlanStep, depth: int, p: Progress)
    ensures var (p', res) := (RunAction(e, step, depth, p).0, ExecuteStep(e, step, depth, p.trace).0);
            && OwnSteps(p'.results, depth) == OwnSteps(p.results, depth) + [res]
            && p'.allSuccess == (p.allSuccess && res.success)
            && res.stepId == step.id
  {
    OwnStepsSnoc(p.results, ExecuteStep(e, step, depth, p.trace).0, depth);
  }

  lemma SubPlanIsDeeper(e: Executor, step: PlanStep, depth: int, p: Progress)
    requires depth <= e.maxDepth
    ensures var (p', p'') := (RunAction(e, step, depth, p).0, RunStep(e, step, depth, p));
            && OwnSteps(p''.results, depth) == OwnSteps(p'.results, depth)
            && p''.allSuccess == p'.allSuccess
  {
    var (p', sub) := RunAction(e, step, depth, p);
    if sub.Some? && depth < e.maxDepth {
      OwnStepsSnoc(p'.results, Execute(e, sub.value, depth + 1, p'.trace).0, depth);
    }
  }

  // ---------------------------------------------------------------- outputs

  function Own(r: Result): seq<Output> {
    if r.output.Some? then [r.output.value] else []
  }

  /** The outputs as `GetAllOutputs` gathers them. */
  function AllOutputs(r: Result): seq<Output>
    decreases r, 1
  {
    Own(r) + Gathered(r.subResults)
  }

  function Gathered(rs: seq<Result>): seq<Output>
    decreases rs, 0
  {
    if rs == [] then [] else AllOutputs(rs[0]) + Gathered(rs[1..])
  }

  /** All nodes, a node before its descendants and siblings from left to right. */
  function Preorder(rs: seq<Result>): seq<Result>
    decreases rs
  {
    if rs == [] then [] else [rs[0]] + Preorder(rs[0].subResults) + Preorder(rs[1..])
  }

  function NonNil(rs: seq<Result>): seq<Output>
    decreases |rs|
  {
    if rs == [] then [] else Own(rs[0]) + NonNil(rs[1..])
  }

  lemma {:induction false} NonNilConcat(a: seq<Result>, b: seq<Result>)
    ensures NonNil(a + b) == NonNil(a) + NonNil(b)
    decreases |a|
  {
    if a == [] {
      assert a + b == b;
    } else {
      calc {
        NonNil(a + b);
        { assert (a + b)[0] == a[0] && (a + b)[1..] == a[1..] + b; }
        Own(a[0]) + NonNil(a[1..] + b);
        { NonNilConcat(a[1..], b); }
        Own(a[0]) + (NonNil(a[1..]) + NonNil(b));
        NonNil(a) + NonNil(b);
      }
    }
  }

  lemma {:induction false} GatheredIsPreorder(rs: seq<Result>)
    ensures Gathered(rs) == NonNil(Preorder(rs))
    decreases rs
  {
    if rs != [] {
      GatheredIsPreorder(rs[0].subResults);
      GatheredIsPreorder(rs[1..]);
      var below, right := Preorder(rs[0].subResults), Preorder(rs[1..]);
      NonNilConcat([rs[0]] + below, right);
      NonNilConcat([rs[0]], below);
      assert NonNil([rs[0]]) == Own(rs[0]);
    }
  }

  /** `GetAllOutputs` is the preorder of the non-nil outputs. */
  lemma OutputsArePreorder(r: Result)
    ensures AllOutputs(r) == NonNil(Preorder([r]))
  {
    GatheredIsPreorder([r]);
    assert Gathered([r]) == AllOutputs(r) + Gathered([]);
  }

  // ---------------------------------------------------------------- the recursion itself

  method ExecutePlan(e: Executor, ref: PlanRef, depth: int, trace: seq<Event>) returns (res: Result, calls: seq<Event>)
    ensures (res, calls) == Execute(e, ref, depth, trace)
    decreases Levels(e, depth)
  {
    if depth > e.maxDepth {
      return Result(false, None, [], depth, "", false, "", DepthReached), trace;
    }
    var plan := e.heap(ref);
    var subResults, allSuccess := [], true;
    calls := trace;
    for k := 0 to |plan.steps|
      invariant Progress(subResults, allSuccess, calls)
                == RunSteps(e, plan.steps[..k], depth, Progress([], true, trace))
    {
      var step := plan.steps[k];
      assert plan.steps[..k + 1][..k] == plan.steps[..k];
      var (stepRes, after) := ExecuteStep(e, step, depth, calls);
      calls := after;
      subResults := subResults + [stepRes];
      if !stepRes.success {
        allSuccess := false;
      }
      if stepRes.needsReplan && depth < e.maxDepth && e.creator.Some? {
        if step.subPlan.None? {
          var made := e.creator.value(calls, step.action, stepRes.replanReason);
          calls := calls + [Asked(step.action, stepRes.replanReason)];
          if made.Some? {
            var subRes;
            subRes, calls := ExecutePlan(e, made.value, depth + 1, calls);
            subResults := subResults + [subRes];
          }
        } else {
          var subRes;
          subRes, calls := ExecutePlan(e, step.subPlan.value, depth + 1, calls);
          subResults := subResults + [subRes];
        }
      }
    }
    assert plan.steps[..|plan.steps|] == plan.steps;
    res := Result(allSuccess, Some(Goal(plan.goal)), subResults, depth, "", false, "", NoError);
  }

  method GetAllOutputs(r: Result) returns (outs: seq<Output>)
    ensures outs == AllOutputs(r)
    decreases r
  {
    outs := Own(r);
    for k := 0 to |r.subResults|
      invariant outs + Gathered(r.subResults[k..]) == AllOutputs(r)
    {
      var more := GetAllOutputs(r.subResults[k]);
      assert r.subResults[k..][1..] == r.subResults[k + 1..];
      outs := outs + more;
    }
  }
}
