/** The step loop of an intelligent round: which steps of a plan run, and what they leave behind. */
module PlanRounds {
  import opened Option

  datatype Step = Step(agents: seq<string>, sequential: bool, dependsOn: seq<string>)

  datatype Plan = Plan(steps: seq<Step>, skipAgents: seq<string>)

  type Results = map<string, string>

  /** The text, if any, that executing the agent at a position of a step's agent list delivers when
      it is handed the given dependency results.  */
  type Executor = (nat, nat, Results) -> Option<string>

  function Survivors(plan: Plan, agents: seq<string>): (kept: seq<string>)
    ensures forall n :: n in kept <==> n in agents && n !in plan.skipAgents
  {
    if agents == [] then []
    else
      Survivors(plan, agents[..|agents| - 1]) +
      if agents[|agents| - 1] in plan.skipAgents then [] else [agents[|agents| - 1]]
  }

  function Agents(plan: Plan, i: nat): seq<string>
    requires i < |plan.steps|
  {
    Survivors(plan, plan.steps[i].agents)
  }

  predicate DepsMet(step: Step, results: Results) {
    forall d :: d in step.dependsOn ==> d in results
  }

  predicate Runs(plan: Plan, i: nat, results: Results)
    requires i < |plan.steps|
  {
    DepsMet(plan.steps[i], results) && Agents(plan, i) != []
  }

  /** What a step hands to each of its agents: fixed before any of them starts. */
  function Inputs(step: Step, results: Results): Results {
    map d | d in step.dependsOn && d in results :: results[d]
  }

  function Outcomes(plan: Plan, exec: Executor, i: nat, results: Results): (outs: seq<Option<string>>)
    requires i < |plan.steps|
    ensures |outs| == |Agents(plan, i)|
  {
    seq(|Agents(plan, i)|, p requires 0 <= p < |Agents(plan, i)| => exec(i, p, Inputs(plan.steps[i], results)))
  }

  predicate Delivers(names: seq<string>, outs: seq<Option<string>>, n: string)
    requires |names| == |outs|
  {
    exists p :: 0 <= p < |names| && names[p] == n && outs[p].Some?
  }

  /** The outcomes written one after the other. */
  function WriteAll(names: seq<string>, outs: seq<Option<string>>, results: Results): Results
    requires |names| == |outs|
  {
    if names == [] then results
    else
      var last := |names| - 1;
      var results' := WriteAll(names[..last], outs[..last], results);
      if outs[last].Some? then results'[names[last] := outs[last].value] else results'
  }

  /** The outcomes written in some order: a name that several positions share gets one of theirs. */
  ghost predicate Merged(names: seq<string>, outs: seq<Option<string>>, results: Results, results': Results)
    requires |names| == |outs|
  {
    && (forall n :: n in results' <==> n in results || Delivers(names, outs, n))
    && (forall n :: n in results' && !Delivers(names, outs, n) ==> results'[n] == results[n])
    && (forall n :: n in results' && Delivers(names, outs, n) ==> WrittenBy(names, outs, n, results'[n]))
  }

  predicate WrittenBy(names: seq<string>, outs: seq<Option<string>>, n: string, text: string)
    requires |names| == |outs|
  {
    exists p :: 0 <= p < |names| && names[p] == n && outs[p] == Some(text)
  }

  /** What step `i` does to the results. */
  ghost predicate StepResult(plan: Plan, exec: Executor, i: nat, results: Results, results': Results)
    requires i < |plan.steps|
  {
    if !Runs(plan, i, results) then results' == results
    else
      var outs := Outcomes(plan, exec, i, results);
      if plan.steps[i].sequential then results' == WriteAll(Agents(plan, i), outs, results)
      else Merged(Agents(plan, i), outs, results, results')
  }

  /** `hist[i]` holds the results as step `i` finds them; the last entry those of the whole round. */
  ghost predicate Round(plan: Plan, exec: Executor, hist: seq<Results>) {
    && |hist| == |plan.steps| + 1 && hist[0] == map[]
    && forall i :: 0 <= i < |plan.steps| ==> StepResult(plan, exec, i, hist[i], hist[i + 1])
  }

  // ---------------------------------------------------------------- the order of writes

  lemma DeliversSnoc(names: seq<string>, outs: seq<Option<string>>, n: string)
    requires |names| == |outs| && names != []
    ensures var last := |names| - 1;
            Delivers(names, outs, n) <==>
            Delivers(names[..last], outs[..last], n) || (names[last] == n && outs[last].Some?)
  {
    var last := |names| - 1;
    if p :| 0 <= p < last && names[p] == n && outs[p].Some? {
      assert names[..last][p] == n && outs[..last][p].Some?;
    }
  }

  /** Writing in list order is one of the orders. */
  lemma {:induction false} WriteAllMerges(names: seq<string>, outs: seq<Option<string>>, results: Results)
    requires |names| == |outs|
    ensures Merged(names, outs, results, WriteAll(names, outs, results))
  {
    var results' := WriteAll(names, outs, results);
    if names != [] {
      var last := |names| - 1;
      WriteAllMerges(names[..last], outs[..last], results);
      forall n ensures n in results' <==> n in results || Delivers(names, outs, n) {
        DeliversSnoc(names, outs, n);
      }
      forall n | n in results' && !Delivers(names, outs, n) ensures results'[n] == results[n] {
        DeliversSnoc(names, outs, n);
      }
      forall n | n in results' && Delivers(names, outs, n) ensures WrittenBy(names, outs, n, results'[n]) {
        DeliversSnoc(names, outs, n);
        if !(names[last] == n && outs[last].Some?) {
          assert WrittenBy(names[..last], outs[..last], n, results'[n]);
          var p :| 0 <= p < last && names[..last][p] == n && outs[..last][p] == Some(results'[n]);
          assert names[p] == n && outs[p] == Some(results'[n]);
        }
      }
    }
  }

  /** For distinct agents the order does not matter: a parallel step equals the sequential one. */
  lemma MergeIsUnique(names: seq<string>, outs: seq<Option<string>>, results: Results, results': Results)
    requires |names| == |outs| && (forall i, j :: 0 <= i < j < |names| ==> names[i] != names[j])
    requires Merged(names, outs, results, results')
    ensures results' == WriteAll(names, outs, results)
  {
    var all := WriteAll(names, outs, results);
    WriteAllMerges(names, outs, results);
    forall n | n in all ensures results'[n] == all[n] {
      if Delivers(names, outs, n) {
        assert WrittenBy(names, outs, n, results'[n]) && WrittenBy(names, outs, n, all[n]);
      }
    }
    assert results'.Keys == all.Keys;
  }

  // ---------------------------------------------------------------- which steps run

  /** Step `j` is in the position to give `n` a result. */
  predicate Gives(plan: Plan, exec: Executor, hist: seq<Results>, j: nat, n: string)
    requires j < |plan.steps| && |hist| == |plan.steps| + 1
  {
    Delivers(Agents(plan, j), Outcomes(plan, exec, j, hist[j]), n)
  }

  /** The meaning of `depends_on` in a round: a step is supported if an agent survives the skip filter
      and each dependency is given its result by an earlier supported step.  */
  predicate Supported(plan: Plan, exec: Executor, hist: seq<Results>, i: nat)
    requires i < |plan.steps| && |hist| == |plan.steps| + 1
    decreases i
  {
    && Agents(plan, i) != []
    && forall d :: d in plan.steps[i].dependsOn ==>
                     exists j: nat :: j < i && Supported(plan, exec, hist, j) && Gives(plan, exec, hist, j, d)
  }

  lemma StepKeys(plan: Plan, exec: Executor, hist: seq<Results>, i: nat, n: string)
    requires Round(plan, exec, hist) && i < |plan.steps|
    ensures n in hist[i + 1] <==> n in hist[i] || (Runs(plan, i, hist[i]) && Gives(plan, exec, hist, i, n))
  {
    assert StepResult(plan, exec, i, hist[i], hist[i + 1]);
    if Runs(plan, i, hist[i]) {
      WriteAllMerges(Agents(plan, i), Outcomes(plan, exec, i, hist[i]), hist[i]);
    }
  }

  /** An agent has a result exactly when an earlier step that ran gave it one. */
  lemma {:induction false} ResultsComeFromRuns(plan: Plan, exec: Executor, hist: seq<Results>, i: nat, n: string)
    requires Round(plan, exec, hist) && i <= |plan.steps|
    ensures n in hist[i] <==> exists j: nat :: j < i && Runs(plan, j, hist[j]) && Gives(plan, exec, hist, j, n)
  {
    if i > 0 {
      ResultsComeFromRuns(plan, exec, hist, i - 1, n);
      StepKeys(plan, exec, hist, i - 1, n);
    }
  }

  /** The step loop runs exactly the supported steps, however the writes of parallel steps fall. */
  lemma {:induction false} LoopRunsSupportedSteps(plan: Plan, exec: Executor, hist: seq<Results>, i: nat)
    requires Round(plan, exec, hist) && i < |plan.steps|
    ensures Runs(plan, i, hist[i]) <==> Supported(plan, exec, hist, i)
    decreases i
  {
    forall j: nat | j < i ensures Runs(plan, j, hist[j]) <==> Supported(plan, exec, hist, j) {
      LoopRunsSupportedSteps(plan, exec, hist, j);
    }
    forall d | d in plan.steps[i].dependsOn
      ensures d in hist[i] <==>
              exists j: nat :: j < i && Supported(plan, exec, hist, j) && Gives(plan, exec, hist, j, d)
    {
      ResultsComeFromRuns(plan, exec, hist, i, d);
    }
  }

  // ---------------------------------------------------------------- the meaning of a plan

  /** The text a name is left with by outcomes written one after the other. */
  function LastText(names: seq<string>, outs: seq<Option<string>>, n: string): Option<string>
    requires |names| == |outs|
  {
    if names == [] then None
    else
      var last := |names| - 1;
      if names[last] == n && outs[last].Some? then outs[last] else LastText(names[..last], outs[..last], n)
  }

  /** The text an agent has to offer to step `i`, asked of the plan alone: that of the latest earlier
      live step to give it one.  */
  function Value(plan: Plan, exec: Executor, i: nat, n: string): Option<string>
    requires i <= |plan.steps|
    decreases i, 0
  {
    if i == 0 then None
    else
      var own := if Live(plan, exec, i - 1)
                 then LastText(Agents(plan, i - 1), Outcomes(plan, exec, i - 1, Given(plan, exec, i - 1)), n) else None;
      if own.Some? then own else Value(plan, exec, i - 1, n)
  }

  /** A step is live if an agent survives the skip filter and each dependency has a text to offer. */
  predicate Live(plan: Plan, exec: Executor, i: nat)
    requires i < |plan.steps|
    decreases i, 1
  {
    Agents(plan, i) != [] && forall d :: d in plan.steps[i].dependsOn ==> Value(plan, exec, i, d).Some?
  }

  function Given(plan: Plan, exec: Executor, i: nat): Results
    requires i < |plan.steps|
    decreases i, 1
  {
    map d | d in plan.steps[i].dependsOn && Value(plan, exec, i, d).Some? :: Value(plan, exec, i, d).value
  }

  /** No agent occurs twice among those that survive in a parallel step. */
  ghost predicate DistinctInParallel(plan: Plan) {
    forall i, p, q :: 0 <= i < |plan.steps| && !plan.steps[i].sequential && 0 <= p < q < |Agents(plan, i)| ==>
                        Agents(plan, i)[p] != Agents(plan, i)[q]
  }

  lemma {:induction false} WriteAllLook(names: seq<string>, outs: seq<Option<string>>, results: Results, n: string)
    requires |names| == |outs|
    ensures Look(WriteAll(names, outs, results), n) ==
            if LastText(names, outs, n).Some? then LastText(names, outs, n) else Look(results, n)
  {
    if names != [] {
      WriteAllLook(names[..|names| - 1], outs[..|names| - 1], results, n);
    }
  }

  lemma StepWritesAll(plan: Plan, exec: Executor, hist: seq<Results>, i: nat)
    requires Round(plan, exec, hist) && DistinctInParallel(plan) && i < |plan.steps|
    ensures hist[i + 1] == if Runs(plan, i, hist[i])
                           then WriteAll(Agents(plan, i), Outcomes(plan, exec, i, hist[i]), hist[i]) else hist[i]
  {
    assert StepResult(plan, exec, i, hist[i], hist[i + 1]);
    if Runs(plan, i, hist[i]) && !plan.steps[i].sequential {
      MergeIsUnique(Agents(plan, i), Outcomes(plan, exec, i, hist[i]), hist[i], hist[i + 1]);
    }
  }

  lemma SameInputs(plan: Plan, exec: Executor, results: Results, i: nat)
    requires i < |plan.steps|
    requires forall d :: d in plan.steps[i].dependsOn ==> Look(results, d) == Value(plan, exec, i, d)
    ensures Runs(plan, i, results) <==> Live(plan, exec, i)
    ensures Outcomes(plan, exec, i, results) == Outcomes(plan, exec, i, Given(plan, exec, i))
  {
    var step, given := plan.steps[i], Given(plan, exec, i);
    forall d | d in step.dependsOn
      ensures (d in results <==> d in given) && (d in results ==> results[d] == given[d])
    {
      assert Look(results, d) == Value(plan, exec, i, d);
    }
    assert Inputs(step, results) == Inputs(step, given);
  }

  /** The results of the loop are the values of the plan: whatever the order in which parallel
      agents finish, each step finds what the plan alone determines.  */
  lemma {:induction false} ResultsAreValues(plan: Plan, exec: Executor, hist: seq<Results>, i: nat, n: string)
    requires Round(plan, exec, hist) && DistinctInParallel(plan) && i <= |plan.steps|
    ensures Look(hist[i], n) == Value(plan, exec, i, n)
    decreases i
  {
    if i > 0 {
      var j: nat := i - 1;
      ResultsAreValues(plan, exec, hist, j, n);
      forall d | d in plan.steps[j].dependsOn ensures Look(hist[j], d) == Value(plan, exec, j, d) {
        ResultsAreValues(plan, exec, hist, j, d);
      }
      SameInputs(plan, exec, hist[j], j);
      StepWritesAll(plan, exec, hist, j);
      WriteAllLook(Agents(plan, j), Outcomes(plan, exec, j, hist[j]), hist[j], n);
    }
  }

  /** The step loop runs exactly the live steps. */
  lemma LoopRunsLiveSteps(plan: Plan, exec: Executor, hist: seq<Results>, i: nat)
    requires Round(plan, exec, hist) && DistinctInParallel(plan) && i < |plan.steps|
    ensures Runs(plan, i, hist[i]) <==> Live(plan, exec, i)
  {
    forall d | d in plan.steps[i].dependsOn ensures Look(hist[i], d) == Value(plan, exec, i, d) {
      ResultsAreValues(plan, exec, hist, i, d);
    }
    SameInputs(plan, exec, hist[i], i);
  }

  /** A round has one outcome. */
  lemma RoundsAreDeterministic(plan: Plan, exec: Executor, hist: seq<Results>, hist': seq<Results>)
    requires Round(plan, exec, hist) && Round(plan, exec, hist') && DistinctInParallel(plan)
    ensures hist == hist'
  {
    forall i | 0 <= i <= |plan.steps| ensures hist[i] == hist'[i] {
      forall n ensures Look(hist[i], n) == Look(hist'[i], n) {
        ResultsAreValues(plan, exec, hist, i, n);
        ResultsAreValues(plan, exec, hist', i, n);
      }
      SameLooks(hist[i], hist'[i]);
    }
  }

  // ---------------------------------------------------------------- what agents are handed

  /** A step hands out one text for each dependency: the one in the results as the step finds them. */
  ghost predicate IsHandedOut(step: Step, before: Results, inputs: Results) {
    && (forall d :: d in inputs <==> d in step.dependsOn)
    && forall d :: d in inputs ==> d in before && inputs[d] == before[d]
  }

  /** No other run of the same agent can write over the reply at position `p`: in a parallel step none
      at all, in a sequential one none that comes later.  */
  ghost predicate Unrivalled(plan: Plan, exec: Executor, i: nat, p: nat, inputs: Results)
    requires i < |plan.steps| && p < |Agents(plan, i)|
  {
    forall q: nat :: q < |Agents(plan, i)| && Agents(plan, i)[q] == Agents(plan, i)[p] ==>
                       exec(i, q, inputs).None? || q == p || (plan.steps[i].sequential && q < p)
  }

  ghost predicate Silent(plan: Plan, exec: Executor, i: nat, n: string, inputs: Results)
    requires i < |plan.steps|
  {
    forall p: nat :: p < |Agents(plan, i)| && Agents(plan, i)[p] == n ==> exec(i, p, inputs).None?
  }

  /** Agents reply to what the step hands out: each reply that no other run of its agent rivals is the
      agent's result, and who has none to give keeps the result it had, if any.  */
  ghost predicate AnswersInputs(plan: Plan, exec: Executor, i: nat, before: Results, after: Results)
    requires i < |plan.steps|
  {
    forall inputs :: IsHandedOut(plan.steps[i], before, inputs) ==>
      && (forall p: nat :: p < |Agents(plan, i)| && exec(i, p, inputs).Some? && Unrivalled(plan, exec, i, p, inputs) ==>
                             Look(after, Agents(plan, i)[p]) == exec(i, p, inputs))
      && (forall n :: Silent(plan, exec, i, n, inputs) ==> Look(after, n) == Look(before, n))
  }

  lemma {:induction false} LastTextIs(names: seq<string>, outs: seq<Option<string>>, p: nat)
    requires p < |names| == |outs| && outs[p].Some?
    requires forall q :: p < q < |names| && names[q] == names[p] ==> outs[q].None?
    ensures LastText(names, outs, names[p]) == outs[p]
  {
    if p < |names| - 1 {
      LastTextIs(names[..|names| - 1], outs[..|names| - 1], p);
    }
  }

  lemma SoleReply(names: seq<string>, outs: seq<Option<string>>, before: Results, after: Results, p: nat)
    requires |names| == |outs| && Merged(names, outs, before, after) && p < |names| && outs[p].Some?
    requires forall q :: 0 <= q < |names| && names[q] == names[p] && q != p ==> outs[q].None?
    ensures Look(after, names[p]) == outs[p]
  {
    assert Delivers(names, outs, names[p]);
    assert WrittenBy(names, outs, names[p], after[names[p]]);
  }

  lemma LastReply(names: seq<string>, outs: seq<Option<string>>, before: Results, p: nat)
    requires p < |names| == |outs| && outs[p].Some?
    requires forall q :: p < q < |names| && names[q] == names[p] ==> outs[q].None?
    ensures Look(WriteAll(names, outs, before), names[p]) == outs[p]
  {
    LastTextIs(names, outs, p);
    WriteAllLook(names, outs, before, names[p]);
  }

  lemma NoReply(names: seq<string>, outs: seq<Option<string>>, before: Results, after: Results, n: string)
    requires |names| == |outs| && Merged(names, outs, before, after)
    requires forall q :: 0 <= q < |names| && names[q] == n ==> outs[q].None?
    ensures Look(after, n) == Look(before, n)
  {
    assert !Delivers(names, outs, n);
  }

  lemma StepAnswersInputs(plan: Plan, exec: Executor, i: nat, before: Results, after: Results)
    requires i < |plan.steps| && Runs(plan, i, before) && StepResult(plan, exec, i, before, after)
    ensures AnswersInputs(plan, exec, i, before, after)
  {
    hide Merged, WriteAll;
    var names, outs := Agents(plan, i), Outcomes(plan, exec, i, before);
    WriteAllMerges(names, outs, before);
    forall inputs | IsHandedOut(plan.steps[i], before, inputs)
      ensures forall p: nat :: p < |names| && exec(i, p, inputs).Some? && Unrivalled(plan, exec, i, p, inputs) ==>
                                 Look(after, names[p]) == exec(i, p, inputs)
      ensures forall n :: Silent(plan, exec, i, n, inputs) ==> Look(after, n) == Look(before, n)
    {
      assert inputs == Inputs(plan.steps[i], before);
      assert forall p :: 0 <= p < |names| ==> outs[p] == exec(i, p, inputs);
      forall p: nat | p < |names| && exec(i, p, inputs).Some? && Unrivalled(plan, exec, i, p, inputs)
        ensures Look(after, names[p]) == exec(i, p, inputs)
      {
        if plan.steps[i].sequential {
          LastReply(names, outs, before, p);
        } else {
          SoleReply(names, outs, before, after, p);
        }
      }
      forall n | Silent(plan, exec, i, n, inputs) ensures Look(after, n) == Look(before, n) {
        NoReply(names, outs, before, after, n);
      }
    }
  }

  /** In any round, agents of a step that are distinct get their dependencies' texts, and their replies
      are their results.  */
  lemma AgentsAnswerTheirInputs(plan: Plan, exec: Executor, hist: seq<Results>, i: nat, p: nat, inputs: Results)
    requires Round(plan, exec, hist) && i < |plan.steps| && Runs(plan, i, hist[i]) && p < |Agents(plan, i)|
    requires forall q, q' :: 0 <= q < q' < |Agents(plan, i)| ==> Agents(plan, i)[q] != Agents(plan, i)[q']
    requires forall d :: d in inputs <==> d in plan.steps[i].dependsOn
    requires forall d :: d in inputs ==> d in hist[i] && inputs[d] == hist[i][d]
    ensures var n := Agents(plan, i)[p];
            match exec(i, p, inputs)
            case Some(text) => n in hist[i + 1] && hist[i + 1][n] == text
            case None => Look(hist[i + 1], n) == Look(hist[i], n)
  {
    StepAnswersInputs(plan, exec, i, hist[i], hist[i + 1]);
    var n := Agents(plan, i)[p];
    assert forall q :: 0 <= q < |Agents(plan, i)| && Agents(plan, i)[q] == n ==> q == p;
    assert IsHandedOut(plan.steps[i], hist[i], inputs);
    assert exec(i, p, inputs).Some? ==> Unrivalled(plan, exec, i, p, inputs);
    assert exec(i, p, inputs).None? ==> Silent(plan, exec, i, n, inputs);
  }

  // ---------------------------------------------------------------- skipped and suppressed agents

  /** `at` lists the places of the kept names, from the first to the last. */
  ghost predicate PlacesOf(plan: Plan, names: seq<string>, kept: seq<string>, at: seq<nat>) {
    && |at| == |kept| && (forall k :: 0 <= k < |at| ==> at[k] < |names| && names[at[k]] == kept[k])
    && (forall k, l :: 0 <= k < l < |at| ==> at[k] < at[l])
    && forall i: nat :: i < |names| && names[i] !in plan.skipAgents ==> i in at
  }

  lemma OneMorePlace(plan: Plan, names: seq<string>, kept: seq<string>, at: seq<nat>, n: string)
    requires PlacesOf(plan, names, kept, at)
    ensures n in plan.skipAgents ==> PlacesOf(plan, names + [n], kept, at)
    ensures n !in plan.skipAgents ==> PlacesOf(plan, names + [n], kept + [n], at + [|names|])
  {
  }

  /** The survivors of a step keep their order: none of them is lost or moved. */
  lemma {:induction false} SurvivorsKeepOrder(plan: Plan, names: seq<string>) returns (at: seq<nat>)
    ensures PlacesOf(plan, names, Survivors(plan, names), at)
  {
    hide PlacesOf;
    at := NoPlaces(plan);
    if names != [] {
      var last := |names| - 1;
      at := SurvivorsKeepOrder(plan, names[..last]);
      OneMorePlace(plan, names[..last], Survivors(plan, names[..last]), at, names[last]);
      assert names == names[..last] + [names[last]];
      if names[last] in plan.skipAgents {
        assert Survivors(plan, names) == Survivors(plan, names[..last]);
      } else {
        at := at + [last];
      }
    }
  }

  lemma NoPlaces(plan: Plan) returns (at: seq<nat>)
    ensures PlacesOf(plan, [], [], at)
  {
    at := [];
  }

  /** Results are only ever added. */
  lemma {:induction false} ResultsGrow(plan: Plan, exec: Executor, hist: seq<Results>, i: nat, j: nat)
    requires Round(plan, exec, hist) && i <= j <= |plan.steps|
    ensures hist[i].Keys <= hist[j].Keys
  {
    hide Runs, Gives, StepResult;
    if i < j {
      ResultsGrow(plan, exec, hist, i, j - 1);
      forall n | n in hist[j - 1] ensures n in hist[j] {
        StepKeys(plan, exec, hist, j - 1, n);
      }
    }
  }

  /** Skipped agents never get a result, at any point of any round. */
  lemma SkippedHaveNoResult(plan: Plan, exec: Executor, hist: seq<Results>, i: nat, n: string)
    requires Round(plan, exec, hist) && i <= |plan.steps| && n in plan.skipAgents
    ensures n !in hist[i]
  {
    ResultsComeFromRuns(plan, exec, hist, i, n);
    forall j: nat | j < i ensures !Gives(plan, exec, hist, j, n) {
      assert n !in Agents(plan, j);
    }
  }

  /** Each occurrence of each of these agents is skipped, fails, or sits in a step that depends on
      another of them.  */
  ghost predicate Suppressed(plan: Plan, exec: Executor, hist: seq<Results>, names: iset<string>)
    requires |hist| == |plan.steps| + 1
  {
    forall n, j: nat :: n in names && j < |plan.steps| ==>
                          !Gives(plan, exec, hist, j, n) || exists d :: d in plan.steps[j].dependsOn && d in names
  }

  /** Transitive dependents of skipped or failed agents, and agents whose dependencies wait for one
      another in a circle, never get a result.  */
  lemma {:induction false} SuppressedHaveNoResult(plan: Plan, exec: Executor, hist: seq<Results>, i: nat,
                                                  names: iset<string>)
    requires Round(plan, exec, hist) && i <= |plan.steps| && Suppressed(plan, exec, hist, names)
    ensures forall n :: n in names ==> n !in hist[i]
  {
    if i > 0 {
      SuppressedHaveNoResult(plan, exec, hist, i - 1, names);
      forall n | n in names ensures n !in hist[i] {
        StepKeys(plan, exec, hist, i - 1, n);
      }
    }
  }

  /** Every dependency of every step that has an agent left is an agent left in an earlier step. */
  ghost predicate Ordered(plan: Plan) {
    forall i: nat, d :: i < |plan.steps| && Agents(plan, i) != [] && d in plan.steps[i].dependsOn ==>
                          exists j: nat :: j < i && d in Agents(plan, j)
  }

  ghost predicate AllSucceed(plan: Plan, exec: Executor, hist: seq<Results>)
    requires |hist| == |plan.steps| + 1
  {
    forall i: nat, n :: i < |plan.steps| && n in Agents(plan, i) ==> Gives(plan, exec, hist, i, n)
  }

  /** When all agents succeed, every step that has an agent left runs exactly if the plan is ordered. */
  lemma EveryStepRunsIffOrdered(plan: Plan, exec: Executor, hist: seq<Results>)
    requires Round(plan, exec, hist) && AllSucceed(plan, exec, hist)
    ensures (forall i: nat :: i < |plan.steps| && Agents(plan, i) != [] ==> Runs(plan, i, hist[i])) <==> Ordered(plan)
  {
    if Ordered(plan) {
      forall i: nat | i < |plan.steps| && Agents(plan, i) != [] ensures Runs(plan, i, hist[i]) {
        OrderedStepRuns(plan, exec, hist, i);
      }
    } else {
      var i: nat, d :| i < |plan.steps| && Agents(plan, i) != [] && d in plan.steps[i].dependsOn &&
                       !exists j: nat :: j < i && d in Agents(plan, j);
      ResultsComeFromRuns(plan, exec, hist, i, d);
      forall j: nat | j < i ensures !Gives(plan, exec, hist, j, d) {
        assert d !in Agents(plan, j);
      }
    }
  }

  lemma {:induction false} OrderedStepRuns(plan: Plan, exec: Executor, hist: seq<Results>, i: nat)
    requires Round(plan, exec, hist) && AllSucceed(plan, exec, hist) && Ordered(plan)
    requires i < |plan.steps| && Agents(plan, i) != []
    ensures Runs(plan, i, hist[i])
    decreases i
  {
    forall d | d in plan.steps[i].dependsOn ensures d in hist[i] {
      var j: nat :| j < i && d in Agents(plan, j);
      OrderedStepRuns(plan, exec, hist, j);
      ResultsComeFromRuns(plan, exec, hist, i, d);
    }
  }

  // ---------------------------------------------------------------- the loop

  ghost predicate AllAnswer(plan: Plan, exec: Executor, hist: seq<Results>)
    requires |hist| == |plan.steps| + 1
  {
    forall i :: 0 <= i < |plan.steps| && Runs(plan, i, hist[i]) ==> AnswersInputs(plan, exec, i, hist[i], hist[i + 1])
  }

  /** The step loop of a round.  The goroutines of a parallel step write in any order. */
  method RunSteps(plan: Plan, exec: Executor) returns (results: Results)
    ensures exists hist :: Round(plan, exec, hist) && results == hist[|plan.steps|] && AllAnswer(plan, exec, hist)
  {
    hide AnswersInputs, StepResult, Runs;
    results := map[];
    ghost var hist := [results];
    for i := 0 to |plan.steps|
      invariant |hist| == i + 1 && hist[0] == map[] && results == hist[i]
      invariant forall j :: 0 <= j < i ==> StepResult(plan, exec, j, hist[j], hist[j + 1])
      invariant forall j :: 0 <= j < i && Runs(plan, j, hist[j]) ==> AnswersInputs(plan, exec, j, hist[j], hist[j + 1])
    {
      results := RunStep(plan, exec, i, results);
      hist := hist + [results];
    }
    assert Round(plan, exec, hist);
  }

  method RunStep(plan: Plan, exec: Executor, i: nat, before: Results) returns (results: Results)
    requires i < |plan.steps|
    ensures StepResult(plan, exec, i, before, results)
    ensures Runs(plan, i, before) ==> AnswersInputs(plan, exec, i, before, results)
  {
    results := before;
    var step := plan.steps[i];
    if |step.agents| == 0 {
      return;
    }
    var met := CheckDeps(step, before);
    if !met {
      return;
    }
    var agents := FilterSkipped(plan, step.agents);
    if |agents| == 0 {
      return;
    }
    var input := Inputs(step, before);
    if step.sequential {
      results := RunSequentially(plan, exec, i, agents, input, before);
    } else {
      results := RunInAnyOrder(plan, exec, i, agents, input, before);
    }
    StepAnswersInputs(plan, exec, i, before, results);
  }

  method CheckDeps(step: Step, results: Results) returns (met: bool)
    ensures met <==> DepsMet(step, results)
  {
    for d := 0 to |step.dependsOn|
      invariant forall k :: 0 <= k < d ==> step.dependsOn[k] in results
    {
      if step.dependsOn[d] !in results {
        return false;
      }
    }
    return true;
  }

  method FilterSkipped(plan: Plan, names: seq<string>) returns (kept: seq<string>)
    ensures kept == Survivors(plan, names)
  {
    kept := [];
    for a := 0 to |names|
      invariant kept == Survivors(plan, names[..a])
    {
      assert names[..a + 1][..a] == names[..a];
      if names[a] !in plan.skipAgents {
        kept := kept + [names[a]];
      }
    }
    assert names[..|names|] == names;
  }

  method RunSequentially(plan: Plan, exec: Executor, i: nat, agents: seq<string>, input: Results, before: Results)
    returns (results: Results)
    requires i < |plan.steps| && agents == Agents(plan, i) && input == Inputs(plan.steps[i], before)
    ensures results == WriteAll(agents, Outcomes(plan, exec, i, before), before)
  {
    ghost var outs := Outcomes(plan, exec, i, before);
    results := before;
    for p := 0 to |agents|
      invariant results == WriteAll(agents[..p], outs[..p], before)
    {
      assert agents[..p + 1][..p] == agents[..p] && outs[..p + 1][..p] == outs[..p];
      var text := exec(i, p, input);
      if text.Some? {
        results := results[agents[p] := text.value];
      }
    }
    assert agents[..|agents|] == agents && outs[..|agents|] == outs;
  }

  method RunInAnyOrder(plan: Plan, exec: Executor, i: nat, agents: seq<string>, input: Results, before: Results)
    returns (results: Results)
    requires i < |plan.steps| && agents == Agents(plan, i) && input == Inputs(plan.steps[i], before)
    ensures Merged(agents, Outcomes(plan, exec, i, before), before, results)
  {
    ghost var outs := Outcomes(plan, exec, i, before);
    results := before;
    var pending: set<nat> := Positions(|agents|);
    while pending != {}
      invariant forall p :: p in pending ==> p < |agents|
      invariant forall n :: n in results <==> n in before || DoneFor(agents, outs, pending, n)
      invariant forall n :: n in results && !DoneFor(agents, outs, pending, n) ==> results[n] == before[n]
      invariant forall n :: n in results && DoneFor(agents, outs, pending, n) ==> WrittenBy(agents, outs, n, results[n])
      decreases |pending|
    {
      var p: nat :| p in pending;
      var text := exec(i, p, input);
      assert outs[p] == text;
      forall n ensures DoneFor(agents, outs, pending - {p}, n) <==>
                       DoneFor(agents, outs, pending, n) || (agents[p] == n && text.Some?)
      {
        DoneForOne(agents, outs, pending, p, n);
      }
      if text.Some? {
        assert WrittenBy(agents, outs, agents[p], text.value);
        results := results[agents[p] := text.value];
      }
      pending := pending - {p};
    }
    assert forall n :: DoneFor(agents, outs, {}, n) <==> Delivers(agents, outs, n);
  }

  function Positions(n: nat): (ps: set<nat>)
    ensures forall p: nat :: p in ps <==> p < n
  {
    if n == 0 then {} else Positions(n - 1) + {n - 1}
  }

  /** A goroutine for `n` that is no longer pending has delivered. */
  ghost predicate DoneFor(names: seq<string>, outs: seq<Option<string>>, pending: set<nat>, n: string)
    requires |names| == |outs|
  {
    exists p: nat :: p < |names| && p !in pending && names[p] == n && outs[p].Some?
  }

  lemma DoneForOne(names: seq<string>, outs: seq<Option<string>>, pending: set<nat>, p: nat, n: string)
    requires |names| == |outs| && p < |names| && p in pending
    ensures DoneFor(names, outs, pending - {p}, n) <==>
            DoneFor(names, outs, pending, n) || (names[p] == n && outs[p].Some?)
  {
    if DoneFor(names, outs, pending, n) {
      var q: nat :| q < |names| && q !in pending && names[q] == n && outs[q].Some?;
      assert q !in pending - {p};
    }
  }
}
