/** The goroutines of plan steps as an interleaving of atomic moves.

    A goroutine takes a place in its step's semaphore, passes the circuit gate, and for each
    attempt takes a slot of the process-wide agent channel, lists itself as active, runs, unlists
    itself and frees the slot; between attempts it sleeps.  At the end it records the outcome,
    writes its text to the shared results under the step's lock and leaves the semaphore.

    Every step has a semaphore of its own: a job's `group`.  Calls that pass no semaphore (simple
    rounds, HTTP triggers) form a group whose capacity is the number of its jobs.  */
module ParallelSteps {
  import opened Option
  import opened Workers

  datatype Job = Job(name: string, group: nat)

  datatype Setup<!S> = Setup(jobs: seq<Job>, semCap: seq<nat>, slotCap: nat, worker: Worker<S>)

  /** Where a goroutine is.  `failed` is the error an earlier attempt left behind. */
  datatype PC =
    | Start
    | Gate
    | Waiting(k: nat, failed: bool)
    | Slotted(k: nat, failed: bool)
    | Running(k: nat, failed: bool)
    | Ran(k: nat, failed: bool, outcome: Outcome)
    | Unlisted(k: nat, failed: bool, outcome: Outcome)
    | Sleeping(k: nat)
    | Recording(ok: bool, text: Option<string>)
    | Writing(written: string)
    | Leaving(reply: Option<string>)
    | Done(reply: Option<string>)
  {
    predicate HoldsSem() { !Start? && !Done? }
    predicate HoldsSlot() { Slotted? || Running? || Ran? || Unlisted? }
    predicate Listed() { Running? || Ran? }

    predicate Bounded() {
      && (Waiting? || Slotted? || Running? || Ran? || Unlisted? ==> k < MAX_ATTEMPTS)
      && (Sleeping? ==> k < MAX_ATTEMPTS)
    }

    /** The moves a goroutine has left at most. */
    function Rank(): nat
      requires Bounded()
    {
      match this
      case Start => 24
      case Gate => 23
      case Waiting(k, _) => 6 * (MAX_ATTEMPTS - k) + 3
      case Slotted(k, _) => 6 * (MAX_ATTEMPTS - k) + 2
      case Running(k, _) => 6 * (MAX_ATTEMPTS - k) + 1
      case Ran(k, _, _) => 6 * (MAX_ATTEMPTS - k)
      case Unlisted(k, _, _) => 6 * (MAX_ATTEMPTS - k) - 1
      case Sleeping(k) => 6 * (MAX_ATTEMPTS - k) + 4
      case Recording(_, _) => 3
      case Writing(_) => 2
      case Leaving(_) => 1
      case Done(_) => 0
    }
  }

  datatype System<S> = System(pcs: seq<PC>, sems: seq<nat>, slots: nat, active: set<string>,
                              results: map<string, string>, store: map<string, S>)

  /** Goroutine `i` moves on, or notices at a blocking point that its context is done. */
  datatype Move = Move(i: nat, cancelled: bool)

  predicate WellFormed<S>(p: Setup<S>, s: System<S>) {
    && |s.pcs| == |p.jobs| && |s.sems| == |p.semCap|
    && (forall i :: 0 <= i < |p.jobs| ==> p.jobs[i].group < |p.semCap| && p.jobs[i].name in s.store)
    && (forall i :: 0 <= i < |s.pcs| ==> s.pcs[i].Bounded())
  }

  predicate Enabled<S>(p: Setup<S>, s: System<S>, m: Move)
    requires WellFormed(p, s)
  {
    m.i < |s.pcs| &&
    var pc, g := s.pcs[m.i], p.jobs[m.i].group;
    if m.cancelled then pc.Waiting? || pc.Sleeping?
    else
      && !pc.Done?
      && (pc.Start? ==> s.sems[g] < p.semCap[g])
      && (pc.Waiting? ==> s.slots < p.slotCap)
      && (pc.Unlisted? ==> s.slots > 0)
      && (pc.Leaving? ==> s.sems[g] > 0)
  }

  /** Where an attempt's outcome leads. */
  function Onward(k: nat, failed: bool, outcome: Outcome): PC {
    match outcome
    case Reply(text) => Recording(!failed, text)
    case Fatal => Recording(false, None)
    case Retryable => if k + 1 < MAX_ATTEMPTS then Sleeping(k + 1) else Recording(false, None)
  }

  /** A goroutine's next place and its agent's next state, as far as it alone decides them. */
  function Advance<S>(w: Worker<S>, name: string, pc: PC, own: S, cancelled: bool): (next: (PC, S))
    requires pc.Bounded() && !pc.Done?
    ensures next.0.Bounded()
  {
    match pc
    case Start => (Gate, own)
    case Gate =>
      var (open, own') := w.gate(name, own);
      (if open then Leaving(None) else Waiting(0, false), own')
    case Waiting(k, failed) => (if cancelled then Recording(false, None) else Slotted(k, failed), own)
    case Slotted(k, failed) => (Running(k, failed), own)
    case Running(k, failed) =>
      var (outcome, own') := w.attempt(name, k, own);
      (Ran(k, failed, outcome), own')
    case Ran(k, failed, outcome) => (Unlisted(k, failed, outcome), own)
    case Unlisted(k, failed, outcome) => (Onward(k, failed, outcome), own)
    case Sleeping(k) =>
      // cut short in the backoff sleep, the call returns before anything is recorded
      (if cancelled || w.cancelled(name, k, own) then Leaving(None) else Waiting(k, true), own)
    case Recording(ok, text) =>
      (if ok && text.Some? then Writing(text.value) else Leaving(None), w.record(name, ok, own))
    case Writing(text) => (Leaving(Some(text)), own)
    case Leaving(reply) => (Done(reply), own)
  }

  function Step<S>(p: Setup<S>, s: System<S>, m: Move): System<S>
    requires WellFormed(p, s) && Enabled(p, s, m)
  {
    var i, name, g := m.i, p.jobs[m.i].name, p.jobs[m.i].group;
    var (pc, own) := Advance(p.worker, name, s.pcs[i], s.store[name], m.cancelled);
    var s' := s.(pcs := s.pcs[i := pc], store := s.store[name := own]);
    match s.pcs[i]
    case Start => s'.(sems := s.sems[g := s.sems[g] + 1])
    case Waiting(_, _) => if m.cancelled then s' else s'.(slots := s.slots + 1)
    case Slotted(_, _) => s'.(active := s.active + {name})
    case Ran(_, _, _) => s'.(active := s.active - {name})
    case Unlisted(_, _, _) => s'.(slots := s.slots - 1)
    case Writing(text) => s'.(results := s.results[name := text])
    case Leaving(_) => s'.(sems := s.sems[g := s.sems[g] - 1])
    case _ => s'
  }

  // ---------------------------------------------------------------- runs

  predicate Initial<S>(p: Setup<S>, s: System<S>) {
    && WellFormed(p, s)
    && (forall i :: 0 <= i < |s.pcs| ==> s.pcs[i] == Start)
    && (forall g :: 0 <= g < |s.sems| ==> s.sems[g] == 0)
    && s.slots == 0 && s.active == {}
  }

  predicate Final<S>(s: System<S>) {
    forall i :: 0 <= i < |s.pcs| ==> s.pcs[i].Done?
  }

  lemma StepIsWellFormed<S>(p: Setup<S>, s: System<S>, m: Move)
    requires WellFormed(p, s) && Enabled(p, s, m)
    ensures WellFormed(p, Step(p, s, m))
  {
  }

  /** A schedule is any sequence of moves, each enabled when its turn comes. */
  ghost predicate Schedule<S>(p: Setup<S>, s: System<S>, moves: seq<Move>)
    requires WellFormed(p, s)
    decreases |moves|
  {
    moves == [] ||
    (Enabled(p, s, moves[0]) && (StepIsWellFormed(p, s, moves[0]); Schedule(p, Step(p, s, moves[0]), moves[1..])))
  }

  ghost function After<S>(p: Setup<S>, s: System<S>, moves: seq<Move>): (s': System<S>)
    requires WellFormed(p, s) && Schedule(p, s, moves)
    ensures WellFormed(p, s')
    decreases |moves|
  {
    if moves == [] then s
    else
      StepIsWellFormed(p, s, moves[0]);
      After(p, Step(p, s, moves[0]), moves[1..])
  }

  // ---------------------------------------------------------------- safety

  function InSem(pcs: seq<PC>, jobs: seq<Job>, g: nat): set<nat>
    requires |pcs| == |jobs|
  {
    set i: nat | i < |pcs| && jobs[i].group == g && pcs[i].HoldsSem()
  }

  function Holders(pcs: seq<PC>): set<nat> {
    set i: nat | i < |pcs| && pcs[i].HoldsSlot()
  }

  /** The channels count exactly their holders, which never exceed the capacities, and every
      active name is the name of a goroutine that is running inside its slot.  */
  ghost predicate Safe<S>(p: Setup<S>, s: System<S>) {
    && WellFormed(p, s)
    && (forall g: nat :: g < |s.sems| ==> s.sems[g] == |InSem(s.pcs, p.jobs, g)| <= p.semCap[g])
    && s.slots == |Holders(s.pcs)| <= p.slotCap
    && (forall n :: n in s.active ==> exists i :: 0 <= i < |s.pcs| && s.pcs[i].Listed() && p.jobs[i].name == n)
  }

  lemma HoldersUpdate(pcs: seq<PC>, i: nat, pc: PC)
    requires i < |pcs|
    ensures |Holders(pcs[i := pc])|
            == |Holders(pcs)| - (if pcs[i].HoldsSlot() then 1 else 0) + (if pc.HoldsSlot() then 1 else 0)
  {
    var h, h' := Holders(pcs), Holders(pcs[i := pc]);
    assert h - {i} == h' - {i};
    assert h == if pcs[i].HoldsSlot() then (h - {i}) + {i} else h - {i};
    assert h' == if pc.HoldsSlot() then (h' - {i}) + {i} else h' - {i};
  }

  lemma InSemUpdate(pcs: seq<PC>, jobs: seq<Job>, i: nat, pc: PC, g: nat)
    requires |pcs| == |jobs| && i < |pcs|
    ensures |InSem(pcs[i := pc], jobs, g)|
            == |InSem(pcs, jobs, g)| + (if jobs[i].group != g then 0 else
                                        (if pc.HoldsSem() then 1 else 0) - (if pcs[i].HoldsSem() then 1 else 0))
  {
    var h, h' := InSem(pcs, jobs, g), InSem(pcs[i := pc], jobs, g);
    assert h - {i} == h' - {i};
    assert h == if jobs[i].group == g && pcs[i].HoldsSem() then (h - {i}) + {i} else h - {i};
    assert h' == if jobs[i].group == g && pc.HoldsSem() then (h' - {i}) + {i} else h' - {i};
  }

  lemma SlotsStayCounted<S>(p: Setup<S>, s: System<S>, m: Move)
    requires Safe(p, s) && Enabled(p, s, m)
    ensures Step(p, s, m).slots == |Holders(Step(p, s, m).pcs)| <= p.slotCap
  {
    var pc' := Step(p, s, m).pcs[m.i];
    assert Step(p, s, m).pcs == s.pcs[m.i := pc'];
    HoldersUpdate(s.pcs, m.i, pc');
  }

  lemma SemsStayCounted<S>(p: Setup<S>, s: System<S>, m: Move, g: nat)
    requires Safe(p, s) && Enabled(p, s, m) && g < |s.sems|
    ensures |Step(p, s, m).sems| == |s.sems| && |Step(p, s, m).pcs| == |p.jobs|
    ensures Step(p, s, m).sems[g] == |InSem(Step(p, s, m).pcs, p.jobs, g)| <= p.semCap[g]
  {
    var pc' := Step(p, s, m).pcs[m.i];
    assert Step(p, s, m).pcs == s.pcs[m.i := pc'];
    InSemUpdate(s.pcs, p.jobs, m.i, pc', g);
  }

  /** Every move, cancelled or not, keeps the system safe. */
  lemma StepIsSafe<S>(p: Setup<S>, s: System<S>, m: Move)
    requires Safe(p, s) && Enabled(p, s, m)
    ensures Safe(p, Step(p, s, m))
  {
    StepIsWellFormed(p, s, m);
    SlotsStayCounted(p, s, m);
    ActiveStaysBacked(p, s, m);
    forall g: nat | g < |s.sems|
      ensures Step(p, s, m).sems[g] == |InSem(Step(p, s, m).pcs, p.jobs, g)| <= p.semCap[g]
    {
      SemsStayCounted(p, s, m, g);
    }
  }

  lemma ActiveStaysBacked<S>(p: Setup<S>, s: System<S>, m: Move)
    requires Safe(p, s) && Enabled(p, s, m)
    ensures var s' := Step(p, s, m);
            forall n :: n in s'.active ==> exists i :: 0 <= i < |s'.pcs| && s'.pcs[i].Listed() && p.jobs[i].name == n
  {
    var s' := Step(p, s, m);
    forall n | n in s'.active
      ensures exists i :: 0 <= i < |s'.pcs| && s'.pcs[i].Listed() && p.jobs[i].name == n
    {
      if n in s.active {
        var i :| 0 <= i < |s.pcs| && s.pcs[i].Listed() && p.jobs[i].name == n;
        assert s'.pcs[i].Listed();
      } else {
        assert s'.pcs[m.i].Listed() && p.jobs[m.i].name == n;
      }
    }
  }

  /** Safety over every schedule of any number of goroutines. */
  lemma {:induction false} AlwaysSafe<S>(p: Setup<S>, s: System<S>, moves: seq<Move>)
    requires Safe(p, s) && Schedule(p, s, moves)
    ensures Safe(p, After(p, s, moves))
    decreases |moves|
  {
    if moves != [] {
      StepIsSafe(p, s, moves[0]);
      AlwaysSafe(p, Step(p, s, moves[0]), moves[1..]);
    }
  }

  lemma InitiallySafe<S>(p: Setup<S>, s: System<S>)
    requires Initial(p, s)
    ensures Safe(p, s)
  {
    assert Holders(s.pcs) == {};
    forall g: nat | g < |s.sems| ensures InSem(s.pcs, p.jobs, g) == {} {
    }
  }

  // ---------------------------------------------------------------- the active set

  predicate DistinctNames(jobs: seq<Job>) {
    forall i, j :: 0 <= i < j < |jobs| ==> jobs[i].name != jobs[j].name
  }

  /** The names of the goroutines running inside their slots. */
  function ListedNames<S>(p: Setup<S>, s: System<S>): set<string>
    requires |s.pcs| == |p.jobs|
  {
    set i | 0 <= i < |s.pcs| && s.pcs[i].Listed() :: p.jobs[i].name
  }

  /** The active set counts every running goroutine under its name. */
  ghost predicate Exact<S>(p: Setup<S>, s: System<S>) {
    WellFormed(p, s) && s.active == ListedNames(p, s)
  }

  /** Two goroutines of one name that the channels let run at the same time. */
  predicate Clash<S>(p: Setup<S>, i: nat, j: nat)
    requires forall k :: 0 <= k < |p.jobs| ==> p.jobs[k].group < |p.semCap|
  {
    && i < |p.jobs| && j < |p.jobs| && i != j && p.jobs[i].name == p.jobs[j].name
    && p.slotCap >= 2
    && var g, g' := p.jobs[i].group, p.jobs[j].group;
       && p.semCap[g] >= 1 && p.semCap[g'] >= 1
       && (g == g' ==> p.semCap[g] >= 2)
  }

  lemma TwoAreTwo(at: set<nat>, i: nat, j: nat)
    requires i in at && j in at && i != j
    ensures |at| >= 2
  {
    assert |at - {i} - {j}| >= 0;
  }

  /** The channels let two goroutines of one name into their slots only if there is room for both. */
  lemma TwinsClash<S>(p: Setup<S>, s: System<S>, i: nat, j: nat)
    requires Safe(p, s) && i < |s.pcs| && j < |s.pcs| && i != j && p.jobs[i].name == p.jobs[j].name
    requires s.pcs[i].Listed() && s.pcs[j].Listed()
    ensures Clash(p, i, j)
  {
    TwoAreTwo(Holders(s.pcs), i, j);
    var g, g' := p.jobs[i].group, p.jobs[j].group;
    assert i in InSem(s.pcs, p.jobs, g) && j in InSem(s.pcs, p.jobs, g');
    if g == g' {
      TwoAreTwo(InSem(s.pcs, p.jobs, g), i, j);
    }
  }

  lemma StepKeepsExact<S>(p: Setup<S>, s: System<S>, m: Move)
    requires Safe(p, s) && Exact(p, s) && Enabled(p, s, m) && forall i, j :: !Clash(p, i, j)
    ensures Exact(p, Step(p, s, m))
  {
    var s' := Step(p, s, m);
    StepIsWellFormed(p, s, m);
    ActiveStaysBacked(p, s, m);
    forall i: nat | i < |s'.pcs| && s'.pcs[i].Listed() ensures p.jobs[i].name in s'.active {
      if i != m.i {
        assert s.pcs[i].Listed();
        if s.pcs[m.i].Ran? && p.jobs[m.i].name == p.jobs[i].name {
          TwinsClash(p, s, m.i, i);
        }
      }
    }
  }

  /** Without a clash the active set is exact on every schedule, cancelled or not, for any worker. */
  lemma {:induction false} ActiveIsExact<S>(p: Setup<S>, s: System<S>, moves: seq<Move>)
    requires Safe(p, s) && Exact(p, s) && Schedule(p, s, moves) && forall i, j :: !Clash(p, i, j)
    ensures Exact(p, After(p, s, moves))
    decreases |moves|
  {
    if moves != [] {
      StepIsSafe(p, s, moves[0]);
      StepKeepsExact(p, s, moves[0]);
      ActiveIsExact(p, Step(p, s, moves[0]), moves[1..]);
    }
  }

  /** Two runs under one name are undercounted: the first to finish takes the name off the active
      set while the other is still running.  */
  lemma RepeatedNameIsLost<S>(p: Setup<S>, s: System<S>, i: nat, j: nat)
    requires WellFormed(p, s) && i != j && i < |s.pcs| && j < |s.pcs|
    requires p.jobs[i].name == p.jobs[j].name && s.pcs[i].Ran? && s.pcs[j].Listed()
    ensures Enabled(p, s, Move(i, false))
    ensures var s' := Step(p, s, Move(i, false));
            && |s'.pcs| == |p.jobs| && s'.pcs[j].Listed()
            && p.jobs[j].name in ListedNames(p, s') && p.jobs[j].name !in s'.active
  {
  }

  lemma {:induction false} OneMoreMove<S>(p: Setup<S>, s: System<S>, moves: seq<Move>, m: Move)
    requires WellFormed(p, s) && Schedule(p, s, moves) && Enabled(p, After(p, s, moves), m)
    ensures Schedule(p, s, moves + [m]) && After(p, s, moves + [m]) == Step(p, After(p, s, moves), m)
    decreases |moves|
  {
    if moves == [] {
      assert moves + [m] == [m];
      StepIsWellFormed(p, s, m);
    } else {
      assert (moves + [m])[0] == moves[0] && (moves + [m])[1..] == moves[1..] + [m];
      StepIsWellFormed(p, s, moves[0]);
      OneMoreMove(p, Step(p, s, moves[0]), moves[1..], m);
    }
  }

  /** No circuit is ever open. */
  ghost predicate LetsPass<S(!new)>(w: Worker<S>) {
    forall n, own :: !w.gate(n, own).0
  }

  /** What a goroutine that has not started needs to get into its slot. */
  predicate HasRoom<S>(p: Setup<S>, s: System<S>, i: nat) {
    && WellFormed(p, s) && i < |s.pcs| && s.pcs[i].Start?
    && s.sems[p.jobs[i].group] < p.semCap[p.jobs[i].group] && s.slots < p.slotCap
  }

  /** Four moves of one goroutine, from its start to its first attempt. */
  lemma LetRun<S(!new)>(p: Setup<S>, s: System<S>, moves: seq<Move>, i: nat) returns (moves': seq<Move>)
    requires WellFormed(p, s) && Schedule(p, s, moves) && LetsPass(p.worker) && HasRoom(p, After(p, s, moves), i)
    ensures Schedule(p, s, moves')
    ensures var at, at' := After(p, s, moves), After(p, s, moves');
            && at'.pcs == at.pcs[i := Running(0, false)] && at'.slots == at.slots + 1
            && at'.sems == at.sems[p.jobs[i].group := at.sems[p.jobs[i].group] + 1]
  {
    hide Schedule, After;
    var m := Move(i, false);
    OneMoreMove(p, s, moves, m);
    OneMoreMove(p, s, moves + [m], m);
    OneMoreMove(p, s, moves + [m] + [m], m);
    OneMoreMove(p, s, moves + [m] + [m] + [m], m);
    moves' := moves + [m] + [m] + [m] + [m];
  }

  /** The way to a lost name: both get into their slots, and the first to return unlists the name. */
  lemma ClashLosesName<S(!new)>(p: Setup<S>, s: System<S>, i: nat, j: nat) returns (moves: seq<Move>)
    requires Initial(p, s) && LetsPass(p.worker) && Clash(p, i, j)
    ensures Schedule(p, s, moves) && !Exact(p, After(p, s, moves))
  {
    var m := Move(i, false);
    moves := LetRun(p, s, [], i);
    OneMoreMove(p, s, moves, m);
    moves := moves + [m];
    moves := LetRun(p, s, moves, j);
    RepeatedNameIsLost(p, After(p, s, moves), i, j);
    OneMoreMove(p, s, moves, m);
    moves := moves + [m];
  }

  /** While no circuit is open, the active set is exact on every schedule exactly if no two
      goroutines of one name can be in their slots together.  */
  lemma ActiveIsExactIffNoClash<S(!new)>(p: Setup<S>, s: System<S>)
    requires Initial(p, s) && LetsPass(p.worker)
    ensures (forall moves :: Schedule(p, s, moves) ==> Exact(p, After(p, s, moves))) <==> forall i, j :: !Clash(p, i, j)
  {
    InitiallySafe(p, s);
    assert Exact(p, s);
    if i: nat, j: nat :| Clash(p, i, j) {
      var moves := ClashLosesName(p, s, i, j);
    } else {
      forall moves | Schedule(p, s, moves) ensures Exact(p, After(p, s, moves)) {
        ActiveIsExact(p, s, moves);
      }
    }
  }

  lemma {:induction false} ImageIsNoLarger(names: set<string>, at: set<nat>, jobs: seq<Job>)
    requires forall i :: i in at ==> i < |jobs|
    requires forall n :: n in names ==> exists i :: i in at && jobs[i].name == n
    ensures |names| <= |at|
  {
    if n :| n in names {
      var i :| i in at && jobs[i].name == n;
      ImageIsNoLarger(names - {n}, at - {i}, jobs);
    }
  }

  /** `ActiveAgentCount` never exceeds the number of slots taken. */
  lemma ActiveCountIsBounded<S>(p: Setup<S>, s: System<S>)
    requires Safe(p, s)
    ensures |s.active| <= s.slots <= p.slotCap
  {
    ImageIsNoLarger(s.active, Holders(s.pcs), p.jobs);
  }

  // ---------------------------------------------------------------- progress

  predicate Capable<S>(p: Setup<S>) {
    p.slotCap >= 1 && forall g :: 0 <= g < |p.semCap| ==> p.semCap[g] >= 1
  }

  /** With room for at least one in every channel there is no deadlock: until all goroutines are
      done, one of them can move without being cancelled.  */
  lemma Progress<S>(p: Setup<S>, s: System<S>) returns (i: nat)
    requires Safe(p, s) && Capable(p) && !Final(s)
    ensures Enabled(p, s, Move(i, false))
  {
    if j: nat :| j < |s.pcs| && !s.pcs[j].Start? && !s.pcs[j].Waiting? && !s.pcs[j].Done? {
      // past its blocking points: what it holds is counted, so it can be given back
      i := j;
      if s.pcs[j].Unlisted? {
        assert j in Holders(s.pcs);
      }
      if s.pcs[j].Leaving? {
        assert j in InSem(s.pcs, p.jobs, p.jobs[j].group);
      }
    } else if j: nat :| j < |s.pcs| && s.pcs[j].Waiting? {
      i := j;
      assert Holders(s.pcs) == {};
    } else {
      i :| i < |s.pcs| && !s.pcs[i].Done?;
      assert InSem(s.pcs, p.jobs, p.jobs[i].group) == {};
    }
  }

  /** The agent channel needs room for one: once all that is left is waiting for a slot, somebody can
      take it exactly if there is one at all.  The step's own semaphore falls back to five places when
      the configured limit is not positive, but the agent channel does not.  */
  lemma WaitersNeedASlot<S>(p: Setup<S>, s: System<S>, i: nat)
    requires Safe(p, s) && i < |s.pcs| && s.pcs[i].Waiting?
    requires forall j :: 0 <= j < |s.pcs| ==> s.pcs[j].Waiting? || s.pcs[j].Done?
    ensures Enabled(p, s, Move(i, false)) <==> p.slotCap >= 1
  {
    assert Holders(s.pcs) == {};
  }

  /** The moves left to all goroutines together. */
  function Work(pcs: seq<PC>): nat
    requires forall i :: 0 <= i < |pcs| ==> pcs[i].Bounded()
  {
    if pcs == [] then 0 else pcs[0].Rank() + Work(pcs[1..])
  }

  lemma {:induction false} WorkUpdate(pcs: seq<PC>, i: nat, pc: PC)
    requires forall j :: 0 <= j < |pcs| ==> pcs[j].Bounded()
    requires i < |pcs| && pc.Bounded()
    ensures Work(pcs[i := pc]) == Work(pcs) - pcs[i].Rank() + pc.Rank()
  {
    if i > 0 {
      assert pcs[i := pc][1..] == pcs[1..][i - 1 := pc];
      WorkUpdate(pcs[1..], i - 1, pc);
    } else {
      assert pcs[i := pc][1..] == pcs[1..];
    }
  }

  lemma RankDrops<S>(p: Setup<S>, s: System<S>, m: Move)
    requires WellFormed(p, s) && Enabled(p, s, m)
    ensures var s' := Step(p, s, m);
            && s'.pcs == s.pcs[m.i := s'.pcs[m.i]]
            && s'.pcs[m.i].Bounded() && s'.pcs[m.i].Rank() < s.pcs[m.i].Rank()
  {
  }

  lemma StepWorks<S>(p: Setup<S>, s: System<S>, m: Move)
    requires WellFormed(p, s) && Enabled(p, s, m)
    ensures WellFormed(p, Step(p, s, m)) && Work(Step(p, s, m).pcs) < Work(s.pcs)
  {
    StepIsWellFormed(p, s, m);
    RankDrops(p, s, m);
    WorkUpdate(s.pcs, m.i, Step(p, s, m).pcs[m.i]);
  }

  /** No schedule goes on for longer than the work there is. */
  lemma {:induction false} SchedulesEnd<S>(p: Setup<S>, s: System<S>, moves: seq<Move>)
    requires WellFormed(p, s) && Schedule(p, s, moves)
    ensures |moves| + Work(After(p, s, moves).pcs) <= Work(s.pcs)
    decreases |moves|
  {
    if moves != [] {
      StepWorks(p, s, moves[0]);
      SchedulesEnd(p, Step(p, s, moves[0]), moves[1..]);
    }
  }

  /** A schedule that cannot be continued has finished every goroutine. */
  lemma StuckIsFinal<S>(p: Setup<S>, s: System<S>, moves: seq<Move>)
    requires Initial(p, s) && Capable(p) && Schedule(p, s, moves)
    requires forall i :: !Enabled(p, After(p, s, moves), Move(i, false))
    ensures Final(After(p, s, moves))
  {
    InitiallySafe(p, s);
    AlwaysSafe(p, s, moves);
    if !Final(After(p, s, moves)) {
      var i := Progress(p, After(p, s, moves));
    }
  }

  /** From every safe state the goroutines can be run to completion. */
  lemma {:induction false} CanFinish<S>(p: Setup<S>, s: System<S>) returns (moves: seq<Move>)
    requires Safe(p, s) && Capable(p)
    ensures Schedule(p, s, moves) && Final(After(p, s, moves))
    ensures forall m :: m in moves ==> !m.cancelled
    decreases Work(s.pcs)
  {
    if Final(s) {
      moves := [];
    } else {
      var i := Progress(p, s);
      var m := Move(i, false);
      StepIsSafe(p, s, m);
      StepWorks(p, s, m);
      var rest := CanFinish(p, Step(p, s, m));
      moves := [m] + rest;
      assert moves[1..] == rest;
    }
  }

  // ---------------------------------------------------------------- confluence

  /** What is left of a goroutine's call, as the text it will have written and its agent's state. */
  function Rest<S>(w: Worker<S>, name: string, pc: PC, own: S): (Option<string>, S)
    requires pc.Bounded()
  {
    match pc
    case Start => Execute(w, name, own)
    case Gate => Execute(w, name, own)
    case Waiting(k, failed) => Try(w, name, k, failed, own)
    case Slotted(k, failed) => Try(w, name, k, failed, own)
    case Running(k, failed) => Try(w, name, k, failed, own)
    case Ran(k, failed, outcome) => Settle(w, name, k, failed, outcome, own)
    case Unlisted(k, failed, outcome) => Settle(w, name, k, failed, outcome, own)
    case Sleeping(k) => Resume(w, name, k, own)
    case Recording(ok, text) => Record(w, name, ok, text, own)
    case Writing(text) => (Some(text), own)
    case Leaving(reply) => (reply, own)
    case Done(reply) => (reply, own)
  }

  /** Where a context that is done leads: waiting for a slot, the call is recorded as a failure; in a
      backoff sleep, it returns without any record.  Either way it has nothing to reply.  */
  lemma CancelledMoveEndsCall<S>(p: Setup<S>, s: System<S>, m: Move)
    requires WellFormed(p, s) && Enabled(p, s, m) && m.cancelled
    ensures var n, s' := p.jobs[m.i].name, Step(p, s, m);
            && WellFormed(p, s')
            && s'.slots == s.slots && s'.active == s.active && s'.results == s.results && s'.store[n] == s.store[n]
            && Rest(p.worker, n, s'.pcs[m.i], s'.store[n]) ==
               (None, if s.pcs[m.i].Waiting? then p.worker.record(n, false, s.store[n]) else s.store[n])
  {
    StepIsWellFormed(p, s, m);
  }

  /** What a name's result is once a reply, if any, has been written over it. */
  function Over(reply: Option<string>, previous: Option<string>): Option<string> {
    if reply.Some? then reply else previous
  }

  function Written(pc: PC): Option<string> {
    if pc.Leaving? || pc.Done? then pc.reply else None
  }

  predicate IsJob(jobs: seq<Job>, n: string) {
    exists i :: 0 <= i < |jobs| && jobs[i].name == n
  }

  /** Goroutine `i` is on its way to what its call would do alone, and has written nothing else. */
  ghost predicate OnItsWay<S>(p: Setup<S>, s0: System<S>, s: System<S>, i: nat)
    requires WellFormed(p, s0) && WellFormed(p, s) && i < |p.jobs|
  {
    var n := p.jobs[i].name;
    && Rest(p.worker, n, s.pcs[i], s.store[n]) == Execute(p.worker, n, s0.store[n])
    && Look(s.results, n) == Over(Written(s.pcs[i]), Look(s0.results, n))
  }

  ghost predicate Untouched<S>(s0: System<S>, s: System<S>, n: string) {
    && Look(s.results, n) == Look(s0.results, n)
    && (n in s.store <==> n in s0.store) && (n in s.store ==> s.store[n] == s0.store[n])
  }

  ghost predicate OnTrack<S>(p: Setup<S>, s0: System<S>, s: System<S>)
    requires WellFormed(p, s0) && WellFormed(p, s)
  {
    && (forall i :: 0 <= i < |p.jobs| ==> OnItsWay(p, s0, s, i))
    && (forall n :: !IsJob(p.jobs, n) ==> Untouched(s0, s, n))
  }

  lemma OwnStep<S>(p: Setup<S>, s: System<S>, m: Move)
    requires WellFormed(p, s) && Enabled(p, s, m) && !m.cancelled
    ensures var n, s' := p.jobs[m.i].name, Step(p, s, m);
            && WellFormed(p, s')
            && Rest(p.worker, n, s'.pcs[m.i], s'.store[n]) == Rest(p.worker, n, s.pcs[m.i], s.store[n])
            && (s.pcs[m.i].Writing? ==> Written(s'.pcs[m.i]) == Look(s'.results, n))
            && (!s.pcs[m.i].Writing? ==> s'.results == s.results && Written(s'.pcs[m.i]) == Written(s.pcs[m.i]))
  {
    StepIsWellFormed(p, s, m);
  }

  lemma OthersStep<S>(p: Setup<S>, s: System<S>, m: Move, n: string)
    requires WellFormed(p, s) && Enabled(p, s, m) && n != p.jobs[m.i].name
    ensures Untouched(s, Step(p, s, m), n)
  {
  }

  lemma KeepsOnItsWay<S>(p: Setup<S>, s0: System<S>, s: System<S>, m: Move, i: nat)
    requires WellFormed(p, s0) && WellFormed(p, s) && DistinctNames(p.jobs)
    requires i < |p.jobs| && OnItsWay(p, s0, s, i) && Enabled(p, s, m) && !m.cancelled
    ensures WellFormed(p, Step(p, s, m)) && OnItsWay(p, s0, Step(p, s, m), i)
  {
    OwnStep(p, s, m);
    if i != m.i {
      assert p.jobs[i].name != p.jobs[m.i].name;
      OthersStep(p, s, m, p.jobs[i].name);
      assert Step(p, s, m).pcs[i] == s.pcs[i];
    }
  }

  lemma StepKeepsTrack<S>(p: Setup<S>, s0: System<S>, s: System<S>, m: Move)
    requires WellFormed(p, s0) && WellFormed(p, s) && DistinctNames(p.jobs) && OnTrack(p, s0, s)
    requires Enabled(p, s, m) && !m.cancelled
    ensures WellFormed(p, Step(p, s, m)) && OnTrack(p, s0, Step(p, s, m))
  {
    StepIsWellFormed(p, s, m);
    forall i | 0 <= i < |p.jobs| ensures OnItsWay(p, s0, Step(p, s, m), i) {
      KeepsOnItsWay(p, s0, s, m, i);
    }
    forall n | !IsJob(p.jobs, n) ensures Untouched(s0, Step(p, s, m), n) {
      assert IsJob(p.jobs, p.jobs[m.i].name);
      OthersStep(p, s, m, n);
    }
  }

  lemma {:induction false} StaysOnTrack<S>(p: Setup<S>, s0: System<S>, s: System<S>, moves: seq<Move>)
    requires WellFormed(p, s0) && WellFormed(p, s) && DistinctNames(p.jobs) && OnTrack(p, s0, s)
    requires Schedule(p, s, moves) && forall m :: m in moves ==> !m.cancelled
    ensures OnTrack(p, s0, After(p, s, moves))
    decreases |moves|
  {
    if moves != [] {
      StepKeepsTrack(p, s0, s, moves[0]);
      StaysOnTrack(p, s0, Step(p, s, moves[0]), moves[1..]);
    }
  }

  /** The sequential loop over the same jobs. */
  function Sequential<S>(w: Worker<S>, jobs: seq<Job>, results: map<string, string>, store: map<string, S>)
    : (r: (map<string, string>, map<string, S>))
    requires forall i :: 0 <= i < |jobs| ==> jobs[i].name in store
    ensures r.1.Keys == store.Keys
  {
    if jobs == [] then (results, store)
    else
      var n := jobs[|jobs| - 1].name;
      var (results', store') := Sequential(w, jobs[..|jobs| - 1], results, store);
      var (reply, own) := Execute(w, n, store'[n]);
      (if reply.Some? then results'[n := reply.value] else results', store'[n := own])
  }

  lemma IsJobSnoc(jobs: seq<Job>, n: string)
    requires jobs != []
    ensures IsJob(jobs, n) <==> IsJob(jobs[..|jobs| - 1], n) || jobs[|jobs| - 1].name == n
  {
    if i :| 0 <= i < |jobs| - 1 && jobs[i].name == n {
      assert jobs[..|jobs| - 1][i].name == n;
    }
  }

  /** The sequential loop runs each agent once, on the state it had at the start. */
  lemma {:induction false} SequentialPointwise<S>(w: Worker<S>, jobs: seq<Job>, results: map<string, string>,
                                                  store: map<string, S>, n: string)
    requires forall i :: 0 <= i < |jobs| ==> jobs[i].name in store
    requires DistinctNames(jobs)
    ensures IsJob(jobs, n) ==>
              var (results', store') := Sequential(w, jobs, results, store);
              && Look(results', n) == Over(Execute(w, n, store[n]).0, Look(results, n))
              && store'[n] == Execute(w, n, store[n]).1
    ensures !IsJob(jobs, n) ==>
              var (results', store') := Sequential(w, jobs, results, store);
              && Look(results', n) == Look(results, n)
              && (n in store ==> store'[n] == store[n])
  {
    if jobs != [] {
      SequentialPointwise(w, jobs[..|jobs| - 1], results, store, n);
      IsJobSnoc(jobs, n);
      assert jobs[|jobs| - 1].name == n ==> !IsJob(jobs[..|jobs| - 1], n);
    }
  }

  lemma EndsLikeSequential<S>(p: Setup<S>, s: System<S>, end: System<S>, n: string)
    requires WellFormed(p, s) && WellFormed(p, end) && DistinctNames(p.jobs) && OnTrack(p, s, end) && Final(end)
    ensures var (results, store) := Sequential(p.worker, p.jobs, s.results, s.store);
            && Look(end.results, n) == Look(results, n)
            && (n in end.store <==> n in store) && (n in store ==> end.store[n] == store[n])
  {
    SequentialPointwise(p.worker, p.jobs, s.results, s.store, n);
    if IsJob(p.jobs, n) {
      var i: nat :| i < |p.jobs| && p.jobs[i].name == n;
      assert OnItsWay(p, s, end, i) && end.pcs[i].Done?;
    } else {
      assert Untouched(s, end, n);
    }
  }

  /** Confluence: for agents with distinct names, every complete schedule of the goroutines leaves
      the results and every agent's state exactly as the sequential loop does.  */
  lemma Confluence<S>(p: Setup<S>, s: System<S>, moves: seq<Move>)
    requires Initial(p, s) && DistinctNames(p.jobs)
    requires Schedule(p, s, moves) && (forall m :: m in moves ==> !m.cancelled) && Final(After(p, s, moves))
    ensures (After(p, s, moves).results, After(p, s, moves).store) == Sequential(p.worker, p.jobs, s.results, s.store)
  {
    StaysOnTrack(p, s, s, moves);
    var end := After(p, s, moves);
    var (results, store) := Sequential(p.worker, p.jobs, s.results, s.store);
    forall n
      ensures Look(end.results, n) == Look(results, n)
      ensures (n in end.store <==> n in store) && (n in store ==> end.store[n] == store[n])
    {
      EndsLikeSequential(p, s, end, n);
    }
    SameLooks(end.results, results);
    assert end.store == store;
  }

  // ---------------------------------------------------------------- schedules with cancellations

  /** For each move of goroutine `i`, in order, whether it found its context done. */
  function Own(moves: seq<Move>, i: nat): seq<bool> {
    if moves == [] then []
    else (if moves[0].i == i then [moves[0].cancelled] else []) + Own(moves[1..], i)
  }

  /** A goroutine by itself: where that many moves take it, and its agent's state. */
  function Alone<S>(w: Worker<S>, name: string, pc: PC, own: S, cancelled: seq<bool>): (PC, S)
    requires pc.Bounded()
    decreases |cancelled|
  {
    if cancelled == [] || pc.Done? then (pc, own)
    else
      var (pc', own') := Advance(w, name, pc, own, cancelled[0]);
      Alone(w, name, pc', own', cancelled[1..])
  }

  lemma OwnMove<S>(p: Setup<S>, s: System<S>, m: Move, i: nat)
    requires WellFormed(p, s) && DistinctNames(p.jobs) && Enabled(p, s, m) && i < |p.jobs|
    ensures WellFormed(p, Step(p, s, m))
    ensures var n, s' := p.jobs[i].name, Step(p, s, m);
            (s'.pcs[i], s'.store[n]) ==
            if m.i == i then Advance(p.worker, n, s.pcs[i], s.store[n], m.cancelled) else (s.pcs[i], s.store[n])
  {
    hide Advance;
    StepIsWellFormed(p, s, m);
    assert m.i != i ==> p.jobs[m.i].name != p.jobs[i].name;
  }

  /** In the company of others a goroutine goes where it goes alone. */
  lemma {:induction false} CompanyIsUnfelt<S>(p: Setup<S>, s: System<S>, moves: seq<Move>, i: nat)
    requires WellFormed(p, s) && DistinctNames(p.jobs) && Schedule(p, s, moves) && i < |p.jobs|
    ensures var n, end := p.jobs[i].name, After(p, s, moves);
            (end.pcs[i], end.store[n]) == Alone(p.worker, n, s.pcs[i], s.store[n], Own(moves, i))
    decreases |moves|
  {
    hide Advance, Step;
    if moves != [] {
      OwnMove(p, s, moves[0], i);
      CompanyIsUnfelt(p, Step(p, s, moves[0]), moves[1..], i);
      if moves[0].i == i {
        assert !s.pcs[i].Done? && Own(moves, i) == [moves[0].cancelled] + Own(moves[1..], i);
        assert Own(moves, i)[1..] == Own(moves[1..], i);
      } else {
        assert Own(moves, i) == Own(moves[1..], i);
      }
    }
  }

  /** Goroutine `i` has written its reply, if any, and nobody else has touched its result. */
  ghost predicate OwnResult<S>(p: Setup<S>, s0: System<S>, s: System<S>, i: nat)
    requires |s.pcs| == |p.jobs| && i < |p.jobs|
  {
    Look(s.results, p.jobs[i].name) == Over(Written(s.pcs[i]), Look(s0.results, p.jobs[i].name))
  }

  lemma StepKeepsOwnResult<S>(p: Setup<S>, s0: System<S>, s: System<S>, m: Move, i: nat)
    requires WellFormed(p, s) && DistinctNames(p.jobs) && Enabled(p, s, m)
    requires i < |p.jobs| && OwnResult(p, s0, s, i)
    ensures WellFormed(p, Step(p, s, m)) && OwnResult(p, s0, Step(p, s, m), i)
  {
    StepIsWellFormed(p, s, m);
    if i != m.i {
      assert p.jobs[i].name != p.jobs[m.i].name;
    }
  }

  lemma {:induction false} ResultsAreOwn<S>(p: Setup<S>, s0: System<S>, s: System<S>, moves: seq<Move>, i: nat)
    requires WellFormed(p, s) && DistinctNames(p.jobs) && Schedule(p, s, moves)
    requires i < |p.jobs| && OwnResult(p, s0, s, i)
    ensures OwnResult(p, s0, After(p, s, moves), i)
    decreases |moves|
  {
    if moves != [] {
      StepKeepsOwnResult(p, s0, s, moves[0], i);
      ResultsAreOwn(p, s0, Step(p, s, moves[0]), moves[1..], i);
    }
  }

  lemma {:induction false} StrangersAreUntouched<S>(p: Setup<S>, s: System<S>, moves: seq<Move>, n: string)
    requires WellFormed(p, s) && Schedule(p, s, moves) && !IsJob(p.jobs, n)
    ensures Untouched(s, After(p, s, moves), n)
    decreases |moves|
  {
    if moves != [] {
      assert IsJob(p.jobs, p.jobs[moves[0].i].name);
      OthersStep(p, s, moves[0], n);
      StepIsWellFormed(p, s, moves[0]);
      StrangersAreUntouched(p, Step(p, s, moves[0]), moves[1..], n);
    }
  }

  /** Confluence with cancellations: for agents with distinct names, what any two schedules leave
      differs only if some goroutine found its context done at another point of its own course.  */
  lemma CancelledConfluence<S>(p: Setup<S>, s: System<S>, moves: seq<Move>, moves': seq<Move>)
    requires Initial(p, s) && DistinctNames(p.jobs) && Schedule(p, s, moves) && Schedule(p, s, moves')
    requires forall i: nat :: i < |p.jobs| ==> Own(moves, i) == Own(moves', i)
    ensures After(p, s, moves).pcs == After(p, s, moves').pcs
    ensures After(p, s, moves).results == After(p, s, moves').results
    ensures After(p, s, moves).store == After(p, s, moves').store
  {
    var a, b := After(p, s, moves), After(p, s, moves');
    forall i: nat | i < |p.jobs|
      ensures a.pcs[i] == b.pcs[i] && a.store[p.jobs[i].name] == b.store[p.jobs[i].name]
      ensures Look(a.results, p.jobs[i].name) == Look(b.results, p.jobs[i].name)
    {
      CompanyIsUnfelt(p, s, moves, i);
      CompanyIsUnfelt(p, s, moves', i);
      ResultsAreOwn(p, s, s, moves, i);
      ResultsAreOwn(p, s, s, moves', i);
    }
    forall n
      ensures Look(a.results, n) == Look(b.results, n)
      ensures (n in a.store <==> n in b.store) && (n in a.store ==> a.store[n] == b.store[n])
    {
      if IsJob(p.jobs, n) {
        var i: nat :| i < |p.jobs| && p.jobs[i].name == n;
      } else {
        StrangersAreUntouched(p, s, moves, n);
        StrangersAreUntouched(p, s, moves', n);
      }
    }
    SameLooks(a.results, b.results);
    assert a.pcs == b.pcs && a.store == b.store;
  }
}
