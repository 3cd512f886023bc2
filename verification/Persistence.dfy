/** Scheduler state on disk: a save writes a temporary file and renames it over the state file.

    A write is not atomic, a rename is.  The process may crash at any point; memory is lost, files
    are not.  `Save`, `Load` and `UpdateAgent` hold one lock, so they do not overlap.  Encoding is
    abstract: a file holds a complete snapshot of the agents or a partial one nobody can read.  */
module Persistence {
  import opened Clock
  import opened Option

  datatype AgentState = AgentState(lastRunAt: int, lastSuccessAt: int, consecutiveFailures: nat,
                                   totalRuns: nat, totalFailures: nat)

  type Agents = map<string, AgentState>

  datatype Content = Complete(agents: Agents) | Partial

  datatype Disk = Disk(file: Option<Content>, tmp: Option<Content>)

  datatype Fault = NoFault | MkdirFails | WriteFails | RenameFails

  // ---------------------------------------------------------------- single operations

  const NEW_AGENT := AgentState(0, 0, 0, 0, 0)

  function Entry(agents: Agents, name: string): AgentState {
    if name in agents then agents[name] else NEW_AGENT
  }

  function Updated(agents: Agents, name: string, runAt: int, success: bool): Agents {
    var a := Entry(agents, name);
    var ran := a.(lastRunAt := UnixSeconds(runAt), totalRuns := a.totalRuns + 1);
    agents[name := if success then ran.(lastSuccessAt := ran.lastRunAt, consecutiveFailures := 0)
                   else ran.(consecutiveFailures := a.consecutiveFailures + 1, totalFailures := a.totalFailures + 1)]
  }

  /** What a load finds: nothing is an empty state, an unreadable or partial file is an error. */
  function Readable(disk: Disk, readable: bool): Option<Agents> {
    if !readable || disk.file == Some(Partial) then None
    else if disk.file.None? then Some(map[])
    else Some(disk.file.value.agents)
  }

  /** The disk states a save goes through, in order: a crash finds one of them. */
  function SaveTrail(disk: Disk, agents: Agents, fault: Fault): (trail: seq<Disk>)
    ensures trail != []
  {
    var writing := disk.(tmp := Some(Partial));
    var written := disk.(tmp := Some(Complete(agents)));
    match fault
    case NoFault => [disk, writing, written, Disk(Some(Complete(agents)), None)]
    case MkdirFails => [disk]
    case WriteFails => [disk, writing]
    case RenameFails => [disk, writing, written, disk.(tmp := None)]
  }

  function Last<T>(s: seq<T>): T
    requires s != []
  {
    s[|s| - 1]
  }

  // ---------------------------------------------------------------- runs

  /** `synced` records that this process has completed a load or a save. */
  datatype System = System(mem: Agents, dirty: bool, disk: Disk, synced: bool)

  datatype Event =
    | Update(name: string, runAt: int, success: bool)
    | Load(readable: bool)
    | Save(fault: Fault)
    | Crash(fault: Fault, point: nat)  // in the middle of a save, or outside one at point 0

  predicate Possible(s: System, e: Event) {
    e.Crash? ==> e.point < |SaveTrail(s.disk, s.mem, e.fault)|
  }

  /** Persistence is switched on. */
  function Apply(s: System, e: Event): System
    requires Possible(s, e)
  {
    match e
    case Update(name, runAt, success) => s.(mem := Updated(s.mem, name, runAt, success), dirty := true)
    case Load(readable) =>
      var found := Readable(s.disk, readable);
      if found.Some? then s.(mem := found.value, synced := true) else s
    case Save(fault) =>
      var s' := s.(disk := Last(SaveTrail(s.disk, s.mem, fault)));
      if fault.NoFault? then s'.(dirty := false, synced := true) else s'
    case Crash(fault, point) => System(map[], false, SaveTrail(s.disk, s.mem, fault)[point], false)
  }

  predicate PossibleRun(s: System, run: seq<Event>)
    decreases |run|, 0
  {
    run == [] ||
    (PossibleRun(s, run[..|run| - 1]) && Possible(After(s, run[..|run| - 1]), run[|run| - 1]))
  }

  function After(s: System, run: seq<Event>): System
    requires PossibleRun(s, run)
    decreases |run|, 1
  {
    if run == [] then s else Apply(After(s, run[..|run| - 1]), run[|run| - 1])
  }

  /** A new process on a disk that holds no half-written state file. */
  predicate Initial(s: System) {
    s.mem == map[] && !s.dirty && !s.synced && s.disk.file != Some(Partial)
  }

  /** The save at this event got past its rename. */
  predicate Committed(e: Event) {
    (e.Save? && e.fault.NoFault?) || (e.Crash? && e.fault.NoFault? && e.point == 3)
  }

  /** What the memory held at the last committed save, or what the file held to begin with. */
  function LastCommitted(s: System, run: seq<Event>): Option<Content>
    requires PossibleRun(s, run)
    decreases |run|
  {
    if run == [] then s.disk.file
    else
      var before, e := run[..|run| - 1], run[|run| - 1];
      if Committed(e) then Some(Complete(After(s, before).mem)) else LastCommitted(s, before)
  }

  /** At whatever point a save crashes, the state file is the old one or the new one, complete. */
  lemma CrashLeavesOldOrNew(disk: Disk, agents: Agents, fault: Fault, point: nat)
    requires point < |SaveTrail(disk, agents, fault)|
    ensures var file := SaveTrail(disk, agents, fault)[point].file;
            file == if Committed(Crash(fault, point)) then Some(Complete(agents)) else disk.file
  {
    assert fault.RenameFails? && point == 3 ==> SaveTrail(disk, agents, fault)[3] == disk.(tmp := None);
  }

  /** Over every run with any faults and crashes, the state file holds exactly what was last
      committed, and is never partial.  */
  lemma {:induction false} FileIsLastCommitted(s: System, run: seq<Event>)
    requires Initial(s) && PossibleRun(s, run)
    ensures After(s, run).disk.file == LastCommitted(s, run) != Some(Partial)
    decreases |run|
  {
    if run != [] {
      var before, e := run[..|run| - 1], run[|run| - 1];
      FileIsLastCommitted(s, before);
      var s' := After(s, before);
      match e
      case Save(fault) => CrashLeavesOldOrNew(s'.disk, s'.mem, fault, |SaveTrail(s'.disk, s'.mem, fault)| - 1);
      case Crash(fault, point) => CrashLeavesOldOrNew(s'.disk, s'.mem, fault, point);
      case _ =>
    }
  }

  /** The agents a load would bring back. */
  function OnDisk(disk: Disk): Agents
    requires disk.file != Some(Partial)
  {
    if disk.file.None? then map[] else disk.file.value.agents
  }

  /** Once a load or save has succeeded, a state that is not dirty is on disk. */
  lemma {:induction false} CleanMeansSaved(s: System, run: seq<Event>)
    requires Initial(s) && PossibleRun(s, run)
    ensures var s' := After(s, run);
            && s'.disk.file != Some(Partial)
            && (s'.synced && !s'.dirty ==> OnDisk(s'.disk) == s'.mem)
    decreases |run|
  {
    FileIsLastCommitted(s, run);
    if run != [] {
      var before, e := run[..|run| - 1], run[|run| - 1];
      CleanMeansSaved(s, before);
      var s' := After(s, before);
      if e.Save? {
        CrashLeavesOldOrNew(s'.disk, s'.mem, e.fault, |SaveTrail(s'.disk, s'.mem, e.fault)| - 1);
      }
    }
  }

  /** A process that is clean without having loaded or saved anything has nothing in memory. */
  lemma {:induction false} UnsyncedAndCleanIsEmpty(s: System, run: seq<Event>)
    requires Initial(s) && PossibleRun(s, run)
    ensures var s' := After(s, run);
            !s'.synced && !s'.dirty ==> s'.mem == map[]
    decreases |run|
  {
    if run != [] {
      UnsyncedAndCleanIsEmpty(s, run[..|run| - 1]);
    }
  }

  /** Not being dirty means being on disk exactly if a load or save has succeeded or there is nothing
      to load.  */
  lemma CleanIsSavedIffSynced(s: System, run: seq<Event>)
    requires Initial(s) && PossibleRun(s, run) && !After(s, run).dirty
    ensures var s' := After(s, run);
            && s'.disk.file != Some(Partial)
            && (OnDisk(s'.disk) == s'.mem <==> s'.synced || OnDisk(s'.disk) == map[])
  {
    CleanMeansSaved(s, run);
    UnsyncedAndCleanIsEmpty(s, run);
  }

  /** Otherwise it need not be: a fresh process is clean and knows nothing of a non-empty file. */
  lemma FreshProcessIsCleanButEmpty(agents: Agents)
    requires agents != map[]
    ensures var s := System(map[], false, Disk(Some(Complete(agents)), None), false);
            Initial(s) && !s.dirty && OnDisk(s.disk) != s.mem
  {
  }

  // ---------------------------------------------------------------- check, then save

  function Batch(agents: Agents, updates: seq<Event>): Agents {
    if updates == [] then agents
    else
      var e := updates[|updates| - 1];
      var before := Batch(agents, updates[..|updates| - 1]);
      if e.Update? then Updated(before, e.name, e.runAt, e.success) else before
  }

  lemma {:induction false} UpdatesAccumulate(s: System, updates: seq<Event>)
    requires forall e :: e in updates ==> e.Update?
    ensures PossibleRun(s, updates)
    ensures After(s, updates) == s.(mem := Batch(s.mem, updates), dirty := s.dirty || updates != [])
    decreases |updates|
  {
    if updates != [] {
      assert updates[|updates| - 1] in updates;
      UpdatesAccumulate(s, updates[..|updates| - 1]);
    }
  }

  /** The updates of one agent. */
  function Own(updates: seq<Event>, name: string): (own: seq<Event>)
    requires forall e :: e in updates ==> e.Update?
    ensures forall e :: e in own ==> e.Update?
  {
    if updates == [] then []
    else
      var e, before := updates[|updates| - 1], Own(updates[..|updates| - 1], name);
      assert e in updates;
      if e.name == name then before + [e] else before
  }

  /** The failures at the end of an agent's updates. */
  function FailuresInARow(own: seq<Event>): (n: nat)
    requires forall e :: e in own ==> e.Update?
    ensures n <= |own|
  {
    if own == [] || own[|own| - 1].success then 0 else 1 + FailuresInARow(own[..|own| - 1])
  }

  function FailuresIn(own: seq<Event>): nat
    requires forall e :: e in own ==> e.Update?
  {
    if own == [] then 0 else FailuresIn(own[..|own| - 1]) + if own[|own| - 1].success then 0 else 1
  }

  /** What the state says of an agent after `own` updates of it. */
  ghost predicate Reflects(a0: AgentState, own: seq<Event>, a: AgentState)
    requires forall e :: e in own ==> e.Update?
  {
    var row := FailuresInARow(own);
    && a.totalRuns == a0.totalRuns + |own| && a.totalFailures == a0.totalFailures + FailuresIn(own)
    && a.consecutiveFailures == row + (if row == |own| then a0.consecutiveFailures else 0)
    && a.lastRunAt == (if own == [] then a0.lastRunAt else UnixSeconds(own[|own| - 1].runAt))
    && a.lastSuccessAt == if row == |own| then a0.lastSuccessAt else UnixSeconds(own[|own| - 1 - row].runAt)
  }

  lemma OneMoreUpdate(a0: AgentState, own: seq<Event>, agents: Agents, e: Event)
    requires (forall x :: x in own ==> x.Update?) && e.Update? && Reflects(a0, own, Entry(agents, e.name))
    ensures Reflects(a0, own + [e], Entry(Updated(agents, e.name, e.runAt, e.success), e.name))
  {
    var all := own + [e];
    assert all[..|own|] == own && all[|own|] == e;
    var row := FailuresInARow(own);
    assert !e.success && row < |own| ==> all[|all| - 1 - (row + 1)] == own[|own| - 1 - row];
  }

  /** The state of an agent is exact: counters, failures in a row, and the seconds of its last run and of
      its last success, whatever other agents do in between.  */
  lemma {:induction false} StateIsExact(agents: Agents, updates: seq<Event>, name: string)
    requires forall e :: e in updates ==> e.Update?
    ensures Reflects(Entry(agents, name), Own(updates, name), Entry(Batch(agents, updates), name))
  {
    hide Reflects, Updated;
    if updates == [] {
      NothingToReflect(Entry(agents, name));
    } else {
      var before, e := updates[..|updates| - 1], updates[|updates| - 1];
      assert e in updates;
      StateIsExact(agents, before, name);
      if e.name == name {
        OneMoreUpdate(Entry(agents, name), Own(before, name), Batch(agents, before), e);
      } else {
        OthersStay(Batch(agents, before), e, name);
      }
    }
  }

  lemma NothingToReflect(a: AgentState)
    ensures Reflects(a, [], a)
  {
  }

  lemma OthersStay(agents: Agents, e: Event, name: string)
    requires e.Update? && e.name != name
    ensures Entry(Updated(agents, e.name, e.runAt, e.success), name) == Entry(agents, name)
  {
  }

  /** A save that may fail: the file is the new one or the old one. */
  lemma SaveOrNot(s: System, fault: Fault)
    ensures var s' := Apply(s, Save(fault));
            && s'.mem == s.mem && s'.dirty == (s.dirty && !fault.NoFault?)
            && s'.disk.file == if fault.NoFault? then Some(Complete(s.mem)) else s.disk.file
  {
    CrashLeavesOldOrNew(s.disk, s.mem, fault, |SaveTrail(s.disk, s.mem, fault)| - 1);
  }

  /** The scheduler's `if IsDirty { Save }`, which drops the error of a failed save, with updates slipping
      in between the two calls: whatever is not on disk afterwards is marked dirty, and if the save takes
      place and succeeds nothing is.  */
  lemma NoUpdateIsLost(s: System, run: seq<Event>, updates: seq<Event>, fault: Fault)
    requires Initial(s) && PossibleRun(s, run) && After(s, run).synced
    requires forall e :: e in updates ==> e.Update?
    ensures var checked := After(s, run);
            && PossibleRun(checked, updates)
            && var late := After(checked, updates);
               var end := if checked.dirty then Apply(late, Save(fault)) else late;
               && end.mem == Batch(checked.mem, updates)
               && end.disk.file != Some(Partial)
               && (OnDisk(end.disk) == end.mem || end.dirty)
               && (checked.dirty && fault.NoFault? ==> OnDisk(end.disk) == end.mem && !end.dirty)
  {
    CleanMeansSaved(s, run);
    UpdatesAccumulate(After(s, run), updates);
    SaveOrNot(After(After(s, run), updates), fault);
  }

  // ---------------------------------------------------------------- the end of an intelligent round

  /** How the report of a round went: `None` when there is no such summary agent. */
  datatype Summary = Summary(selfDriven: Option<bool>, plain: Option<bool>)

  /** Both summaries return early: the self-driven one when it succeeds, the plain one when it fails. */
  predicate ReachesSave(sum: Summary) {
    sum.selfDriven != Some(true) && sum.plain != Some(false)
  }

  function EndOfRound(s: System, sum: Summary, fault: Fault): System {
    if ReachesSave(sum) && s.dirty then Apply(s, Save(fault)) else s
  }

  /** A round leaves the file alone when its self-driven summary succeeds, and when its plain summary
      fails; in any other case it saves what there is to save.  */
  lemma FileAfterRound(s: System, sum: Summary, fault: Fault)
    ensures var file := EndOfRound(s, sum, fault).disk.file;
            match (sum.selfDriven, sum.plain)
            case (Some(true), _) => file == s.disk.file
            case (_, Some(false)) => file == s.disk.file
            case _ => file == if s.dirty && fault.NoFault? then Some(Complete(s.mem)) else s.disk.file
  {
    SaveOrNot(s, fault);
  }

  /** What is in memory at the end of a round is on disk, and survives a crash right after it, exactly
      when the round reaches its save and the save succeeds, or when it was there before.  */
  lemma RoundIsDurableIffSaved(s: System, run: seq<Event>, updates: seq<Event>, sum: Summary, fault: Fault)
    requires Initial(s) && PossibleRun(s, run) && After(s, run).synced
    requires forall e :: e in updates ==> e.Update?
    ensures var start := After(s, run);
            var saved := ReachesSave(sum) && fault.NoFault?;
            && PossibleRun(start, updates) && start.disk.file != Some(Partial)
            && var end := EndOfRound(After(start, updates), sum, fault);
               && end.mem == Batch(start.mem, updates)
               && end.disk.file != Some(Partial)
               && (OnDisk(end.disk) == end.mem <==> saved || OnDisk(start.disk) == end.mem)
               && Apply(Apply(end, Crash(NoFault, 0)), Load(true)).mem
                  == if saved then end.mem else OnDisk(start.disk)
  {
    CleanMeansSaved(s, run);
    UpdatesAccumulate(After(s, run), updates);
    SaveOrNot(After(After(s, run), updates), fault);
  }

  /** One intelligent round: the runs it records, how its report goes, and how its save would. */
  datatype Round = Round(updates: seq<Event>, sum: Summary, fault: Fault)

  ghost predicate Updating(rounds: seq<Round>) {
    forall k, e :: 0 <= k < |rounds| && e in rounds[k].updates ==> e.Update?
  }

  /** The runs recorded in all of the rounds, in order. */
  function AllUpdates(rounds: seq<Round>): seq<Event> {
    if rounds == [] then [] else AllUpdates(rounds[..|rounds| - 1]) + rounds[|rounds| - 1].updates
  }

  ghost function AfterRounds(s: System, rounds: seq<Round>): System
    requires Updating(rounds)
  {
    if rounds == [] then s
    else
      var r, before := rounds[|rounds| - 1], AfterRounds(s, rounds[..|rounds| - 1]);
      UpdatesAccumulate(before, r.updates);
      EndOfRound(After(before, r.updates), r.sum, r.fault)
  }

  /** The memory at the end of the last round that reached its save with success, or what was on disk. */
  function LastSaved(s: System, rounds: seq<Round>): Agents
    requires s.disk.file != Some(Partial)
  {
    if rounds == [] then OnDisk(s.disk)
    else
      var r := rounds[|rounds| - 1];
      if ReachesSave(r.sum) && r.fault.NoFault? then Batch(s.mem, AllUpdates(rounds))
      else LastSaved(s, rounds[..|rounds| - 1])
  }

  lemma {:induction false} BatchesAdd(agents: Agents, first: seq<Event>, second: seq<Event>)
    ensures Batch(agents, first + second) == Batch(Batch(agents, first), second)
  {
    if second == [] {
      assert first + second == first;
    } else {
      assert (first + second)[..|first + second| - 1] == first + second[..|second| - 1];
      BatchesAdd(agents, first, second[..|second| - 1]);
    }
  }

  /** Whatever is not dirty is on disk. */
  predicate Coherent(s: System) {
    s.disk.file != Some(Partial) && (!s.dirty ==> OnDisk(s.disk) == s.mem)
  }

  lemma {:induction false} RoundsAreCoherent(s: System, rounds: seq<Round>)
    requires Coherent(s) && Updating(rounds)
    ensures Coherent(AfterRounds(s, rounds))
    ensures AfterRounds(s, rounds).mem == Batch(s.mem, AllUpdates(rounds))
    ensures OnDisk(AfterRounds(s, rounds).disk) == LastSaved(s, rounds)
  {
    if rounds != [] {
      var r, before := rounds[|rounds| - 1], rounds[..|rounds| - 1];
      RoundsAreCoherent(s, before);
      UpdatesAccumulate(AfterRounds(s, before), r.updates);
      SaveOrNot(After(AfterRounds(s, before), r.updates), r.fault);
      BatchesAdd(s.mem, AllUpdates(before), r.updates);
    }
  }

  /** After any sequence of rounds, memory holds all they recorded, and the file, which is what a new
      process would load, the memory of the last round that reached its save with success.  */
  lemma FileHoldsLastSavedRound(s: System, run: seq<Event>, rounds: seq<Round>)
    requires Initial(s) && PossibleRun(s, run) && After(s, run).synced && Updating(rounds)
    ensures var start := After(s, run);
            var end := AfterRounds(start, rounds);
            && start.disk.file != Some(Partial)
            && end.mem == Batch(start.mem, AllUpdates(rounds))
            && Apply(Apply(end, Crash(NoFault, 0)), Load(true)).mem == LastSaved(start, rounds)
  {
    CleanMeansSaved(s, run);
    RoundsAreCoherent(After(s, run), rounds);
  }

  // ---------------------------------------------------------------- losing history

  /** No save gets past its rename in a process that has completed neither a load nor a save. */
  ghost predicate CommitsAreSynced(s: System, run: seq<Event>)
    requires PossibleRun(s, run)
    decreases |run|
  {
    run == [] ||
    var before, e := run[..|run| - 1], run[|run| - 1];
    CommitsAreSynced(s, before) && (Committed(e) ==> After(s, before).synced)
  }

  /** The file knows of no run that memory does not. */
  ghost predicate Covers(s: System) {
    && s.disk.file != Some(Partial)
    && (s.synced ==> forall n :: Entry(OnDisk(s.disk), n).totalRuns <= Entry(s.mem, n).totalRuns)
  }

  lemma EventKeepsRuns(s: System, e: Event, n: string)
    requires Possible(s, e) && Covers(s) && (Committed(e) ==> s.synced)
    ensures Covers(Apply(s, e)) && Entry(OnDisk(s.disk), n).totalRuns <= Entry(OnDisk(Apply(s, e).disk), n).totalRuns
  {
    match e
    case Save(fault) => SaveOrNot(s, fault);
    case Crash(fault, point) => CrashLeavesOldOrNew(s.disk, s.mem, fault, point);
    case _ =>
  }

  lemma {:induction false} AlwaysCovers(s: System, run: seq<Event>)
    requires Initial(s) && PossibleRun(s, run) && CommitsAreSynced(s, run)
    ensures Covers(After(s, run))
    decreases |run|
  {
    if run != [] {
      AlwaysCovers(s, run[..|run| - 1]);
      EventKeepsRuns(After(s, run[..|run| - 1]), run[|run| - 1], "");
    }
  }

  /** As long as no save commits before a load or save has succeeded, no agent's run count on file
      ever goes down, whatever fails or crashes.  */
  lemma {:induction false} CommittedRunsOnlyGrow(s: System, run: seq<Event>, i: nat, n: string)
    requires Initial(s) && PossibleRun(s, run) && CommitsAreSynced(s, run) && i <= |run|
    ensures PossibleRun(s, run[..i])
    ensures var early, late := After(s, run[..i]).disk, After(s, run).disk;
            && early.file != Some(Partial) && late.file != Some(Partial)
            && Entry(OnDisk(early), n).totalRuns <= Entry(OnDisk(late), n).totalRuns
    decreases |run|
  {
    AlwaysCovers(s, run);
    if i == |run| {
      assert run[..i] == run;
    } else {
      var before := run[..|run| - 1];
      CommittedRunsOnlyGrow(s, before, i, n);
      assert before[..i] == run[..i];
      AlwaysCovers(s, before);
      EventKeepsRuns(After(s, before), run[|run| - 1], n);
    }
  }

  /** The error of a failed load is dropped: the next save then leaves nothing on file but what has run
      since, whatever the file held.  */
  lemma FailedLoadLosesHistory(agents: Agents, name: string, runAt: int, success: bool)
    ensures var s := System(map[], false, Disk(Some(Complete(agents)), None), false);
            var run := [Load(false), Update(name, runAt, success), Save(NoFault)];
            && Initial(s) && PossibleRun(s, run)
            && After(s, run).disk.file == Some(Complete(Updated(map[], name, runAt, success)))
  {
    var s := System(map[], false, Disk(Some(Complete(agents)), None), false);
    var run := [Load(false), Update(name, runAt, success), Save(NoFault)];
    assert [] + [Load(false)] == [Load(false)] && [Load(false)] + [Update(name, runAt, success)] == run[..2];
    assert run == run[..2] + [Save(NoFault)];
    OneEvent(s, [], Load(false));
    OneEvent(s, [Load(false)], Update(name, runAt, success));
    OneEvent(s, run[..2], Save(NoFault));
  }

  lemma OneEvent(s: System, run: seq<Event>, e: Event)
    requires PossibleRun(s, run) && Possible(After(s, run), e)
    ensures PossibleRun(s, run + [e]) && After(s, run + [e]) == Apply(After(s, run), e)
  {
    assert (run + [e])[..|run|] == run;
  }

  // ---------------------------------------------------------------- the implementation

  /** The two files, with the history of all states they went through. */
  class FileSystem {
    var file: Option<Content>
    var tmp: Option<Content>
    ghost var trail: seq<Disk>

    constructor (file: Option<Content>)
      ensures Now() == Disk(file, None) && trail == []
    {
      this.file, tmp, trail := file, None, [];
    }

    function Now(): Disk
      reads this`file, this`tmp
    {
      Disk(file, tmp)
    }

    method WriteTmp(content: Content, fails: bool)
      modifies this
      ensures file == old(file)
      ensures tmp == Some(if fails then Partial else content)
      ensures trail == old(trail) + [Disk(file, Some(Partial))] + (if fails then [] else [Disk(file, Some(content))])
    {
      tmp := Some(Partial);
      trail := trail + [Now()];
      if !fails {
        tmp := Some(content);
        trail := trail + [Now()];
      }
    }

    method Rename(fails: bool)
      modifies this
      ensures Now() == if fails then old(Now()) else Disk(old(tmp), None)
      ensures trail == old(trail) + (if fails then [] else [Now()])
    {
      if !fails {
        file, tmp := tmp, None;
        trail := trail + [Now()];
      }
    }

    method RemoveTmp()
      modifies this
      ensures Now() == old(Now()).(tmp := None) && trail == old(trail) + [Now()]
    {
      tmp := None;
      trail := trail + [Now()];
    }
  }

  class StatePersistence {
    const persist: bool
    const fs: FileSystem
    var agents: Agents
    var dirty: bool

    constructor (persist: bool, fs: FileSystem)
      ensures this.persist == persist && this.fs == fs && agents == map[] && !dirty
    {
      this.persist, this.fs := persist, fs;
      agents, dirty := map[], false;
    }

    method Load(readable: bool) returns (ok: bool)
      modifies this`agents
      ensures !persist ==> ok && agents == map[]
      ensures persist ==> ok == Readable(fs.Now(), readable).Some?
      ensures persist ==> agents == if ok then Readable(fs.Now(), readable).value else old(agents)
      ensures persist && readable && fs.file.None? ==> ok && agents == map[]
      ensures persist && readable && fs.file.Some? && fs.file.value.Complete? ==> ok && agents == fs.file.value.agents
      ensures persist && (!readable || fs.file == Some(Partial)) ==> !ok && agents == old(agents)
    {
      if !persist {
        agents := map[];
        return true;
      }
      if !readable {
        return false;
      }
      if fs.file.None? {
        agents := map[];
        return true;
      }
      if fs.file.value.Partial? {
        return false;
      }
      agents := fs.file.value.agents;
      return true;
    }

    /** The files go through exactly the states of `SaveTrail`, whatever fails. */
    method Save(fault: Fault) returns (ok: bool)
      modifies this`dirty, fs
      ensures !persist ==> ok && dirty == old(dirty) && fs.Now() == old(fs.Now()) && fs.trail == old(fs.trail)
      ensures persist ==> ok == fault.NoFault? && dirty == (old(dirty) && !ok)
      ensures persist && fault.NoFault? ==> fs.file == Some(Complete(agents)) && fs.tmp.None?
      ensures persist && !fault.NoFault? ==> fs.file == old(fs.file) && (fault.RenameFails? ==> fs.tmp.None?)
      ensures persist ==> fs.Now() == Last(SaveTrail(old(fs.Now()), agents, fault))
      ensures persist ==> fs.trail == old(fs.trail) + SaveTrail(old(fs.Now()), agents, fault)[1..]
    {
      if !persist {
        return true;
      }
      if fault.MkdirFails? {
        return false;
      }
      fs.WriteTmp(Complete(agents), fault.WriteFails?);
      if fault.WriteFails? {
        return false;
      }
      fs.Rename(fault.RenameFails?);
      if fault.RenameFails? {
        fs.RemoveTmp();
        return false;
      }
      dirty := false;
      return true;
    }

    method UpdateAgent(name: string, runAt: int, success: bool)
      modifies this`agents, this`dirty
      ensures agents == Updated(old(agents), name, runAt, success) && dirty
    {
      if name !in agents {
        agents := agents[name := NEW_AGENT];
      }
      var a := agents[name];
      a := a.(lastRunAt := UnixSeconds(runAt), totalRuns := a.totalRuns + 1);
      if success {
        a := a.(lastSuccessAt := a.lastRunAt, consecutiveFailures := 0);
      } else {
        a := a.(consecutiveFailures := a.consecutiveFailures + 1, totalFailures := a.totalFailures + 1);
      }
      agents := agents[name := a];
      dirty := true;
    }

    /** The recorded second of an agent's last run; a run at or before the epoch counts as none. */
    method GetAgentLastRun(name: string) returns (at: Option<int>)
      ensures at == LastRun(agents, name)
      ensures at == if name in agents && agents[name].lastRunAt > 0 then Some(agents[name].lastRunAt) else None
    {
      if name !in agents || agents[name].lastRunAt <= 0 {
        return None;
      }
      return Some(agents[name].lastRunAt);
    }
  }

  function LastRun(agents: Agents, name: string): Option<int> {
    if name in agents && agents[name].lastRunAt > 0 then Some(agents[name].lastRunAt) else None
  }
}
