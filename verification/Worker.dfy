/** One `Execute` call on its own: the circuit gate, the retry loop and the recording phase.

    `S` is everything an agent has of its own (its breaker entry, its cached instance, its
    counters), and a worker is four arbitrary functions on it.  */
module Workers {
  import opened Option

  const MAX_ATTEMPTS := 3

  /** How one attempt ends: a reply, whose text may be missing, or an error. */
  datatype Outcome = Reply(text: Option<string>) | Retryable | Fatal

  /** `cancelled` says whether the context is done during the sleep before attempt `k`. */
  datatype Worker<!S> = Worker(
    gate: (string, S) -> (bool, S),
    cancelled: (string, nat, S) -> bool,
    attempt: (string, nat, S) -> (Outcome, S),
    record: (string, bool, S) -> S)

  /** The text `Execute` delivers, if any, and the agent's state afterwards. */
  function Execute<S>(w: Worker<S>, name: string, s: S): (Option<string>, S) {
    var (open, s') := w.gate(name, s);
    if open then (None, s') else Try(w, name, 0, false, s')
  }

  /** The retry loop from attempt `k` on; `failed` says that an earlier attempt left its error
      behind, which no later success clears.  */
  function Try<S>(w: Worker<S>, name: string, k: nat, failed: bool, s: S): (Option<string>, S)
    decreases MAX_ATTEMPTS - k, 1
  {
    var (outcome, s') := w.attempt(name, k, s);
    Settle(w, name, k, failed, outcome, s')
  }

  function Settle<S>(w: Worker<S>, name: string, k: nat, failed: bool, outcome: Outcome, s: S): (Option<string>, S)
    decreases MAX_ATTEMPTS - k, 0
  {
    match outcome
    case Reply(text) => Record(w, name, !failed, text, s)
    case Fatal => Record(w, name, false, None, s)
    case Retryable =>
      if k + 1 < MAX_ATTEMPTS then Resume(w, name, k + 1, s) else Record(w, name, false, None, s)
  }

  /** After the backoff sleep; cut short, the call returns before anything is recorded. */
  function Resume<S>(w: Worker<S>, name: string, k: nat, s: S): (Option<string>, S)
    decreases MAX_ATTEMPTS - k, 2
  {
    if w.cancelled(name, k, s) then (None, s) else Try(w, name, k, true, s)
  }

  function Record<S>(w: Worker<S>, name: string, ok: bool, text: Option<string>, s: S): (Option<string>, S) {
    (if ok then text else None, w.record(name, ok, s))
  }

  // ---------------------------------------------------------------- the course of a call

  /** The outcomes of the attempts made, whether a sleep was cut short, and the state at that point. */
  datatype Course<S> = Course(made: seq<Outcome>, cut: bool, state: S)

  function CourseFrom<S>(w: Worker<S>, name: string, k: nat, s: S): Course<S>
    decreases MAX_ATTEMPTS - k
  {
    var (outcome, s') := w.attempt(name, k, s);
    if outcome.Retryable? && k + 1 < MAX_ATTEMPTS then
      if w.cancelled(name, k + 1, s') then Course([outcome], true, s')
      else
        var rest := CourseFrom(w, name, k + 1, s');
        rest.(made := [outcome] + rest.made)
    else Course([outcome], false, s')
  }

  function Last(made: seq<Outcome>): Outcome
    requires made != []
  {
    made[|made| - 1]
  }

  /** At most three attempts; only retryable errors are followed by another; and unless a sleep is
      cut short the last attempt replied, failed for good, or was the third.  */
  lemma {:induction false} AttemptsAreBounded<S>(w: Worker<S>, name: string, k: nat, s: S)
    requires k < MAX_ATTEMPTS
    ensures var c := CourseFrom(w, name, k, s);
            && 1 <= |c.made| <= MAX_ATTEMPTS - k
            && (forall i :: 0 <= i < |c.made| - 1 ==> c.made[i] == Retryable)
            && (c.cut ==> Last(c.made) == Retryable && |c.made| < MAX_ATTEMPTS - k)
            && (!c.cut && Last(c.made) == Retryable ==> |c.made| == MAX_ATTEMPTS - k)
    decreases MAX_ATTEMPTS - k
  {
    var (outcome, s') := w.attempt(name, k, s);
    if outcome.Retryable? && k + 1 < MAX_ATTEMPTS && !w.cancelled(name, k + 1, s') {
      AttemptsAreBounded(w, name, k + 1, s');
      var rest := CourseFrom(w, name, k + 1, s');
      assert Last([outcome] + rest.made) == Last(rest.made);
      assert forall i :: 1 <= i < |rest.made| ==> ([outcome] + rest.made)[i] == rest.made[i - 1];
    }
  }

  lemma NextAttempt<S>(w: Worker<S>, name: string, k: nat, failed: bool, s: S)
    requires k + 1 < MAX_ATTEMPTS && w.attempt(name, k, s).0.Retryable?
    ensures var s' := w.attempt(name, k, s).1;
            Try(w, name, k, failed, s) ==
            if w.cancelled(name, k + 1, s') then (None, s') else Try(w, name, k + 1, true, s')
  {
    var s' := w.attempt(name, k, s).1;
    assert Settle(w, name, k, failed, Retryable, s') == Resume(w, name, k + 1, s');
  }

  /** What a call whose sleeps are not cut short records: exactly one outcome, which is a success
      exactly if the very first attempt replied.  */
  lemma {:induction false} OneOutcomeIsRecorded<S>(w: Worker<S>, name: string, k: nat, failed: bool, s: S)
    requires k < MAX_ATTEMPTS
    ensures var c := CourseFrom(w, name, k, s);
            Try(w, name, k, failed, s) ==
            if c.cut then (None, c.state)
            else Record(w, name, !failed && c.made[0].Reply?,
                        if c.made[0].Reply? then c.made[0].text else None, c.state)
    decreases MAX_ATTEMPTS - k
  {
    var (outcome, s') := w.attempt(name, k, s);
    if outcome.Retryable? && k + 1 < MAX_ATTEMPTS {
      NextAttempt(w, name, k, failed, s);
    }
    if outcome.Retryable? && k + 1 < MAX_ATTEMPTS && !w.cancelled(name, k + 1, s') {
      OneOutcomeIsRecorded(w, name, k + 1, true, s');
      LateReplyIsLost(w, name, k + 1, s');
    }
  }

  lemma {:induction false} LateReplyIsLost<S>(w: Worker<S>, name: string, k: nat, s: S)
    requires k < MAX_ATTEMPTS
    ensures var c := CourseFrom(w, name, k, s);
            Try(w, name, k, true, s) == if c.cut then (None, c.state) else Record(w, name, false, None, c.state)
    decreases MAX_ATTEMPTS - k
  {
    var (outcome, s') := w.attempt(name, k, s);
    if outcome.Retryable? && k + 1 < MAX_ATTEMPTS {
      NextAttempt(w, name, k, true, s);
    }
    if outcome.Retryable? && k + 1 < MAX_ATTEMPTS && !w.cancelled(name, k + 1, s') {
      LateReplyIsLost(w, name, k + 1, s');
    }
  }

  /** The loop as retrying is meant: a success clears the errors before it. */
  function TryCleared<S>(w: Worker<S>, name: string, k: nat, s: S): (Option<string>, S)
    decreases MAX_ATTEMPTS - k
  {
    var (outcome, s') := w.attempt(name, k, s);
    match outcome
    case Reply(text) => Record(w, name, true, text, s')
    case Fatal => Record(w, name, false, None, s')
    case Retryable =>
      if k + 1 == MAX_ATTEMPTS || k >= MAX_ATTEMPTS then Record(w, name, false, None, s')
      else if w.cancelled(name, k + 1, s') then (None, s')
      else TryCleared(w, name, k + 1, s')
  }

  /** With the error cleared, a success is recorded exactly if some attempt replied. */
  lemma {:induction false} ClearedLoopReportsAnyReply<S>(w: Worker<S>, name: string, k: nat, s: S)
    requires k < MAX_ATTEMPTS
    ensures var c := CourseFrom(w, name, k, s);
            && c.made != []
            && TryCleared(w, name, k, s) ==
               if c.cut then (None, c.state)
               else Record(w, name, exists o :: o in c.made && o.Reply?,
                           if Last(c.made).Reply? then Last(c.made).text else None, c.state)
    decreases MAX_ATTEMPTS - k
  {
    AttemptsAreBounded(w, name, k, s);
    var (outcome, s') := w.attempt(name, k, s);
    var c := CourseFrom(w, name, k, s);
    assert Last(c.made) in c.made;
    if outcome.Retryable? && k + 1 < MAX_ATTEMPTS && !w.cancelled(name, k + 1, s') {
      ClearedLoopReportsAnyReply(w, name, k + 1, s');
      var rest := CourseFrom(w, name, k + 1, s');
      assert c.made == [outcome] + rest.made && Last(c.made) == Last(rest.made);
      assert forall o :: o in c.made <==> o == outcome || o in rest.made;
    }
  }

  /** The written loop does what was meant exactly unless a retry, not the first attempt, replied. */
  lemma WrittenLoopDiffersOnRecovery<S>(w: Worker<S>, name: string, s: S)
    ensures var made := CourseFrom(w, name, 0, s).made;
            && made != []
            && ((made[0].Reply? <==> exists o :: o in made && o.Reply?) <==> !(|made| > 1 && Last(made).Reply?))
            && (!(|made| > 1 && Last(made).Reply?) ==> Try(w, name, 0, false, s) == TryCleared(w, name, 0, s))
  {
    AttemptsAreBounded(w, name, 0, s);
    OneOutcomeIsRecorded(w, name, 0, false, s);
    ClearedLoopReportsAnyReply(w, name, 0, s);
    var made := CourseFrom(w, name, 0, s).made;
    assert Last(made) in made && made[0] in made;
    if |made| > 1 {
      assert made[0] == Retryable;
      assert (exists o :: o in made && o.Reply?) ==> Last(made).Reply?;
    } else {
      assert made == [made[0]];
    }
  }

  /** Fails for now at the first attempt and replies from the second on. */
  function FlakyWorker(): Worker<int> {
    Worker((_, s) => (false, s), (_, _, _) => false,
           (_, k, s) => (if k == 0 then Retryable else Reply(Some("ok")), s),
           (_, ok, s) => if ok then s + 1 else s - 1)
  }

  /** The reply of a recovered call is thrown away and recorded as a failure. */
  lemma RecoveredCallIsReportedFailed()
    ensures Execute(FlakyWorker(), "agent", 0) == (None, -1)
    ensures TryCleared(FlakyWorker(), "agent", 0, 0) == (Some("ok"), 1)
  {
    var w := FlakyWorker();
    NextAttempt(w, "agent", 0, false, 0);
    assert Settle(w, "agent", 1, true, Reply(Some("ok")), 0) == (None, -1);
    assert TryCleared(w, "agent", 1, 0) == (Some("ok"), 1);
  }
}
