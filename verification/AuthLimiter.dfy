/** The per-address limiter of failed authentications: a pruned list of instants that must stand for
    the full log, and a block that is set from it.  */
module AuthLimiters {

  datatype Settings = Settings(maxFails: int, window: int, blockWindow: int) {
    predicate Valid() { maxFails >= 1 && window >= 1 && blockWindow >= 1 }
  }

  datatype Entry = Entry(count: nat, times: seq<int>)

  datatype Limiter = Limiter(failures: map<string, Entry>, blocked: map<string, int>)

  datatype Failure = Failure(ip: string, now: int)

  // ---------------------------------------------------------------- single operations

  /** The instants strictly after the cutoff. */
  function Newer(times: seq<int>, cutoff: int): (kept: seq<int>) {
    if times == [] then []
    else
      var t, earlier := times[|times| - 1], Newer(times[..|times| - 1], cutoff);
      if t > cutoff then earlier + [t] else earlier
  }

  function Recorded(cfg: Settings, l: Limiter, ip: string, now: int): Limiter {
    if ip !in l.failures then l.(failures := l.failures[ip := Entry(1, [now])])
    else
      var valid := Newer(l.failures[ip].times, now - cfg.window) + [now];
      Limiter(l.failures[ip := Entry(|valid|, valid)],
              if |valid| > cfg.maxFails then l.blocked[ip := now] else l.blocked)
  }

  predicate Blocked(cfg: Settings, l: Limiter, ip: string, now: int) {
    ip in l.blocked && now < l.blocked[ip] + cfg.blockWindow
  }

  // ---------------------------------------------------------------- the full log

  function Run(cfg: Settings, log: seq<Failure>): Limiter {
    if log == [] then Limiter(map[], map[])
    else
      var f := log[|log| - 1];
      Recorded(cfg, Run(cfg, log[..|log| - 1]), f.ip, f.now)
  }

  /** Every failure of an address, ever. */
  function Times(log: seq<Failure>, ip: string): seq<int> {
    if log == [] then []
    else
      var f := log[|log| - 1];
      if f.ip == ip then Times(log[..|log| - 1], ip) + [f.now] else Times(log[..|log| - 1], ip)
  }

  ghost predicate Chronological(log: seq<Failure>) {
    forall i, j :: 0 <= i < j < |log| ==> log[i].now <= log[j].now
  }

  /** Failure `i` of the log was one too many: with it, more than `maxFails` failures of its address
      lie within the window that ends there.  */
  ghost predicate Exceeds(cfg: Settings, log: seq<Failure>, i: nat)
    requires i < |log|
  {
    |Newer(Times(log[..i + 1], log[i].ip), log[i].now - cfg.window)| > cfg.maxFails
  }

  lemma {:induction false} NewerTwice(times: seq<int>, early: int, late: int)
    requires early <= late
    ensures Newer(Newer(times, early), late) == Newer(times, late)
  {
    if times != [] {
      var last := |times| - 1;
      NewerTwice(times[..last], early, late);
      if times[last] > early {
        NewerSnoc(Newer(times[..last], early), times[last], late);
      }
    }
  }

  lemma NewerSnoc(times: seq<int>, t: int, cutoff: int)
    ensures Newer(times + [t], cutoff) == if t > cutoff then Newer(times, cutoff) + [t] else Newer(times, cutoff)
  {
    assert (times + [t])[..|times|] == times;
  }

  lemma {:induction false} TimesAreBounded(log: seq<Failure>, ip: string, now: int)
    requires forall i :: 0 <= i < |log| ==> log[i].now <= now
    ensures forall k :: 0 <= k < |Times(log, ip)| ==> Times(log, ip)[k] <= now
  {
    if log != [] {
      TimesAreBounded(log[..|log| - 1], ip, now);
    }
  }

  /** What the limiter holds for an address whose failures, ever, are `times`. */
  ghost predicate Holds(cfg: Settings, l: Limiter, ip: string, times: seq<int>) {
    && (ip in l.failures <==> times != [])
    && (times != [] ==>
          && l.failures[ip].times == Newer(times, times[|times| - 1] - cfg.window)
          && l.failures[ip].count == |l.failures[ip].times|)
  }

  ghost predicate Agrees(cfg: Settings, log: seq<Failure>, ip: string) {
    Holds(cfg, Run(cfg, log), ip, Times(log, ip))
  }

  /** Pruning what was already pruned at an earlier failure loses nothing the window still needs. */
  lemma PruneAgain(times: seq<int>, now: int, window: int)
    requires times != [] && times[|times| - 1] <= now && window >= 1
    ensures Newer(Newer(times, times[|times| - 1] - window), now - window) + [now] == Newer(times + [now], now - window)
  {
    NewerTwice(times, times[|times| - 1] - window, now - window);
    NewerSnoc(times, now, now - window);
  }

  lemma FirstOfAll(now: int, window: int)
    requires window >= 1
    ensures [now] == Newer([] + [now], now - window)
  {
    NewerSnoc([], now, now - window);
  }

  lemma FailureKeepsAgreement(cfg: Settings, l: Limiter, ip: string, times: seq<int>, now: int)
    requires cfg.Valid() && Holds(cfg, l, ip, times)
    requires times != [] ==> times[|times| - 1] <= now
    ensures Holds(cfg, Recorded(cfg, l, ip, now), ip, times + [now])
  {
    hide Newer;
    var all, entry := times + [now], Recorded(cfg, l, ip, now).failures[ip];
    assert all[|all| - 1] == now;
    if times == [] {
      assert entry == Entry(1, [now]);
      FirstOfAll(now, cfg.window);
    } else {
      var held := l.failures[ip].times;
      assert entry.times == Newer(held, now - cfg.window) + [now] && entry.count == |entry.times|;
      PruneAgain(times, now, cfg.window);
    }
  }

  /** The pruned list stands for the full log: after every log, an address's list is exactly the part
      of all its failures that lies in the window of the latest one, and its count is that length.  */
  lemma {:induction false} PrunedListIsWindow(cfg: Settings, log: seq<Failure>, ip: string)
    requires cfg.Valid() && Chronological(log)
    ensures Agrees(cfg, log, ip)
  {
    if log != [] {
      var before, f := log[..|log| - 1], log[|log| - 1];
      PrunedListIsWindow(cfg, before, ip);
      if f.ip == ip {
        TimesAreBounded(before, ip, f.now);
        FailureKeepsAgreement(cfg, Run(cfg, before), ip, Times(before, ip), f.now);
      }
    }
  }

  /** The failures of an address up to failure `i` that lie in the window which ends there. */
  ghost function InWindow(cfg: Settings, log: seq<Failure>, ip: string, now: int): set<nat> {
    set k: nat | k < |log| && log[k].ip == ip && log[k].now > now - cfg.window
  }

  lemma {:induction false} WindowIsCounted(cfg: Settings, log: seq<Failure>, ip: string, now: int)
    ensures |Newer(Times(log, ip), now - cfg.window)| == |InWindow(cfg, log, ip, now)|
  {
    assert log == [] ==> InWindow(cfg, log, ip, now) == {};
    hide InWindow;
    if log != [] {
      var last, before := |log| - 1, log[..|log| - 1];
      WindowIsCounted(cfg, before, ip, now);
      WindowGrows(cfg, log, ip, now);
      if log[last].ip == ip {
        NewerSnoc(Times(before, ip), log[last].now, now - cfg.window);
      }
    }
  }

  lemma WindowGrows(cfg: Settings, log: seq<Failure>, ip: string, now: int)
    requires log != []
    ensures var last, before := |log| - 1, log[..|log| - 1];
            |InWindow(cfg, log, ip, now)| == |InWindow(cfg, before, ip, now)|
                                             + if log[last].ip == ip && log[last].now > now - cfg.window then 1 else 0
  {
    var last, earlier := |log| - 1, InWindow(cfg, log[..|log| - 1], ip, now);
    assert InWindow(cfg, log, ip, now) ==
           if log[last].ip == ip && log[last].now > now - cfg.window then earlier + {last} else earlier;
  }

  /** A failure is one too many exactly if more than `maxFails` failures of its address, itself included,
      happened less than a window before it.  */
  lemma ExceedsIsCounted(cfg: Settings, log: seq<Failure>, i: nat)
    requires i < |log|
    ensures Exceeds(cfg, log, i) <==>
            |set k: nat | k <= i && log[k].ip == log[i].ip && log[k].now > log[i].now - cfg.window| > cfg.maxFails
  {
    var upTo := log[..i + 1];
    WindowIsCounted(cfg, upTo, log[i].ip, log[i].now);
    assert InWindow(cfg, upTo, log[i].ip, log[i].now) ==
           set k: nat | k <= i && log[k].ip == log[i].ip && log[k].now > log[i].now - cfg.window;
  }

  /** One failure blocks its address exactly when it is one too many in the full log. */
  lemma BlockFollowsLog(cfg: Settings, log: seq<Failure>)
    requires cfg.Valid() && Chronological(log) && log != []
    ensures var before, f := log[..|log| - 1], log[|log| - 1];
            Run(cfg, log).blocked ==
            if Exceeds(cfg, log, |log| - 1) then Run(cfg, before).blocked[f.ip := f.now] else Run(cfg, before).blocked
  {
    var before, f := log[..|log| - 1], log[|log| - 1];
    assert log[..|log|] == log;
    PrunedListIsWindow(cfg, before, f.ip);
    PrunedListIsWindow(cfg, log, f.ip);
  }

  /** `i` is the last of an address's failures that was one too many. */
  ghost predicate LastExcess(cfg: Settings, log: seq<Failure>, ip: string, i: nat) {
    && i < |log| && log[i].ip == ip && Exceeds(cfg, log, i)
    && forall j: nat :: i < j < |log| && log[j].ip == ip ==> !Exceeds(cfg, log, j)
  }

  lemma ExceedsInPrefix(cfg: Settings, log: seq<Failure>, i: nat, n: nat)
    requires i < n <= |log|
    ensures Exceeds(cfg, log, i) <==> Exceeds(cfg, log[..n], i)
  {
    assert log[..n][..i + 1] == log[..i + 1];
  }

  lemma {:induction false} BlockedSince(cfg: Settings, log: seq<Failure>, ip: string) returns (i: nat)
    requires cfg.Valid() && Chronological(log)
    ensures ip in Run(cfg, log).blocked ==> LastExcess(cfg, log, ip, i) && Run(cfg, log).blocked[ip] == log[i].now
    ensures ip !in Run(cfg, log).blocked ==> forall j: nat :: j < |log| && log[j].ip == ip ==> !Exceeds(cfg, log, j)
  {
    hide Exceeds, Recorded;
    i := 0;
    if log != [] {
      var before, last := log[..|log| - 1], |log| - 1;
      i := BlockedSince(cfg, before, ip);
      BlockFollowsLog(cfg, log);
      forall j: nat | j < last ensures Exceeds(cfg, log, j) <==> Exceeds(cfg, before, j) {
        ExceedsInPrefix(cfg, log, j, last);
      }
      if log[last].ip == ip && Exceeds(cfg, log, last) {
        i := last;
      }
    }
  }

  /** An address is blocked exactly while some logged failure of its own was one too many and the
      block it earned is not over.  */
  lemma BlockedIsDecidedByLog(cfg: Settings, log: seq<Failure>, ip: string, now: int)
    requires cfg.Valid() && Chronological(log)
    ensures Blocked(cfg, Run(cfg, log), ip, now) <==>
            exists i: nat :: i < |log| && log[i].ip == ip && Exceeds(cfg, log, i) && now < log[i].now + cfg.blockWindow
  {
    var last := BlockedSince(cfg, log, ip);
    if i: nat :| i < |log| && log[i].ip == ip && Exceeds(cfg, log, i) && now < log[i].now + cfg.blockWindow {
      assert i <= last;
      assert log[i].now <= log[last].now;
    }
  }

  // ---------------------------------------------------------------- authentication

  datatype Verdict = Passed | Unauthorized | TooManyRequests

  /** `authCheck` asks for a block first, so only requests that are not blocked get to fail. */
  function Answer(cfg: Settings, l: Limiter, ip: string, now: int, valid: bool): Verdict {
    if Blocked(cfg, l, ip, now) then TooManyRequests else if valid then Passed else Unauthorized
  }

  /** The answer is decided by the log: during the block of one failure too many of its address a request
      is turned away, its token valid or not; at any other time the token decides.  */
  lemma AnswerIsDecidedByLog(cfg: Settings, log: seq<Failure>, ip: string, now: int, valid: bool)
    requires cfg.Valid() && Chronological(log)
    ensures var blocked := exists i: nat :: i < |log| && log[i].ip == ip && Exceeds(cfg, log, i) &&
                                            now < log[i].now + cfg.blockWindow;
            Answer(cfg, Run(cfg, log), ip, now, valid) ==
            if blocked then TooManyRequests else if valid then Passed else Unauthorized
  {
    BlockedIsDecidedByLog(cfg, log, ip, now);
  }

  /** What a request with a bad token found when it asked: the failures recorded by then. */
  datatype Asked = Asked(ip: string, at: int, seen: nat)

  /** `asked[k]` is the question behind failure `k`; a pending request has asked but not yet recorded. */
  datatype Server = Server(log: seq<Failure>, asked: seq<Asked>, pending: map<nat, Asked>)

  /** Requests run concurrently: `authCheck` takes the lock once to ask and once to record a failure,
      and reads the clock each time.  Requests are numbered.  */
  datatype Move = Ask(id: nat, ip: string, now: int, valid: bool) | Fail(id: nat, now: int)

  predicate Enabled(s: Server, m: Move) {
    if m.Ask? then m.id !in s.pending else m.id in s.pending
  }

  function Step(cfg: Settings, s: Server, m: Move): Server
    requires Enabled(s, m)
  {
    match m
    case Ask(id, ip, now, valid) =>
      if Answer(cfg, Run(cfg, s.log), ip, now, valid).Unauthorized?
      then s.(pending := s.pending[id := Asked(ip, now, |s.log|)]) else s
    case Fail(id, now) =>
      var a := s.pending[id];
      Server(s.log + [Failure(a.ip, now)], s.asked + [a], s.pending - {id})
  }

  predicate Possible(cfg: Settings, moves: seq<Move>)
    decreases |moves|, 0
  {
    moves == [] ||
    (Possible(cfg, moves[..|moves| - 1]) && Enabled(After(cfg, moves[..|moves| - 1]), moves[|moves| - 1]))
  }

  function After(cfg: Settings, moves: seq<Move>): Server
    requires Possible(cfg, moves)
    decreases |moves|, 1
  {
    if moves == [] then Server([], [], map[])
    else Step(cfg, After(cfg, moves[..|moves| - 1]), moves[|moves| - 1])
  }

  ghost predicate Ordered(moves: seq<Move>) {
    forall i, j :: 0 <= i < j < |moves| ==> moves[i].now <= moves[j].now
  }

  /** The question was asked after all it saw, and was not answered with a block. */
  ghost predicate WasLetThrough(cfg: Settings, log: seq<Failure>, a: Asked) {
    && a.seen <= |log| && !Blocked(cfg, Run(cfg, log[..a.seen]), a.ip, a.at)
    && forall k :: 0 <= k < a.seen ==> log[k].now <= a.at
  }

  ghost predicate Consistent(cfg: Settings, s: Server, now: int) {
    && |s.asked| == |s.log| && Chronological(s.log) && (forall k :: 0 <= k < |s.log| ==> s.log[k].now <= now)
    && (forall k :: 0 <= k < |s.log| ==> s.asked[k].ip == s.log[k].ip && s.asked[k].at <= s.log[k].now)
    && (forall k :: 0 <= k < |s.log| ==> WasLetThrough(cfg, s.log[..k], s.asked[k]))
    && (forall id :: id in s.pending ==> WasLetThrough(cfg, s.log, s.pending[id]) && s.pending[id].at <= now)
  }

  lemma LongerLog(cfg: Settings, log: seq<Failure>, f: Failure, a: Asked)
    requires WasLetThrough(cfg, log, a)
    ensures WasLetThrough(cfg, log + [f], a)
  {
    assert (log + [f])[..a.seen] == log[..a.seen];
  }

  lemma FailIsConsistent(cfg: Settings, s: Server, m: Move)
    requires Consistent(cfg, s, m.now) && m.Fail? && Enabled(s, m)
    ensures Consistent(cfg, Step(cfg, s, m), m.now)
  {
    var s' := Step(cfg, s, m);
    forall k | 0 <= k < |s'.log| ensures WasLetThrough(cfg, s'.log[..k], s'.asked[k]) {
      assert s'.log[..k] == if k < |s.log| then s.log[..k] else s.log;
    }
    forall id | id in s'.pending ensures WasLetThrough(cfg, s'.log, s'.pending[id]) {
      LongerLog(cfg, s.log, s'.log[|s.log|], s.pending[id]);
    }
  }

  lemma AskIsConsistent(cfg: Settings, s: Server, m: Move)
    requires Consistent(cfg, s, m.now) && m.Ask? && Enabled(s, m)
    ensures Consistent(cfg, Step(cfg, s, m), m.now)
  {
    assert s.log[..|s.log|] == s.log;
  }

  lemma {:induction false} AlwaysConsistent(cfg: Settings, moves: seq<Move>, now: int)
    requires Possible(cfg, moves) && Ordered(moves) && forall k :: 0 <= k < |moves| ==> moves[k].now <= now
    ensures Consistent(cfg, After(cfg, moves), now)
  {
    hide WasLetThrough, Step;
    if moves != [] {
      var before, m := moves[..|moves| - 1], moves[|moves| - 1];
      AlwaysConsistent(cfg, before, m.now);
      if m.Fail? {
        FailIsConsistent(cfg, After(cfg, before), m);
      } else {
        AskIsConsistent(cfg, After(cfg, before), m);
      }
    }
  }

  /** A question asked after a failure that earned a block is let through only once that block is over. */
  lemma LetThroughAfterBlock(cfg: Settings, log: seq<Failure>, a: Asked, i: nat)
    requires cfg.Valid() && Chronological(log) && WasLetThrough(cfg, log, a)
    requires i < a.seen && log[i].ip == a.ip && Exceeds(cfg, log, i)
    ensures a.at >= log[i].now + cfg.blockWindow
  {
    hide Exceeds, Run, Blocked;
    var seen := log[..a.seen];
    ExceedsInPrefix(cfg, log, i, a.seen);
    BlockedIsDecidedByLog(cfg, seen, a.ip, a.at);
    assert Exceeds(cfg, seen, i) && seen[i] == log[i];
  }

  /** A failure that comes while an earlier one of its address still blocks was let through before that
      one was recorded: only requests already past the question can lengthen a block.  */
  lemma BlocksOverlapOnlyByRace(cfg: Settings, moves: seq<Move>, i: nat, j: nat)
    requires cfg.Valid() && Possible(cfg, moves) && Ordered(moves) && i < j < |After(cfg, moves).log|
    ensures var s := After(cfg, moves);
            && |s.asked| == |s.log|
            && (s.log[i].ip == s.log[j].ip && Exceeds(cfg, s.log, i) ==>
                  s.log[j].now >= s.log[i].now + cfg.blockWindow || s.asked[j].seen <= i)
  {
    hide Exceeds, Run, Blocked;
    AlwaysConsistent(cfg, moves, moves[|moves| - 1].now);
    var s := After(cfg, moves);
    var earlier := s.log[..j];
    if s.log[i].ip == s.log[j].ip && Exceeds(cfg, s.log, i) && s.asked[j].seen > i {
      ExceedsInPrefix(cfg, s.log, i, j);
      LetThroughAfterBlock(cfg, earlier, s.asked[j], i);
    }
  }

  lemma OneMoreMove(cfg: Settings, moves: seq<Move>, m: Move)
    requires Possible(cfg, moves) && Enabled(After(cfg, moves), m)
    ensures Possible(cfg, moves + [m]) && After(cfg, moves + [m]) == Step(cfg, After(cfg, moves), m)
  {
    assert (moves + [m])[..|moves|] == moves;
  }

  lemma OneMoreTime(log: seq<Failure>, f: Failure)
    ensures Times(log + [f], f.ip) == Times(log, f.ip) + [f.now]
  {
    assert (log + [f])[..|log|] == log;
  }

  lemma {:induction false} NewerOfAll(times: seq<int>, cutoff: int)
    requires forall k :: 0 <= k < |times| ==> times[k] > cutoff
    ensures Newer(times, cutoff) == times
  {
    if times != [] {
      NewerOfAll(times[..|times| - 1], cutoff);
    }
  }

  // ---------------------------------------------------------------- how many requests may be under way

  /** The requests of an address that are past the question and have yet to record their failure. */
  function UnderWay(s: Server, ip: string): set<nat> {
    set id | id in s.pending && s.pending[id].ip == ip
  }

  /** At no point are more than `c` requests of one address under way. */
  ghost predicate AtMost(cfg: Settings, moves: seq<Move>, c: nat)
    requires Possible(cfg, moves)
  {
    && (forall ip :: |UnderWay(After(cfg, moves), ip)| <= c)
    && (moves != [] ==> AtMost(cfg, moves[..|moves| - 1], c))
  }

  /** No failure is recorded during a block that an earlier failure of its address has earned. */
  ghost predicate BlocksHold(cfg: Settings, log: seq<Failure>) {
    forall i: nat, j: nat :: i < j < |log| && log[i].ip == log[j].ip && Exceeds(cfg, log, i) ==>
                               log[j].now >= log[i].now + cfg.blockWindow
  }

  /** Nothing of its own address was recorded between the question and the end of the log. */
  ghost predicate SawItsOwn(log: seq<Failure>, a: Asked) {
    forall k: nat :: a.seen <= k < |log| ==> log[k].ip != a.ip
  }

  ghost predicate AllSawTheirOwn(s: Server) {
    && |s.asked| == |s.log| && (forall id :: id in s.pending ==> SawItsOwn(s.log, s.pending[id]))
    && forall j :: 0 <= j < |s.log| ==> s.asked[j].ip == s.log[j].ip && SawItsOwn(s.log[..j], s.asked[j])
  }

  lemma FailAlone(s: Server, m: Move, cfg: Settings)
    requires AllSawTheirOwn(s) && m.Fail? && Enabled(s, m) && |UnderWay(s, s.pending[m.id].ip)| <= 1
    ensures AllSawTheirOwn(Step(cfg, s, m))
  {
    var s', own := Step(cfg, s, m), UnderWay(s, s.pending[m.id].ip);
    assert |own - {m.id}| == |own| - 1;
    forall id | id in s'.pending ensures SawItsOwn(s'.log, s'.pending[id]) {
      assert id !in own;
    }
    forall j | 0 <= j < |s'.log| ensures s'.asked[j].ip == s'.log[j].ip && SawItsOwn(s'.log[..j], s'.asked[j]) {
      assert s'.log[..j] == if j < |s.log| then s.log[..j] else s.log;
    }
  }

  lemma {:induction false} OneAtATimeSeesItsOwn(cfg: Settings, moves: seq<Move>)
    requires Possible(cfg, moves) && AtMost(cfg, moves, 1)
    ensures AllSawTheirOwn(After(cfg, moves))
  {
    if moves != [] {
      var before, m := moves[..|moves| - 1], moves[|moves| - 1];
      OneAtATimeSeesItsOwn(cfg, before);
      if m.Fail? {
        FailAlone(After(cfg, before), m, cfg);
      }
    }
  }

  /** With one request of each address under way at a time, blocks hold. */
  lemma BlocksDoNotOverlap(cfg: Settings, moves: seq<Move>)
    requires cfg.Valid() && Possible(cfg, moves) && Ordered(moves) && AtMost(cfg, moves, 1)
    ensures BlocksHold(cfg, After(cfg, moves).log)
  {
    OneAtATimeSeesItsOwn(cfg, moves);
    var s := After(cfg, moves);
    forall i: nat, j: nat | i < j < |s.log| && s.log[i].ip == s.log[j].ip && Exceeds(cfg, s.log, i)
      ensures s.log[j].now >= s.log[i].now + cfg.blockWindow
    {
      BlocksOverlapOnlyByRace(cfg, moves, i, j);
      assert s.log[..j][i] == s.log[i];
    }
  }

  // ---------------------------------------------------------------- two requests at once

  /** `n` failures of one address in one instant. */
  function Burst(n: nat): seq<Failure> {
    if n == 0 then [] else Burst(n - 1) + [Failure("", 0)]
  }

  lemma OneMoreInBurst(n: nat)
    ensures Burst(n + 1) == Burst(n) + [Failure("", 0)]
  {
  }

  lemma {:induction false} BurstIsLong(n: nat)
    ensures |Burst(n)| == n && |Times(Burst(n), "")| == n
    ensures forall k :: 0 <= k < n ==> Burst(n)[k] == Failure("", 0) && Times(Burst(n), "")[k] == 0
  {
    assert Burst(0) == [] && Times([], "") == [];
    hide Times, Burst;
    if n > 0 {
      var k: nat := n - 1;
      BurstIsLong(k);
      OneMoreInBurst(k);
      OneMoreTime(Burst(k), Failure("", 0));
    }
  }

  /** After a burst, a failure within the window is one too many exactly if the burst used up what is allowed. */
  lemma AfterBurstExceeds(cfg: Settings, n: nat, t: nat)
    requires cfg.Valid() && t < cfg.window
    ensures var log := Burst(n) + [Failure("", t)];
            |log| == n + 1 && (Exceeds(cfg, log, n) <==> n + 1 > cfg.maxFails)
  {
    hide Newer, Times, Run, Burst;
    BurstIsLong(n);
    var log := Burst(n) + [Failure("", t)];
    assert log[..n + 1] == log && log[n] == Failure("", t);
    OneMoreTime(Burst(n), Failure("", t));
    NewerOfAll(Times(log, ""), t - cfg.window);
  }

  lemma BlockAfterBurst(cfg: Settings, n: nat, t: nat)
    requires cfg.Valid() && t < cfg.window
    ensures Run(cfg, Burst(n) + [Failure("", t)]).blocked ==
            if n + 1 > cfg.maxFails then Run(cfg, Burst(n)).blocked["" := t] else Run(cfg, Burst(n)).blocked
  {
    hide Exceeds, Run, Burst;
    BurstIsLong(n);
    AfterBurstExceeds(cfg, n, t);
    var log := Burst(n) + [Failure("", t)];
    assert log[..|log| - 1] == Burst(n);
    BlockFollowsLog(cfg, log);
  }

  /** The server before any request. */
  lemma NothingYet(cfg: Settings)
    ensures Burst(0) == [] && Run(cfg, []).blocked == map[]
    ensures Possible(cfg, []) && After(cfg, []) == Server([], [], map[]) && AtMost(cfg, [], 2)
  {
    FewUnderWay(Server([], [], map[]));
  }

  lemma {:induction false} BurstBlocks(cfg: Settings, n: nat)
    requires cfg.Valid()
    ensures Run(cfg, Burst(n)).blocked == if n <= cfg.maxFails then map[] else map["" := 0]
  {
    hide Run, Burst, Recorded;
    NothingYet(cfg);
    if n > 0 {
      var k: nat := n - 1;
      BurstBlocks(cfg, k);
      BlockAfterBurst(cfg, k, 0);
      OneMoreInBurst(k);
    }
  }

  /** Requests one after the other use up what is allowed without earning a block. */
  lemma {:induction false} UseUp(cfg: Settings, n: nat) returns (moves: seq<Move>)
    requires cfg.Valid() && n <= cfg.maxFails
    ensures Possible(cfg, moves) && AtMost(cfg, moves, 2) && forall m :: m in moves ==> m.now == 0
    ensures After(cfg, moves).log == Burst(n) && After(cfg, moves).pending == map[]
  {
    moves := [];
    hide Run, Burst, Possible, After, AtMost, Step;
    NothingYet(cfg);
    if n > 0 {
      var k: nat := n - 1;
      moves := UseUp(cfg, k);
      BurstBlocks(cfg, k);
      OneMoreInBurst(k);
      moves := AskAndStay(cfg, moves, 0);
      moves := RecordIt(cfg, moves, 0, 0);
    }
  }

  /** A request with a bad token gets past the question at instant 0. */
  lemma AskAndStay(cfg: Settings, moves: seq<Move>, id: nat) returns (moves': seq<Move>)
    requires Possible(cfg, moves) && AtMost(cfg, moves, 2)
    requires var s := After(cfg, moves);
             id !in s.pending && |s.pending| <= 1 && Run(cfg, s.log).blocked == map[]
    ensures moves' == moves + [Ask(id, "", 0, false)] && Possible(cfg, moves') && AtMost(cfg, moves', 2)
    ensures var s := After(cfg, moves);
            After(cfg, moves') == s.(pending := s.pending[id := Asked("", 0, |s.log|)])
  {
    hide Run;
    moves' := moves + [Ask(id, "", 0, false)];
    OneMoreMove(cfg, moves, Ask(id, "", 0, false));
    FewUnderWay(After(cfg, moves'));
    assert moves'[..|moves'| - 1] == moves;
  }

  lemma RecordIt(cfg: Settings, moves: seq<Move>, id: nat, t: int) returns (moves': seq<Move>)
    requires Possible(cfg, moves) && AtMost(cfg, moves, 2)
    requires var s := After(cfg, moves);
             id in s.pending && s.pending[id].ip == "" && |s.pending| <= 2
    ensures moves' == moves + [Fail(id, t)] && Possible(cfg, moves') && AtMost(cfg, moves', 2)
    ensures var s, s' := After(cfg, moves), After(cfg, moves');
            s'.log == s.log + [Failure("", t)] && s'.pending == s.pending - {id}
  {
    moves' := moves + [Fail(id, t)];
    OneMoreMove(cfg, moves, Fail(id, t));
    FewUnderWay(After(cfg, moves'));
    assert moves'[..|moves'| - 1] == moves;
  }

  lemma FewUnderWay(s: Server)
    requires |s.pending| <= 2
    ensures forall ip :: |UnderWay(s, ip)| <= 2
  {
    forall ip ensures |UnderWay(s, ip)| <= 2 {
      var some, all := UnderWay(s, ip), s.pending.Keys;
      assert all == some + (all - some);
    }
  }

  /** With two requests under way at once the second moves the block on, whatever the settings: they ask
      when everything allowed is used up, and record at instants 0 and `t`.  */
  lemma RaceMovesBlock(cfg: Settings, t: nat) returns (moves: seq<Move>)
    requires cfg.Valid() && t < cfg.window && t < cfg.blockWindow
    ensures Possible(cfg, moves) && Ordered(moves) && AtMost(cfg, moves, 2)
    ensures var log, first := After(cfg, moves).log, cfg.maxFails;
            && |log| == first + 2 && log[first] == Failure("", 0) && log[first + 1] == Failure("", t)
            && Exceeds(cfg, log, first) && Exceeds(cfg, log, first + 1) && !BlocksHold(cfg, log)
            && Run(cfg, log[..first + 1]).blocked == map["" := 0] && Run(cfg, log).blocked == map["" := t]
  {
    hide Run, Burst, Possible, After, AtMost, Step, Exceeds, BlocksHold;
    var n: nat := cfg.maxFails;
    moves := UseUp(cfg, n);
    BurstBlocks(cfg, n);
    moves := AskAndStay(cfg, moves, 0);
    moves := AskAndStay(cfg, moves, 1);
    moves := RecordIt(cfg, moves, 0, 0);
    moves := RecordIt(cfg, moves, 1, t);
    OneMoreInBurst(n);
    RaceLog(cfg, n, t);
    LateFailure(cfg, After(cfg, moves).log, n, n + 1);
  }

  lemma LateFailure(cfg: Settings, log: seq<Failure>, i: nat, j: nat)
    requires i < j < |log| && log[i].ip == log[j].ip && Exceeds(cfg, log, i)
    requires log[j].now < log[i].now + cfg.blockWindow
    ensures !BlocksHold(cfg, log)
  {
  }

  lemma RaceLog(cfg: Settings, n: nat, t: nat)
    requires cfg.Valid() && n == cfg.maxFails && t < cfg.window && t < cfg.blockWindow
    ensures var log := Burst(n + 1) + [Failure("", t)];
            && |log| == n + 2 && log[..n + 1] == Burst(n + 1)
            && log[n] == Failure("", 0) && log[n + 1] == Failure("", t)
            && Exceeds(cfg, log, n) && Exceeds(cfg, log, n + 1)
            && Run(cfg, log[..n + 1]).blocked == map["" := 0] && Run(cfg, log).blocked == map["" := t]
  {
    hide Run, Exceeds, Burst;
    var log := Burst(n + 1) + [Failure("", t)];
    BurstIsLong(n + 1);
    assert log[..n + 1] == Burst(n + 1);
    AfterBurstExceeds(cfg, n + 1, t);
    assert Exceeds(cfg, log, n) by {
      OneMoreInBurst(n);
      AfterBurstExceeds(cfg, n, 0);
      ExceedsInPrefix(cfg, log, n, n + 1);
    }
    BurstBlocks(cfg, n + 1);
    BlockAfterBurst(cfg, n + 1, t);
  }

  /** Blocks hold in every interleaving exactly if callers let at most one request of each address be
      under way at a time.  */
  lemma BlocksHoldIffOneAtATime(cfg: Settings, c: nat)
    requires cfg.Valid()
    ensures (forall moves :: Possible(cfg, moves) && Ordered(moves) && AtMost(cfg, moves, c) ==>
                               BlocksHold(cfg, After(cfg, moves).log)) <==> c <= 1
  {
    if c <= 1 {
      forall moves | Possible(cfg, moves) && Ordered(moves) && AtMost(cfg, moves, c)
        ensures BlocksHold(cfg, After(cfg, moves).log)
      {
        FewerAtOnce(cfg, moves, c, 1);
        BlocksDoNotOverlap(cfg, moves);
      }
    } else {
      var moves := RaceMovesBlock(cfg, 0);
      FewerAtOnce(cfg, moves, 2, c);
    }
  }

  lemma {:induction false} FewerAtOnce(cfg: Settings, moves: seq<Move>, c: nat, c': nat)
    requires Possible(cfg, moves) && AtMost(cfg, moves, c) && c <= c'
    ensures AtMost(cfg, moves, c')
  {
    if moves != [] {
      FewerAtOnce(cfg, moves[..|moves| - 1], c, c');
    }
  }

  // ---------------------------------------------------------------- the limiter itself

  class AuthRateLimiter {
    const cfg: Settings
    var failures: map<string, Entry>
    var blocked: map<string, int>

    constructor (maxFails: int, window: int, blockSeconds: int)
      ensures cfg.Valid() && Contents() == Limiter(map[], map[])
      ensures cfg.maxFails == if maxFails <= 0 then 5 else maxFails
      ensures cfg.window == if window <= 0 then 60_000_000_000 else window
      ensures cfg.blockWindow == (if blockSeconds <= 0 then 300 else blockSeconds) * 1_000_000_000
    {
      cfg := Settings(if maxFails <= 0 then 5 else maxFails,
                      if window <= 0 then 60_000_000_000 else window,
                      (if blockSeconds <= 0 then 300 else blockSeconds) * 1_000_000_000);
      failures, blocked := map[], map[];
    }

    function Contents(): Limiter
      reads this
    {
      Limiter(failures, blocked)
    }

    method RecordFailure(ip: string, now: int)
      modifies this
      ensures Contents() == Recorded(cfg, old(Contents()), ip, now)
    {
      if ip !in failures {
        failures := failures[ip := Entry(1, [now])];
        return;
      }
      var times := failures[ip].times;
      var cutoff := now - cfg.window;
      var valid := [];
      for k := 0 to |times|
        invariant valid == Newer(times[..k], cutoff)
      {
        assert times[..k + 1][..k] == times[..k];
        if times[k] > cutoff {
          valid := valid + [times[k]];
        }
      }
      assert times[..|times|] == times;
      valid := valid + [now];
      failures := failures[ip := Entry(|valid|, valid)];
      if failures[ip].count > cfg.maxFails {
        blocked := blocked[ip := now];
      }
    }

    method IsBlocked(ip: string, now: int) returns (b: bool)
      ensures b <==> Blocked(cfg, Contents(), ip, now)
    {
      if ip in blocked {
        if now < blocked[ip] + cfg.blockWindow {
          return true;
        }
      }
      return false;
    }

    /** The limiter's part of `authCheck`, for a limiter that so far holds a given log.  Between its
        question and its own failure, `meanwhile` are the failures other requests record.  */
    method AuthCheck(ip: string, valid: bool, now: int, meanwhile: seq<Failure>, later: int, ghost log: seq<Failure>)
      returns (v: Verdict, ghost log': seq<Failure>)
      requires Contents() == Run(cfg, log)
      modifies this
      ensures v == Answer(cfg, Run(cfg, log), ip, now, valid)
      ensures log' == if v.Unauthorized? then log + meanwhile + [Failure(ip, later)] else log
      ensures Contents() == Run(cfg, log')
    {
      log' := log;
      var isBlocked := IsBlocked(ip, now);
      if isBlocked {
        return TooManyRequests, log';
      }
      if !valid {
        assert log + meanwhile[..0] == log;
        for k := 0 to |meanwhile|
          invariant Contents() == Run(cfg, log + meanwhile[..k])
        {
          assert (log + meanwhile[..k + 1])[..|log| + k] == log + meanwhile[..k];
          RecordFailure(meanwhile[k].ip, meanwhile[k].now);
        }
        assert meanwhile[..|meanwhile|] == meanwhile;
        log' := log + meanwhile + [Failure(ip, later)];
        assert log'[..|log| + |meanwhile|] == log + meanwhile;
        RecordFailure(ip, later);
        return Unauthorized, log';
      }
      return Passed, log';
    }
  }
}
