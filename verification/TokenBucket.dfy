/** The token bucket that limits kubectl and API calls.  Time is in seconds, over the reals.

    Concurrent `Wait` calls interleave only between attempts: one attempt, the locked part of the
    loop, is atomic.  A run is therefore a sequence of attempts, whoever makes them and whether or
    not the caller is cancelled before the next one.  */
module TokenBuckets {

  datatype Settings = Settings(rate: real, burst: int) {
    predicate Valid() { rate > 0.0 && burst >= 1 }
  }

  datatype Bucket = Bucket(tokens: real, last: real)

  datatype Attempt = Attempt(now: real, n: int)

  function Min(a: real, b: real): real { if a <= b then a else b }

  predicate InRange(cfg: Settings, b: Bucket) {
    0.0 <= b.tokens <= cfg.burst as real
  }

  /** The tokens an attempt at `now` would find. */
  function Level(cfg: Settings, b: Bucket, now: real): real {
    if now > b.last then Min(b.tokens + (now - b.last) * cfg.rate, cfg.burst as real) else b.tokens
  }

  /** One attempt: nothing is asked of the bucket for a non-positive amount. */
  function Try(cfg: Settings, b: Bucket, a: Attempt): (Bucket, bool) {
    if a.n <= 0 then (b, true)
    else
      var level, last := Level(cfg, b, a.now), if a.now > b.last then a.now else b.last;
      if level >= a.n as real then (Bucket(level - a.n as real, last), true)
      else (Bucket(level, last), false)
  }

  /** How long a refused attempt sleeps. */
  function Pause(cfg: Settings, b: Bucket, a: Attempt): real
    requires cfg.Valid()
  {
    (a.n as real - Level(cfg, b, a.now)) / cfg.rate
  }

  // ---------------------------------------------------------------- runs

  function After(cfg: Settings, b: Bucket, run: seq<Attempt>): Bucket {
    if run == [] then b else Try(cfg, After(cfg, b, run[..|run| - 1]), run[|run| - 1]).0
  }

  /** The tokens one attempt is granted. */
  function Taken(cfg: Settings, b: Bucket, a: Attempt): real {
    if a.n > 0 && Try(cfg, b, a).1 then a.n as real else 0.0
  }

  /** The tokens granted over a run. */
  function Granted(cfg: Settings, b: Bucket, run: seq<Attempt>): real {
    if run == [] then 0.0
    else
      var before := run[..|run| - 1];
      Granted(cfg, b, before) + Taken(cfg, After(cfg, b, before), run[|run| - 1])
  }

  ghost predicate Chronological(b: Bucket, run: seq<Attempt>) {
    && (forall i, j :: 0 <= i < j < |run| ==> run[i].now <= run[j].now)
    && (run != [] ==> b.last <= run[0].now)
  }

  /** The refill over two adjacent intervals is the refill over both. */
  lemma RefillAdds(rate: real, t0: real, t1: real, t2: real)
    requires rate > 0.0 && t0 <= t1 <= t2
    ensures (t2 - t0) * rate == (t1 - t0) * rate + (t2 - t1) * rate
    ensures (t1 - t0) * rate >= 0.0 && (t2 - t1) * rate >= 0.0
  {
  }

  lemma RefillIsBounded(cfg: Settings, b: Bucket, t: real, t': real)
    requires cfg.Valid() && InRange(cfg, b) && b.last <= t <= t'
    ensures 0.0 <= Level(cfg, b, t) <= Level(cfg, b, t') <= cfg.burst as real
    ensures Level(cfg, b, t') <= Level(cfg, b, t) + (t' - t) * cfg.rate
  {
    RefillAdds(cfg.rate, b.last, t, t');
    CapOfSum(b.tokens, (t - b.last) * cfg.rate, (t' - t) * cfg.rate, cfg.burst as real);
  }

  lemma CapOfSum(tokens: real, early: real, later: real, cap: real)
    requires 0.0 <= tokens <= cap && early >= 0.0 && later >= 0.0
    ensures 0.0 <= Min(tokens + early, cap) <= Min(tokens + (early + later), cap) <= cap
    ensures Min(tokens + (early + later), cap) <= Min(tokens + early, cap) + later
  {
  }

  /** Whatever happens, the bucket stays between empty and full, and never runs ahead of the clock. */
  lemma {:induction false} StaysInRange(cfg: Settings, b: Bucket, run: seq<Attempt>)
    requires cfg.Valid() && InRange(cfg, b) && Chronological(b, run)
    ensures InRange(cfg, After(cfg, b, run))
    ensures run != [] ==> After(cfg, b, run).last <= run[|run| - 1].now
  {
    if run != [] {
      var before, a := run[..|run| - 1], run[|run| - 1];
      StaysInRange(cfg, b, before);
      RefillIsBounded(cfg, After(cfg, b, before), a.now, a.now);
    }
  }

  /** What the limiter allows from `start` to `now`. */
  predicate Within(cfg: Settings, start: real, now: real, amount: real) {
    amount <= cfg.burst as real + (now - start) * cfg.rate
  }

  lemma LessIsWithin(cfg: Settings, start: real, now: real, less: real, amount: real)
    requires less <= amount && Within(cfg, start, now, amount)
    ensures Within(cfg, start, now, less)
  {
  }

  lemma TrySplitsLevel(cfg: Settings, b: Bucket, a: Attempt)
    requires cfg.Valid() && InRange(cfg, b) && b.last <= a.now
    ensures Level(cfg, Try(cfg, b, a).0, a.now) + Taken(cfg, b, a) == Level(cfg, b, a.now)
  {
    RefillIsBounded(cfg, b, a.now, a.now);
  }

  /** One more attempt keeps the balance of grants, level and elapsed time. */
  lemma BalanceStep(cfg: Settings, held: Bucket, a: Attempt, start: real, t: real, granted: real)
    requires cfg.Valid() && InRange(cfg, held) && held.last <= t <= a.now && start <= t
    requires Within(cfg, start, t, granted + Level(cfg, held, t))
    ensures Within(cfg, start, a.now, granted + Taken(cfg, held, a) + Level(cfg, Try(cfg, held, a).0, a.now))
  {
    RefillIsBounded(cfg, held, t, a.now);
    RefillAdds(cfg.rate, start, t, a.now);
    TrySplitsLevel(cfg, held, a);
  }

  /** Grants plus what is left in the bucket never exceed a full bucket and the time that has passed. */
  lemma {:induction false} Conservation(cfg: Settings, b: Bucket, run: seq<Attempt>)
    requires cfg.Valid() && InRange(cfg, b) && Chronological(b, run) && run != []
    ensures Within(cfg, run[0].now, run[|run| - 1].now,
                   Granted(cfg, b, run) + Level(cfg, After(cfg, b, run), run[|run| - 1].now))
  {
    var before, a := run[..|run| - 1], run[|run| - 1];
    var held := After(cfg, b, before);
    StaysInRange(cfg, b, before);
    assert Granted(cfg, b, run) == Granted(cfg, b, before) + Taken(cfg, held, a);
    assert After(cfg, b, run) == Try(cfg, held, a).0;
    if before == [] {
      RefillIsBounded(cfg, b, a.now, a.now);
      BalanceStep(cfg, b, a, a.now, a.now, 0.0);
    } else {
      Conservation(cfg, b, before);
      BalanceStep(cfg, After(cfg, b, before), a, run[0].now, before[|before| - 1].now, Granted(cfg, b, before));
    }
  }

  /** The parts of a run add up. */
  lemma {:induction false} RunsCompose(cfg: Settings, b: Bucket, first: seq<Attempt>, rest: seq<Attempt>)
    ensures After(cfg, b, first + rest) == After(cfg, After(cfg, b, first), rest)
    ensures Granted(cfg, b, first + rest) == Granted(cfg, b, first) + Granted(cfg, After(cfg, b, first), rest)
  {
    if rest == [] {
      assert first + rest == first;
    } else {
      var all := first + rest;
      assert all[..|all| - 1] == first + rest[..|rest| - 1];
      RunsCompose(cfg, b, first, rest[..|rest| - 1]);
    }
  }

  /** Conformance: between any two attempts i <= j of any run, at most
      burst + rate * (t_j - t_i) tokens are granted.  */
  lemma Conformance(cfg: Settings, b: Bucket, run: seq<Attempt>, i: nat, j: nat)
    requires cfg.Valid() && InRange(cfg, b) && Chronological(b, run) && i <= j < |run|
    ensures Within(cfg, run[i].now, run[j].now, Granted(cfg, b, run[..j + 1]) - Granted(cfg, b, run[..i]))
  {
    var held, part := After(cfg, b, run[..i]), run[i..j + 1];
    StaysInRange(cfg, b, run[..i]);
    StaysInRange(cfg, held, part);
    Conservation(cfg, held, part);
    assert part[0] == run[i] && part[|part| - 1] == run[j];
    var left := Level(cfg, After(cfg, held, part), run[j].now);
    assert left >= 0.0 by {
      RefillIsBounded(cfg, After(cfg, held, part), run[j].now, run[j].now);
    }
    LessIsWithin(cfg, run[i].now, run[j].now, Granted(cfg, held, part), Granted(cfg, held, part) + left);
    assert run[..j + 1] == run[..i] + part;
    RunsCompose(cfg, b, run[..i], part);
  }

  // ---------------------------------------------------------------- one waiter

  /** After a refusal, a retry by the only waiter that sleeps at least as long as told is granted
      exactly when the amount fits the bucket.  */
  lemma RetryAfterPause(cfg: Settings, b: Bucket, a: Attempt, retry: real)
    requires cfg.Valid() && InRange(cfg, b) && b.last <= a.now && !Try(cfg, b, a).1
    requires retry >= a.now + Pause(cfg, b, a)
    ensures Try(cfg, Try(cfg, b, a).0, Attempt(retry, a.n)).1 <==> a.n <= cfg.burst
  {
    RefillIsBounded(cfg, b, a.now, a.now);
    var b' := Try(cfg, b, a).0;
    var pause := Pause(cfg, b, a);
    assert pause * cfg.rate == a.n as real - b'.tokens;
    assert pause > 0.0;
    assert (retry - a.now) * cfg.rate >= pause * cfg.rate;
  }

  /** The announced pause is the shortest that helps: a retry by the only waiter is granted exactly from
      then on.  */
  lemma PauseIsExact(cfg: Settings, b: Bucket, a: Attempt, retry: real)
    requires cfg.Valid() && InRange(cfg, b) && b.last <= a.now <= retry && !Try(cfg, b, a).1 && a.n <= cfg.burst
    ensures Try(cfg, Try(cfg, b, a).0, Attempt(retry, a.n)).1 <==> retry >= a.now + Pause(cfg, b, a)
  {
    if retry >= a.now + Pause(cfg, b, a) {
      RetryAfterPause(cfg, b, a, retry);
    } else {
      RefillIsBounded(cfg, b, a.now, a.now);
      var b' := Try(cfg, b, a).0;
      Shortfall(b'.tokens, Pause(cfg, b, a), retry - a.now, cfg.rate, a.n as real);
      assert b'.last == a.now;
    }
  }

  lemma Shortfall(tokens: real, pause: real, elapsed: real, rate: real, n: real)
    requires rate > 0.0 && pause == (n - tokens) / rate && elapsed < pause
    ensures tokens + elapsed * rate < n
  {
    var short := pause - elapsed;
    assert pause * rate == n - tokens;
    assert short * rate > 0.0;
    assert elapsed * rate == pause * rate - short * rate;
  }

  /** One turn of a waiter's loop: what others attempt before it, and its own clock reading. */
  datatype Turn = Turn(others: seq<Attempt>, now: real)

  /** A waiter's turns until its amount is granted or the turns run out because its context is done.
      The result counts its attempts.  */
  function Waiting(cfg: Settings, b: Bucket, n: int, turns: seq<Turn>): (r: (Bucket, bool, nat))
    ensures r.2 <= |turns|
    decreases |turns|
  {
    if n <= 0 then (b, true, 0)
    else if turns == [] then (b, false, 0)
    else
      var (b', granted) := Try(cfg, After(cfg, b, turns[0].others), Attempt(turns[0].now, n));
      if granted then (b', true, 1)
      else
        var (b'', granted', more) := Waiting(cfg, b', n, turns[1..]);
        (b'', granted', more + 1)
  }

  /** The attempts of all waiters over one waiter's turns. */
  function Attempts(n: int, turns: seq<Turn>): seq<Attempt> {
    if turns == [] then [] else turns[0].others + [Attempt(turns[0].now, n)] + Attempts(n, turns[1..])
  }

  /** The run ends with this attempt, which takes its amount from the bucket. */
  predicate EndsWithGrant(cfg: Settings, b: Bucket, run: seq<Attempt>, a: Attempt) {
    run != [] && run[|run| - 1] == a && Taken(cfg, After(cfg, b, run[..|run| - 1]), a) == a.n as real
  }

  lemma LaterGrant(cfg: Settings, b: Bucket, first: seq<Attempt>, rest: seq<Attempt>, a: Attempt)
    requires EndsWithGrant(cfg, After(cfg, b, first), rest, a)
    ensures EndsWithGrant(cfg, b, first + rest, a)
  {
    RunsCompose(cfg, b, first, rest[..|rest| - 1]);
    assert (first + rest)[..|first + rest| - 1] == first + rest[..|rest| - 1];
  }

  /** A `Wait` among other waiters is part of a run, and its grant, if any, is the run's last: what holds
      for runs holds for it.  */
  lemma {:induction false} WaitingIsRun(cfg: Settings, b: Bucket, n: int, turns: seq<Turn>)
    requires n >= 1
    ensures var (b', granted, made) := Waiting(cfg, b, n, turns);
            var run := Attempts(n, turns[..made]);
            && b' == After(cfg, b, run)
            && (granted ==> made > 0 && EndsWithGrant(cfg, b, run, Attempt(turns[made - 1].now, n)))
    decreases |turns|
  {
    hide Try, Taken;
    if turns != [] {
      var turn, made := turns[0], Waiting(cfg, b, n, turns).2;
      var held, a := After(cfg, b, turn.others), Attempt(turn.now, n);
      var first := turn.others + [a];
      assert first[..|first| - 1] == turn.others;
      assert turns[..made][0] == turn && turns[..made][1..] == turns[1..][..made - 1];
      var rest := Attempts(n, turns[1..][..made - 1]);
      RunsCompose(cfg, b, first, rest);
      if Try(cfg, held, a).1 {
        assert first + rest == first;
        GrantIsTaken(cfg, held, a);
      } else {
        WaitingIsRun(cfg, After(cfg, b, first), n, turns[1..]);
        if Waiting(cfg, b, n, turns).1 {
          LaterGrant(cfg, b, first, rest, Attempt(turns[made - 1].now, n));
        }
      }
    }
  }

  lemma GrantIsTaken(cfg: Settings, b: Bucket, a: Attempt)
    requires a.n >= 1 && Try(cfg, b, a).1
    ensures Taken(cfg, b, a) == a.n as real
  {
  }

  /** A lone waiter sleeps at most once when the amount fits, and for ever when it does not. */
  lemma {:induction false} LoneWaiter(cfg: Settings, b: Bucket, n: int, turns: seq<Turn>)
    requires cfg.Valid() && InRange(cfg, b) && n >= 1 && |turns| >= 2 && b.last <= turns[0].now
    requires turns[0].others == turns[1].others == []
    requires turns[1].now >= turns[0].now + Pause(cfg, b, Attempt(turns[0].now, n))
    ensures Waiting(cfg, b, n, turns).1 <==> n <= cfg.burst
    ensures n <= cfg.burst ==> Waiting(cfg, b, n, turns).2 <= 2
  {
    var a := Attempt(turns[0].now, n);
    if n > cfg.burst {
      NeverGranted(cfg, b, n, turns);
    } else if !Try(cfg, b, a).1 {
      RetryAfterPause(cfg, b, a, turns[1].now);
    }
  }

  lemma TryStaysInRange(cfg: Settings, b: Bucket, a: Attempt)
    requires cfg.Valid() && InRange(cfg, b)
    ensures InRange(cfg, Try(cfg, b, a).0) && (Try(cfg, b, a).1 ==> a.n <= cfg.burst)
  {
    if a.now > b.last {
      RefillIsBounded(cfg, b, a.now, a.now);
    }
  }

  lemma {:induction false} AlwaysInRange(cfg: Settings, b: Bucket, run: seq<Attempt>)
    requires cfg.Valid() && InRange(cfg, b)
    ensures InRange(cfg, After(cfg, b, run))
  {
    if run != [] {
      AlwaysInRange(cfg, b, run[..|run| - 1]);
      TryStaysInRange(cfg, After(cfg, b, run[..|run| - 1]), run[|run| - 1]);
    }
  }

  /** More than a full bucket is never granted, whatever the clock and the other waiters do. */
  lemma {:induction false} NeverGranted(cfg: Settings, b: Bucket, n: int, turns: seq<Turn>)
    requires cfg.Valid() && InRange(cfg, b) && n > cfg.burst
    ensures !Waiting(cfg, b, n, turns).1 && Waiting(cfg, b, n, turns).2 == |turns|
    decreases |turns|
  {
    if turns != [] {
      var held, a := After(cfg, b, turns[0].others), Attempt(turns[0].now, n);
      AlwaysInRange(cfg, b, turns[0].others);
      TryStaysInRange(cfg, held, a);
      NeverGranted(cfg, Try(cfg, held, a).0, n, turns[1..]);
    }
  }

  // ---------------------------------------------------------------- the limiter

  class RateLimiter {
    const cfg: Settings
    var tokens: real
    var last: real

    constructor (rate: real, burst: int, now: real)
      ensures cfg.Valid()
      ensures cfg.rate == (if rate <= 0.0 then 1.0 else rate) && cfg.burst == if burst <= 0 then 1 else burst
      ensures Contents() == Bucket(cfg.burst as real, now)
      ensures InRange(cfg, Contents())
    {
      cfg := Settings(if rate <= 0.0 then 1.0 else rate, if burst <= 0 then 1 else burst);
      tokens := (if burst <= 0 then 1 else burst) as real;
      last := now;
    }

    function Contents(): Bucket
      reads this
    {
      Bucket(tokens, last)
    }

    /** The locked part of the loop: refill, then take the tokens or say how long to sleep. */
    method TryTake(n: int, now: real) returns (granted: bool, wait: real)
      requires cfg.Valid() && n > 0
      modifies this
      ensures (Contents(), granted) == Try(cfg, old(Contents()), Attempt(now, n))
      ensures !granted ==> wait == Pause(cfg, old(Contents()), Attempt(now, n))
    {
      var elapsed := now - last;
      if elapsed > 0.0 {
        tokens := tokens + elapsed * cfg.rate;
        if tokens > cfg.burst as real {
          tokens := cfg.burst as real;
        }
        last := now;
      }
      if tokens >= n as real {
        tokens := tokens - n as real;
        return true, 0.0;
      }
      var need := n as real - tokens;
      return false, need / cfg.rate;
    }

    /** The loop as seen by one waiter: others come to the lock before each of its turns, and it is
        cancelled when the turns run out.  */
    method Wait(n: int, turns: seq<Turn>) returns (granted: bool, attempts: nat)
      requires cfg.Valid()
      modifies this
      ensures (Contents(), granted, attempts) == Waiting(cfg, old(Contents()), n, turns)
    {
      attempts := 0;
      if n <= 0 {
        return true, attempts;
      }
      while attempts < |turns|
        invariant 0 <= attempts <= |turns|
        invariant var (b, ok, more) := Waiting(cfg, Contents(), n, turns[attempts..]);
                  Waiting(cfg, old(Contents()), n, turns) == (b, ok, attempts + more)
      {
        var turn := turns[attempts];
        assert turns[attempts..][1..] == turns[attempts + 1..];
        LetOthers(turn.others);
        var wait;
        granted, wait := TryTake(n, turn.now);
        attempts := attempts + 1;
        if granted {
          return;
        }
      }
      granted := false;
    }

    /** Other waiters' attempts, one after the other. */
    method LetOthers(others: seq<Attempt>)
      requires cfg.Valid()
      modifies this
      ensures Contents() == After(cfg, old(Contents()), others)
    {
      for k := 0 to |others|
        invariant Contents() == After(cfg, old(Contents()), others[..k])
      {
        assert others[..k + 1][..k] == others[..k];
        if others[k].n > 0 {
          var granted, wait := TryTake(others[k].n, others[k].now);
        }
      }
      assert others[..|others|] == others;
    }
  }
}
