/** Exponential backoff with jitter, over the reals; the draw of the random number generator is a
    parameter.  Durations are in nanoseconds, to which the result is truncated.  */
module Backoffs {
  import opened Workers

  datatype Settings = Settings(minBackoff: int, maxBackoff: int, multiplier: real) {
    predicate Valid() { 0 < minBackoff <= maxBackoff }
  }

  function Pow(m: real, n: nat): real {
    if n == 0 then 1.0 else m * Pow(m, n - 1)
  }

  function Min(a: real, b: real): real { if a > b then b else a }

  predicate IsDraw(d: real) { 0.0 <= d < 1.0 }

  /** The backoff before the jitter. */
  function Base(cfg: Settings, attempt: int): real {
    var backoff := cfg.minBackoff as real;
    Min(if attempt > 0 then backoff * Pow(cfg.multiplier, attempt) else backoff, cfg.maxBackoff as real)
  }

  function Jittered(base: real, cap: real, draw: real): real {
    Min(base + base * (0.25 * draw), cap)
  }

  function Exact(cfg: Settings, attempt: int, draw: real): real {
    Jittered(Base(cfg, attempt), cfg.maxBackoff as real, draw)
  }

  /** `CalculateBackoff`: the exact delay, truncated. */
  function Delay(cfg: Settings, attempt: int, draw: real): int {
    Exact(cfg, attempt, draw).Floor
  }

  // ---------------------------------------------------------------- bounds

  lemma {:induction false} PowGrows(m: real, n: nat)
    requires m >= 1.0
    ensures Pow(m, n) >= 1.0
    ensures n >= 1 ==> Pow(m, n) >= m
  {
    if n > 0 {
      PowGrows(m, n - 1);
      ScaleUp(m, 1.0, Pow(m, n - 1));
    }
  }

  lemma Product(x: real, y: real)
    requires x >= 0.0 && y >= 0.0
    ensures x * y >= 0.0
  {
  }

  lemma PositiveProduct(x: real, y: real)
    requires x > 0.0 && y > 0.0
    ensures x * y > 0.0
  {
  }

  lemma ScaleUp(x: real, y: real, f: real)
    requires x > 0.0 && y <= f
    ensures x * y <= x * f
  {
    var rise := f - y;
    Product(x, rise);
    assert x * f == x * y + x * rise;
  }

  lemma BaseIsAtLeastMin(cfg: Settings, attempt: int)
    requires cfg.Valid() && cfg.multiplier >= 1.0
    ensures cfg.minBackoff as real <= Base(cfg, attempt) <= cfg.maxBackoff as real
  {
    if attempt > 0 {
      PowGrows(cfg.multiplier, attempt);
      ScaleUp(cfg.minBackoff as real, 1.0, Pow(cfg.multiplier, attempt));
    }
  }

  lemma JitterIsBounded(base: real, cap: real, draw: real)
    requires 0.0 <= base <= cap && IsDraw(draw)
    ensures base <= Jittered(base, cap, draw) <= cap
    ensures Jittered(base, cap, draw) <= Min(1.25 * base, cap)
  {
    assert 0.0 <= base * (0.25 * draw) <= base * 0.25;
  }

  lemma FirstBackoffs(cfg: Settings)
    requires cfg.Valid()
    ensures Base(cfg, 0) == cfg.minBackoff as real
    ensures Base(cfg, 1) == Min(cfg.minBackoff as real * cfg.multiplier, cfg.maxBackoff as real)
    ensures Exact(cfg, 0, 0.0) == Base(cfg, 0) && Exact(cfg, 1, 0.0) == Base(cfg, 1)
  {
    assert Pow(cfg.multiplier, 1) == cfg.multiplier * Pow(cfg.multiplier, 0);
  }

  ghost predicate InBounds(cfg: Settings, x: real) {
    cfg.minBackoff as real <= x <= cfg.maxBackoff as real
  }

  /** Every delay lies between the two bounds, for every attempt and draw, exactly when the
      multiplier is at least one.  */
  lemma DelaysAreBounded(cfg: Settings)
    requires cfg.Valid()
    ensures (forall n: nat, d :: IsDraw(d) ==> InBounds(cfg, Exact(cfg, n, d))) <==> cfg.multiplier >= 1.0
  {
    if cfg.multiplier >= 1.0 {
      forall n: nat, d | IsDraw(d) ensures InBounds(cfg, Exact(cfg, n, d)) {
        BaseIsAtLeastMin(cfg, n);
        JitterIsBounded(Base(cfg, n), cfg.maxBackoff as real, d);
      }
    } else {
      FirstBackoffs(cfg);
      assert IsDraw(0.0) && !InBounds(cfg, Exact(cfg, 1, 0.0));
    }
  }

  lemma DelayIsBounded(cfg: Settings, attempt: int, draw: real)
    requires cfg.Valid() && cfg.multiplier >= 1.0 && IsDraw(draw)
    ensures cfg.minBackoff <= Delay(cfg, attempt, draw) <= cfg.maxBackoff
  {
    BaseIsAtLeastMin(cfg, attempt);
    JitterIsBounded(Base(cfg, attempt), cfg.maxBackoff as real, draw);
  }

  // ---------------------------------------------------------------- order

  function Unit(cfg: Settings, n: nat): real {
    cfg.minBackoff as real * Pow(cfg.multiplier, n)
  }

  lemma BaseIsCappedUnit(cfg: Settings, n: nat)
    ensures Base(cfg, n) == Min(Unit(cfg, n), cfg.maxBackoff as real)
    ensures Unit(cfg, n + 1) == Unit(cfg, n) * cfg.multiplier
  {
  }

  lemma UnitGrows(cfg: Settings, n: nat)
    requires cfg.Valid() && cfg.multiplier >= 1.0
    ensures Unit(cfg, n) >= cfg.minBackoff as real
    ensures n >= 1 ==> Unit(cfg, n) >= cfg.minBackoff as real * cfg.multiplier
  {
    PowGrows(cfg.multiplier, n);
    ScaleUp(cfg.minBackoff as real, 1.0, Pow(cfg.multiplier, n));
    if n >= 1 {
      ScaleUp(cfg.minBackoff as real, cfg.multiplier, Pow(cfg.multiplier, n));
    }
  }

  lemma CapCovers(unit: real, m: real, cap: real)
    requires unit > 0.0 && cap > 0.0 && m >= 1.25
    ensures Min(1.25 * Min(unit, cap), cap) <= Min(unit * m, cap)
  {
    var extra := m - 1.25;
    Product(unit, extra);
    assert unit * m == 1.25 * unit + unit * extra;
  }

  lemma Shrinks(x: real, m: real)
    requires x > 0.0 && m < 1.0
    ensures x * m < x
  {
    var drop := 1.0 - m;
    PositiveProduct(x, drop);
    assert x == x * m + x * drop;
  }

  /** The next backoff, without its jitter, covers all the jitter of this one. */
  lemma NextBaseCoversJitter(cfg: Settings, n: nat)
    requires cfg.Valid() && cfg.multiplier >= 1.25
    ensures Min(1.25 * Base(cfg, n), cfg.maxBackoff as real) <= Base(cfg, n + 1)
  {
    hide Base, Unit;
    UnitGrows(cfg, n);
    BaseIsCappedUnit(cfg, n);
    BaseIsCappedUnit(cfg, n + 1);
    CapCovers(Unit(cfg, n), cfg.multiplier, cfg.maxBackoff as real);
  }

  lemma AtLeastOne(low: real, m: real, high: real)
    requires 0.0 < low <= high <= low * m
    ensures m >= 1.0
  {
    if m < 1.0 {
      Shrinks(low, m);
    }
  }

  /** Every retry waits the maximum if the first one does. */
  lemma RetriesWaitTheMaximum(cfg: Settings, n: nat)
    requires cfg.Valid() && cfg.minBackoff as real * cfg.multiplier >= cfg.maxBackoff as real
    ensures cfg.multiplier >= 1.0
    ensures Base(cfg, n + 1) == cfg.maxBackoff as real
  {
    hide Base, Unit;
    AtLeastOne(cfg.minBackoff as real, cfg.multiplier, cfg.maxBackoff as real);
    BaseIsCappedUnit(cfg, n + 1);
    UnitGrows(cfg, n + 1);
  }

  lemma Overtakes(low: real, m: real, d: real, high: real)
    requires 0.0 < low <= high && low * m < high && 0.25 * d > m - 1.0
    ensures Min(low + low * (0.25 * d), high) > low * m
  {
    var gap := 0.25 * d - (m - 1.0);
    PositiveProduct(low, gap);
    assert low + low * (0.25 * d) == low * m + low * gap;
  }

  /** With too small a multiplier the first delay's jitter can exceed an unjittered second delay. */
  lemma JitterOvertakes(low: real, m: real, high: real) returns (d: real)
    requires 0.0 < low <= high && m < 1.25 && low * m < high
    ensures IsDraw(d) && Jittered(low, high, d) > Min(low * m, high)
  {
    d := if m < 1.0 then 0.0 else (4.0 * (m - 1.0) + 1.0) / 2.0;
    Overtakes(low, m, d, high);
  }

  /** The delays are ordered for every attempt and any two draws exactly when the multiplier is at
      least 1.25 or the very first retry already waits the maximum.  */
  lemma DelaysAreOrdered(cfg: Settings)
    requires cfg.Valid()
    ensures (forall n: nat, d, d' :: IsDraw(d) && IsDraw(d') ==> Exact(cfg, n, d) <= Exact(cfg, n + 1, d')) <==>
            cfg.multiplier >= 1.25 || cfg.minBackoff as real * cfg.multiplier >= cfg.maxBackoff as real
  {
    var low, high, m := cfg.minBackoff as real, cfg.maxBackoff as real, cfg.multiplier;
    if m >= 1.25 || low * m >= high {
      forall n: nat, d, d' | IsDraw(d) && IsDraw(d') ensures Exact(cfg, n, d) <= Exact(cfg, n + 1, d') {
        if m >= 1.25 {
          NextBaseCoversJitter(cfg, n);
        } else {
          RetriesWaitTheMaximum(cfg, n);
        }
        BaseIsAtLeastMin(cfg, n);
        BaseIsAtLeastMin(cfg, n + 1);
        JitterIsBounded(Base(cfg, n), high, d);
        JitterIsBounded(Base(cfg, n + 1), high, d');
      }
    } else {
      FirstBackoffs(cfg);
      var d := JitterOvertakes(low, m, high);
      assert IsDraw(d) && IsDraw(0.0) && Exact(cfg, 0, d) > Exact(cfg, 0 + 1, 0.0);
    }
  }

  /** The exact delays in closed form: the minimum times a power of the multiplier, up to the maximum, and
      up to a quarter more for the jitter, up to the maximum again.  */
  lemma DelayIsGeometric(cfg: Settings, n: nat, d: real)
    requires cfg.Valid() && cfg.multiplier >= 0.0 && IsDraw(d)
    ensures Exact(cfg, 0, 0.0) == cfg.minBackoff as real
    ensures Exact(cfg, n + 1, 0.0) == Min(Exact(cfg, n, 0.0) * cfg.multiplier, cfg.maxBackoff as real)
    ensures Exact(cfg, n, d) == Min(Exact(cfg, n, 0.0) * (1.0 + d / 4.0), cfg.maxBackoff as real)
  {
    hide Base, Exact;
    FirstBackoffs(cfg);
    Unjittered(cfg, n, d);
    Unjittered(cfg, n + 1, d);
    BaseGrows(cfg, n);
    var base, exact := Base(cfg, n), Exact(cfg, n, 0.0);
    assert base == exact && base * cfg.multiplier == exact * cfg.multiplier;
    assert base * (1.0 + d / 4.0) == exact * (1.0 + d / 4.0);
  }

  lemma BaseGrows(cfg: Settings, n: nat)
    requires cfg.Valid() && cfg.multiplier >= 0.0
    ensures Base(cfg, n + 1) == Min(Base(cfg, n) * cfg.multiplier, cfg.maxBackoff as real)
  {
    hide Base, Unit;
    BaseIsCappedUnit(cfg, n);
    BaseIsCappedUnit(cfg, n + 1);
    if cfg.multiplier >= 1.0 {
      UnitGrows(cfg, n);
      CappedStep(Unit(cfg, n), cfg.multiplier, cfg.maxBackoff as real);
    } else {
      UnitShrinks(cfg, n);
    }
  }

  lemma {:induction false} UnitShrinks(cfg: Settings, n: nat)
    requires cfg.Valid() && 0.0 <= cfg.multiplier <= 1.0
    ensures 0.0 <= Unit(cfg, n) <= cfg.minBackoff as real
  {
    assert n == 0 ==> Unit(cfg, n) == cfg.minBackoff as real;
    hide Unit, Base;
    if n > 0 {
      var k: nat := n - 1;
      UnitShrinks(cfg, k);
      BaseIsCappedUnit(cfg, k);
      Fraction(Unit(cfg, k), cfg.multiplier, Unit(cfg, n));
    }
  }

  lemma Fraction(x: real, m: real, y: real)
    requires x >= 0.0 && 0.0 <= m <= 1.0 && y == x * m
    ensures 0.0 <= y <= x
  {
    var drop := 1.0 - m;
    Product(x, m);
    Product(x, drop);
    assert x == x * m + x * drop;
  }

  lemma CappedStep(unit: real, m: real, high: real)
    requires unit > 0.0 && high > 0.0 && m >= 1.0
    ensures Min(Min(unit, high) * m, high) == Min(unit * m, high)
  {
    if unit > high {
      ScaleUp(high, 1.0, m);
      ScaleUp(unit, 1.0, m);
    }
  }

  lemma Unjittered(cfg: Settings, n: nat, d: real)
    ensures Exact(cfg, n, 0.0) == Base(cfg, n)
    ensures Exact(cfg, n, d) == Min(Base(cfg, n) * (1.0 + d / 4.0), cfg.maxBackoff as real)
  {
    var base := Base(cfg, n);
    assert base + base * (0.25 * d) == base * (1.0 + d / 4.0);
  }

  /** A delay is its exact value, truncated. */
  lemma DelayIsTruncated(cfg: Settings, attempt: int, draw: real)
    ensures Delay(cfg, attempt, draw) as real <= Exact(cfg, attempt, draw) < Delay(cfg, attempt, draw) as real + 1.0
  {
  }

  /** The truncated delays keep the order of the exact ones. */
  lemma DelayIsOrdered(cfg: Settings, n: nat, d: real, d': real)
    requires cfg.Valid() && IsDraw(d) && IsDraw(d')
    requires cfg.multiplier >= 1.25 || cfg.minBackoff as real * cfg.multiplier >= cfg.maxBackoff as real
    ensures Delay(cfg, n, d) <= Delay(cfg, n + 1, d')
  {
    DelaysAreOrdered(cfg);
    assert Exact(cfg, n, d) <= Exact(cfg, n + 1, d');
  }

  /** The sleeps before attempts 1 to `sleeps`, each with its own draw. */
  function Slept(cfg: Settings, draws: nat -> real, sleeps: nat): int {
    if sleeps == 0 then 0 else Slept(cfg, draws, sleeps - 1) + Delay(cfg, sleeps, draws(sleeps))
  }

  /** The sleeps a call enters: one before each retry, the last of which may have been cut short. */
  function Sleeps<S>(c: Course<S>): int {
    if c.cut then |c.made| else |c.made| - 1
  }

  lemma DelayIsCapped(cfg: Settings, attempt: int, draw: real)
    ensures Delay(cfg, attempt, draw) <= cfg.maxBackoff
  {
  }

  lemma {:induction false} SleepsAreBounded(cfg: Settings, draws: nat -> real, sleeps: nat)
    requires cfg.Valid() && forall k :: IsDraw(draws(k))
    ensures Slept(cfg, draws, sleeps) <= sleeps * cfg.maxBackoff
    ensures cfg.multiplier >= 1.0 ==> sleeps * cfg.minBackoff <= Slept(cfg, draws, sleeps)
  {
    hide Delay;
    if sleeps > 0 {
      SleepsAreBounded(cfg, draws, sleeps - 1);
      DelayIsCapped(cfg, sleeps, draws(sleeps));
      assert sleeps * cfg.maxBackoff == (sleeps - 1) * cfg.maxBackoff + cfg.maxBackoff;
      if cfg.multiplier >= 1.0 {
        assert sleeps * cfg.minBackoff == (sleeps - 1) * cfg.minBackoff + cfg.minBackoff;
        DelayIsBounded(cfg, sleeps, draws(sleeps));
      }
    }
  }

  /** However a call goes, its sleeps last at most twice the maximum, whatever the multiplier; with a
      multiplier of at least one they last at least the minimum each.  */
  lemma TotalBackoffIsBounded<S>(cfg: Settings, w: Worker<S>, name: string, s: S, draws: nat -> real)
    requires cfg.Valid() && forall k :: IsDraw(draws(k))
    ensures var sleeps := Sleeps(CourseFrom(w, name, 0, s));
            && 0 <= sleeps <= 2
            && Slept(cfg, draws, sleeps) <= 2 * cfg.maxBackoff
            && (cfg.multiplier >= 1.0 ==> sleeps * cfg.minBackoff <= Slept(cfg, draws, sleeps))
  {
    AttemptsAreBounded(w, name, 0, s);
    SleepsAreBounded(cfg, draws, Sleeps(CourseFrom(w, name, 0, s)));
  }
}
