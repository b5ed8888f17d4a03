// How many requests of one client can get through in a window of time, with or
// without the side condition that makes eviction invisible.
module FloodBound {
  import opened TokenBucket
  import opened RateLimiter
  import opened LimiterRuns
  import opened Eviction

  function Admitted(p: Params, cs: Clients, es: seq<Event>, key: string): nat
    decreases es
  {
    if es == [] then 0
    else
      (if es[0].Allow? && es[0].key == key && Request(p, cs, key, es[0].at).1 then 1 else 0)
      + Admitted(p, Next(p, cs, es[0]), es[1..], key)
  }

  predicate EvictsAt(p: Params, cs: Clients, e: Event, key: string) {
    e.Tick? && key in cs && cs[key].lastSeen < e.at - p.ttl
  }

  // How often `key` is evicted during a run.
  function Evictions(p: Params, cs: Clients, es: seq<Event>, key: string): nat
    decreases es
  {
    if es == [] then 0
    else (if EvictsAt(p, cs, es[0], key) then 1 else 0) + Evictions(p, Next(p, cs, es[0]), es[1..], key)
  }

  // The most tokens one eviction can conjure up.
  function Bonus(p: Params): real {
    Max(0.0, p.burst as real - p.rps * p.ttl)
  }

  // `k` copies of `x`, added up one by one.
  function Times(k: nat, x: real): real {
    if k == 0 then 0.0 else Times(k - 1, x) + x
  }

  lemma TimesIsProduct(k: nat, x: real)
    ensures Times(k, x) == k as real * x
  {
    if k > 0 {
      TimesIsProduct(k - 1, x);
      assert k as real * x == (k - 1) as real * x + x;
    }
  }

  lemma LevelNonNegative(p: Params, cs: Clients, key: string, now: real)
    requires p.rps >= 0.0 && p.burst >= 0 && Coherent(p, cs, now)
    ensures LevelOf(p, cs, key, now) >= 0.0
  {
    if key in cs {
      RefillAtLeast(p, cs[key].bucket.last, 0.0, now);
    }
  }

  // One event moves tokens about: what it admits and leaves is no more than what
  // it found, plus the bonus if it evicts.
  lemma EventConserves(p: Params, cs: Clients, e: Event, key: string)
    requires p.rps >= 0.0 && p.burst >= 0 && p.ttl >= 0.0 && Coherent(p, cs, e.at)
    ensures (if e.Allow? && e.key == key && Request(p, cs, key, e.at).1 then 1.0 else 0.0)
            + LevelOf(p, Next(p, cs, e), key, e.at)
            <= LevelOf(p, cs, key, e.at) + (if EvictsAt(p, cs, e, key) then Bonus(p) else 0.0)
  {
    if e.Allow? {
      RequestUsesLevel(p, cs, e.key, e.at);
    } else if EvictsAt(p, cs, e, key) {
      IdleFloor(p, cs[key].bucket, p.ttl, e.at);
    }
  }

  // Tokens are conserved over a run: what gets through was there, was refilled,
  // or came from an eviction.
  lemma {:induction false} AdmittedByTokens(p: Params, cs: Clients, now: real, es: seq<Event>, key: string, end: real)
    requires p.rps >= 0.0 && p.burst >= 0 && p.ttl >= 0.0
    requires Coherent(p, cs, now) && Ordered(now, es) && now <= end && forall e <- es :: e.at <= end
    ensures Admitted(p, cs, es, key) as real
            <= LevelOf(p, cs, key, now) + Refill(p, now, end) + Times(Evictions(p, cs, es, key), Bonus(p))
    decreases es
  {
    if es == [] {
      RefillSplits(p, now, now, end);
      LevelNonNegative(p, cs, key, now);
    } else {
      var e := es[0];
      NextCoherent(p, cs, now, e);
      AdmittedByTokens(p, Next(p, cs, e), e.at, es[1..], key, end);
      LevelOfAdvances(p, cs, key, now, e.at);
      RefillSplits(p, now, e.at, end);
      assert Coherent(p, cs, e.at);
      EventConserves(p, cs, e, key);
    }
  }

  // Consecutive evictions of a key are more than ttl apart: it must have been
  // seen again in between, and then left alone for longer than ttl.
  lemma {:induction false} EvictionsSpaced(p: Params, cs: Clients, now: real, es: seq<Event>, key: string, end: real)
    requires p.ttl >= 0.0 && Ordered(now, es) && now <= end && forall e <- es :: e.at <= end
    requires key in cs ==> cs[key].lastSeen <= now
    ensures Times(Evictions(p, cs, es, key), p.ttl) <= end - (if key in cs then cs[key].lastSeen else now)
    decreases es
  {
    if es != [] {
      EvictionsSpaced(p, Next(p, cs, es[0]), es[0].at, es[1..], key, end);
    }
  }

  lemma {:induction false} TimesMonotone(k: nat, n: nat, x: real)
    requires k <= n && x >= 0.0
    ensures Times(k, x) <= Times(n, x)
    decreases n
  {
    if k < n {
      TimesMonotone(k, n - 1, x);
    }
  }

  // The number of whole periods in a span.
  function Periods(span: real, ttl: real): (n: nat)
    requires ttl > 0.0 && span >= 0.0
    ensures Times(n, ttl) <= span < Times(n, ttl) + ttl
  {
    var n := (span / ttl).Floor;
    PeriodsFit(span, ttl, n);
    TimesIsProduct(n, ttl);
    n
  }

  lemma PeriodsFit(span: real, ttl: real, n: int)
    requires ttl > 0.0 && span >= 0.0 && n == (span / ttl).Floor
    ensures 0 <= n && n as real * ttl <= span < n as real * ttl + ttl
  {
    var q := span / ttl;
    assert q * ttl == span;
    assert n as real <= q < n as real + 1.0;
    var rest := q - n as real;
    assert span == n as real * ttl + rest * ttl;
    Scale(rest, ttl);
  }

  lemma Scale(rest: real, ttl: real)
    requires 0.0 <= rest < 1.0 && ttl > 0.0
    ensures 0.0 <= rest * ttl < ttl
  {
    assert ttl - rest * ttl == (1.0 - rest) * ttl;
  }

  lemma PeriodsMonotone(ttl: real, k: nat, short: real, long: real)
    requires ttl > 0.0 && 0.0 <= short <= long && Times(k, ttl) <= short
    ensures k <= Periods(long, ttl)
  {
    var n := Periods(long, ttl) + 1;
    if n <= k {
      TimesMonotone(n, k, ttl);
    }
  }

  // The bound as the proofs add it up, and in closed form.
  function Budget(p: Params, span: real): real
    requires p.ttl > 0.0 && span >= 0.0
  {
    p.burst as real + Refill(p, 0.0, span) + Times(Periods(span, p.ttl), Bonus(p))
  }

  function Bound(p: Params, span: real): real
    requires p.ttl > 0.0 && span >= 0.0
  {
    p.burst as real + p.rps * span + (span / p.ttl).Floor as real * Max(0.0, p.burst as real - p.rps * p.ttl)
  }

  lemma BudgetIsBound(p: Params, span: real)
    requires p.ttl > 0.0 && span >= 0.0
    ensures Budget(p, span) == Bound(p, span)
  {
    TimesIsProduct(Periods(span, p.ttl), Bonus(p));
  }

  lemma RefillShifts(p: Params, from: real, to: real)
    requires from <= to
    ensures Refill(p, from, to) == Refill(p, 0.0, to - from)
  {
  }

  // From a moment at which the key is absent or has just been asked for, every
  // later eviction has used up a whole ttl of the window.
  lemma FromFreshStart(p: Params, cs: Clients, now: real, es: seq<Event>, key: string, end: real, span: real)
    requires p.rps >= 0.0 && p.burst >= 0 && p.ttl > 0.0
    requires Coherent(p, cs, now) && Ordered(now, es) && now <= end && forall e <- es :: e.at <= end
    requires Times(Evictions(p, cs, es, key), p.ttl) <= end - now <= span
    ensures Admitted(p, cs, es, key) as real <= Budget(p, span)
  {
    AdmittedByTokens(p, cs, now, es, key, end);
    var k, n := Evictions(p, cs, es, key), Periods(span, p.ttl);
    PeriodsMonotone(p.ttl, k, end - now, span);
    TimesMonotone(k, n, Bonus(p));
    RefillSplits(p, 0.0, end - now, span);
    RefillShifts(p, now, end);
    assert LevelOf(p, cs, key, now) <= p.burst as real;
  }

  // The flood bound, with no assumption linking rps, burst and ttl: it holds in
  // every window of every run, whatever the map held when the window opened.
  lemma {:induction false} FloodBoundedWithin(p: Params, cs: Clients, now: real, es: seq<Event>, key: string, end: real, span: real)
    requires p.rps >= 0.0 && p.burst >= 0 && p.ttl > 0.0 && end - now <= span
    requires Coherent(p, cs, now) && Ordered(now, es) && now <= end && forall e <- es :: e.at <= end
    ensures Admitted(p, cs, es, key) as real <= Budget(p, span)
    decreases es
  {
    if es == [] || key !in cs {
      EvictionsSpaced(p, cs, now, es, key, end);
      FromFreshStart(p, cs, now, es, key, end, span);
    } else {
      var e := es[0];
      NextCoherent(p, cs, now, e);
      if e.Allow? && e.key == key {
        EvictionsSpaced(p, Next(p, cs, e), e.at, es[1..], key, end);
        assert Coherent(p, cs, e.at);
        FromFreshStart(p, cs, e.at, es, key, end, span);
      } else {
        FloodBoundedWithin(p, Next(p, cs, e), e.at, es[1..], key, end, span);
      }
    }
  }

  // The same over the windows of runs from the empty map: the events of a run
  // that lie between two of its moments.
  lemma FloodBounded(p: Params, before: seq<Event>, window: seq<Event>, start: real, from: real, to: real, key: string)
    requires p.rps >= 0.0 && p.burst >= 0 && p.ttl > 0.0
    requires start <= from <= to && Ordered(start, before) && (forall e <- before :: e.at <= from)
    requires Ordered(from, window) && forall e <- window :: e.at <= to
    ensures Admitted(p, Final(p, map[], before), window, key) as real <= Bound(p, to - from)
  {
    FinalCoherent(p, map[], start, before, from);
    FloodBoundedWithin(p, Final(p, map[], before), from, window, key, to, to - from);
    BudgetIsBound(p, to - from);
  }

  // With the side condition the eviction term disappears.
  lemma FloodBoundedByRate(p: Params, before: seq<Event>, window: seq<Event>, start: real, from: real, to: real, key: string)
    requires p.rps >= 0.0 && p.burst >= 0 && p.ttl > 0.0 && RefillsWithinTtl(p)
    requires start <= from <= to && Ordered(start, before) && (forall e <- before :: e.at <= from)
    requires Ordered(from, window) && forall e <- window :: e.at <= to
    ensures Admitted(p, Final(p, map[], before), window, key) as real <= p.burst as real + Refill(p, from, to)
  {
    BudgetWithoutBonus(p, to - from);
    RefillShifts(p, from, to);
    FinalCoherent(p, map[], start, before, from);
    FloodBoundedWithin(p, Final(p, map[], before), from, window, key, to, to - from);
  }

  lemma BudgetWithoutBonus(p: Params, span: real)
    requires p.rps >= 0.0 && p.burst >= 0 && p.ttl > 0.0 && RefillsWithinTtl(p) && span >= 0.0
    ensures Budget(p, span) == p.burst as real + Refill(p, 0.0, span)
  {
    RefillAtLeast(p, 0.0, 0.0, p.ttl);
    assert Bonus(p) == 0.0 by {
      RefillAtLeast(p, 0.0, p.ttl, p.ttl);
    }
    TimesZero(Periods(span, p.ttl));
  }

  lemma {:induction false} TimesZero(k: nat)
    ensures Times(k, 0.0) == 0.0
  {
    if k > 0 {
      TimesZero(k - 1);
    }
  }
}
