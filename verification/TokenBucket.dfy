// The token bucket behind one client of the rate limiter, over exact reals.
// A bucket starts full, refills continuously at `rps` up to `burst`, admits a
// request when a whole token is there, and is left alone by a denial.
module TokenBucket {

  // The limiter's settings. Times are seconds on one monotone clock.
  datatype Params = Params(rps: real, burst: int, ttl: real)

  // `tokens` is the level at time `last`, the last time a token was taken.
  datatype Bucket = Bucket(tokens: real, last: real)

  function Min(a: real, b: real): real { if a <= b then a else b }

  function Max(a: real, b: real): real { if a <= b then b else a }

  function Full(p: Params, now: real): Bucket {
    Bucket(p.burst as real, now)
  }

  // Tokens gained between two times; a clock that steps back gains nothing.
  function Refill(p: Params, from: real, to: real): real {
    if to < from then 0.0 else p.rps * (to - from)
  }

  // Tokens a request arriving at `now` finds in the bucket.
  function Level(p: Params, b: Bucket, now: real): real {
    Min(p.burst as real, b.tokens + Refill(p, b.last, now))
  }

  // One request at `now`: the bucket afterwards, and whether it was admitted.
  function Take(p: Params, b: Bucket, now: real): (Bucket, bool) {
    var level := Level(p, b, now);
    if level >= 1.0 then (Bucket(level - 1.0, now), true) else (b, false)
  }

  lemma ProductMonotone(r: real, a: real, b: real)
    requires r >= 0.0 && a <= b
    ensures r * a <= r * b
  {
    assert r * b - r * a == r * (b - a);
  }

  lemma RefillAtLeast(p: Params, from: real, idle: real, to: real)
    requires p.rps >= 0.0 && 0.0 <= idle && from + idle <= to
    ensures Refill(p, from, to) >= p.rps * idle >= 0.0
  {
    assert p.rps * 0.0 == 0.0;
    ProductMonotone(p.rps, idle, to - from);
    ProductMonotone(p.rps, 0.0, idle);
  }

  lemma RefillSplits(p: Params, a: real, b: real, c: real)
    requires p.rps >= 0.0 && a <= b <= c
    ensures 0.0 <= Refill(p, a, b) && 0.0 <= Refill(p, b, c)
    ensures Refill(p, a, c) == Refill(p, a, b) + Refill(p, b, c)
  {
    assert p.rps * (c - a) == p.rps * (b - a) + p.rps * (c - b);
    RefillAtLeast(p, a, 0.0, b);
    RefillAtLeast(p, b, 0.0, c);
  }

  lemma FullIsFull(p: Params, now: real)
    requires p.rps >= 0.0
    ensures Level(p, Full(p, now), now) == p.burst as real
  {
    RefillAtLeast(p, now, 0.0, now);
  }

  // The level alone determines every later level: buckets that agree now agree
  // at all later times, however differently they are represented.
  lemma LevelAdvances(p: Params, b: Bucket, now: real, later: real)
    requires p.rps >= 0.0 && b.last <= now <= later
    ensures Level(p, b, later) == Min(p.burst as real, Level(p, b, now) + Refill(p, now, later))
  {
    RefillSplits(p, b.last, now, later);
  }

  // A bucket idle for at least `idle` is full again if `idle` refills it.
  lemma IdleRefills(p: Params, b: Bucket, idle: real, now: real)
    requires p.rps >= 0.0 && 0.0 <= idle && b.last + idle <= now
    requires b.tokens >= Min(0.0, p.burst as real)
    requires p.burst <= 0 || p.rps * idle >= p.burst as real
    ensures Level(p, b, now) == p.burst as real
  {
    RefillAtLeast(p, b.last, idle, now);
  }

  // After an idle spell the level is at least what the spell alone refills.
  lemma IdleFloor(p: Params, b: Bucket, idle: real, now: real)
    requires p.rps >= 0.0 && 0.0 <= idle && b.last + idle <= now && 0.0 <= b.tokens
    ensures Level(p, b, now) >= Min(p.burst as real, p.rps * idle)
  {
    RefillAtLeast(p, b.last, idle, now);
  }

  // Right after a request the level has dropped by one if it was admitted and
  // not at all if it was denied.
  lemma TakeSpends(p: Params, b: Bucket, now: real)
    requires p.rps >= 0.0 && b.last <= now
    ensures var (b', ok) := Take(p, b, now);
            && ok == (Level(p, b, now) >= 1.0)
            && Level(p, b', now) == Level(p, b, now) - (if ok then 1.0 else 0.0)
            && b'.last <= now
  {
    RefillAtLeast(p, now, 0.0, now);
    assert Refill(p, now, now) == p.rps * 0.0 == 0.0;
  }

  // A denial leaves the bucket as it is; an admission stamps it.
  lemma TakeMarks(p: Params, b: Bucket, now: real)
    ensures var (b', ok) := Take(p, b, now);
            (!ok ==> b' == b) && (ok ==> b'.last == now)
  {
  }

  // A clock that has stepped back since the last take finds what that take left:
  // nothing is gained, and nothing is lost.
  lemma ClockStepsBack(p: Params, b: Bucket, now: real)
    requires now <= b.last
    ensures Level(p, b, now) == Min(p.burst as real, b.tokens)
  {
    assert Refill(p, b.last, now) == 0.0 by {
      if now == b.last {
        assert p.rps * (now - b.last) == 0.0;
      }
    }
  }
}
