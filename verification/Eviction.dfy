// Eviction is a forgetful cache of the limiter that keeps one bucket per client
// for ever. It is unobservable exactly when an idle bucket is full again by the
// time it may be evicted.
module Eviction {
  import opened TokenBucket
  import opened RateLimiter
  import opened LimiterRuns

  // The reference limiter: every client has a bucket from the start, ticks do
  // nothing. A key not in the map has not asked yet, so its bucket is full.
  type Forever = map<string, Bucket>

  function BucketOf(p: Params, fs: Forever, key: string, now: real): Bucket {
    if key in fs then fs[key] else Full(p, now)
  }

  function NextForever(p: Params, fs: Forever, e: Event): Forever {
    match e
    case Allow(key, at) => fs[key := Take(p, BucketOf(p, fs, key, at), at).0]
    case Tick(_) => fs
  }

  function ForeverDecisions(p: Params, fs: Forever, es: seq<Event>): seq<bool>
    decreases es
  {
    if es == [] then []
    else
      (if es[0].Allow? then [Take(p, BucketOf(p, fs, es[0].key, es[0].at), es[0].at).1] else [])
      + ForeverDecisions(p, NextForever(p, fs, es[0]), es[1..])
  }

  function ForeverLevel(p: Params, fs: Forever, key: string, now: real): real {
    Level(p, BucketOf(p, fs, key, now), now)
  }

  // The simulation relation: every client finds the same number of tokens.
  ghost predicate SameLevels(p: Params, cs: Clients, fs: Forever, now: real) {
    && (forall key <- fs :: fs[key].last <= now)
    && (forall key :: LevelOf(p, cs, key, now) == ForeverLevel(p, fs, key, now))
  }

  // The side condition: `ttl` seconds of refill fill a whole bucket.
  predicate RefillsWithinTtl(p: Params) {
    p.burst <= 0 || p.rps * p.ttl >= p.burst as real
  }

  lemma SameLevelsLater(p: Params, cs: Clients, fs: Forever, now: real, later: real)
    requires p.rps >= 0.0 && Coherent(p, cs, now) && SameLevels(p, cs, fs, now) && now <= later
    ensures SameLevels(p, cs, fs, later)
  {
    RefillSplits(p, now, now, later);
    FullIsFull(p, now);
    FullIsFull(p, later);
    forall key: string
      ensures LevelOf(p, cs, key, later) == ForeverLevel(p, fs, key, later)
    {
      LevelOfAdvances(p, cs, key, now, later);
      if key in fs {
        LevelAdvances(p, fs[key], now, later);
      }
      assert LevelOf(p, cs, key, now) == ForeverLevel(p, fs, key, now);
    }
  }

  // A tick drops only buckets that are full, so it changes no level.
  lemma TickKeepsLevels(p: Params, cs: Clients, at: real, key: string)
    requires p.rps >= 0.0 && p.ttl >= 0.0 && Coherent(p, cs, at) && RefillsWithinTtl(p)
    ensures LevelOf(p, Evict(cs, at - p.ttl), key, at) == LevelOf(p, cs, key, at)
  {
    if key in cs && cs[key].lastSeen < at - p.ttl {
      IdleRefills(p, cs[key].bucket, p.ttl, at);
    }
  }

  lemma StepSimulates(p: Params, cs: Clients, fs: Forever, e: Event)
    requires p.rps >= 0.0 && p.ttl >= 0.0 && RefillsWithinTtl(p)
    requires Coherent(p, cs, e.at) && SameLevels(p, cs, fs, e.at)
    ensures SameLevels(p, Next(p, cs, e), NextForever(p, fs, e), e.at)
    ensures e.Allow? ==> Request(p, cs, e.key, e.at).1 == Take(p, BucketOf(p, fs, e.key, e.at), e.at).1
  {
    var cs', fs' := Next(p, cs, e), NextForever(p, fs, e);
    if e.Allow? {
      assert LevelOf(p, cs, e.key, e.at) == ForeverLevel(p, fs, e.key, e.at);
      RequestUsesLevel(p, cs, e.key, e.at);
      TakeSpends(p, BucketOf(p, fs, e.key, e.at), e.at);
    }
    forall key: string
      ensures LevelOf(p, cs', key, e.at) == ForeverLevel(p, fs', key, e.at)
    {
      assert LevelOf(p, cs, key, e.at) == ForeverLevel(p, fs, key, e.at);
      if e.Tick? {
        TickKeepsLevels(p, cs, e.at, key);
      }
    }
  }

  lemma {:induction false} Simulation(p: Params, cs: Clients, fs: Forever, now: real, es: seq<Event>)
    requires p.rps >= 0.0 && p.ttl >= 0.0 && RefillsWithinTtl(p)
    requires Coherent(p, cs, now) && SameLevels(p, cs, fs, now) && Ordered(now, es)
    ensures Decisions(p, cs, es) == ForeverDecisions(p, fs, es)
    decreases es
  {
    if es != [] {
      var e := es[0];
      SameLevelsLater(p, cs, fs, now, e.at);
      StepSimulates(p, cs, fs, e);
      NextCoherent(p, cs, now, e);
      Simulation(p, Next(p, cs, e), NextForever(p, fs, e), e.at, es[1..]);
    }
  }

  // Any run, any set of clients, any placement of ticks: same answers.
  lemma EvictionUnobservable(p: Params, start: real, es: seq<Event>)
    requires p.rps >= 0.0 && p.ttl >= 0.0 && RefillsWithinTtl(p) && Ordered(start, es)
    ensures Decisions(p, map[], es) == ForeverDecisions(p, map[], es)
  {
    Simulation(p, map[], map[], start, es);
  }

  // ----- The side condition is also necessary -----

  // `n` requests by one client at one instant.
  function Flood(key: string, at: real, n: nat): seq<Event> {
    seq(n, _ => Event.Allow(key, at))
  }

  ghost predicate AllAdmitted(ds: seq<bool>) {
    forall d <- ds :: d
  }

  lemma FloodUnfolds(key: string, at: real, n: nat)
    requires n > 0
    ensures Flood(key, at, n)[0] == Event.Allow(key, at) && Flood(key, at, n)[1..] == Flood(key, at, n - 1)
  {
  }

  // A flood is admitted whole when the client has a token for each request.
  lemma {:induction false} FloodAdmitted(p: Params, cs: Clients, key: string, at: real, n: nat)
    requires p.rps >= 0.0 && Coherent(p, cs, at) && LevelOf(p, cs, key, at) >= n as real
    ensures var es := Flood(key, at, n);
            && |Decisions(p, cs, es)| == n && AllAdmitted(Decisions(p, cs, es))
            && Coherent(p, Final(p, cs, es), at)
            && (n > 0 ==> Final(p, cs, es).Keys == cs.Keys + {key} && Final(p, cs, es)[key].lastSeen == at)
    decreases n
  {
    if n > 0 {
      RequestUsesLevel(p, cs, key, at);
      NextCoherent(p, cs, at, Event.Allow(key, at));
      FloodUnfolds(key, at, n);
      FloodAdmitted(p, Next(p, cs, Event.Allow(key, at)), key, at, n - 1);
    }
  }

  // The reference limiter admits a flood whole only with a token for each
  // request, and then spends them.
  lemma {:induction false} FloodNeedsTokens(p: Params, fs: Forever, key: string, at: real, n: nat)
    requires p.rps >= 0.0 && (key in fs ==> fs[key].last <= at)
    requires AllAdmitted(ForeverDecisions(p, fs, Flood(key, at, n)))
    requires n > 0
    ensures ForeverLevel(p, fs, key, at) >= n as real
    decreases n
  {
    var fs' := NextForever(p, fs, Event.Allow(key, at));
    TakeSpends(p, BucketOf(p, fs, key, at), at);
    FloodUnfolds(key, at, n);
    var ds := ForeverDecisions(p, fs, Flood(key, at, n));
    assert ds[0] == Take(p, BucketOf(p, fs, key, at), at).1;
    assert ds[1..] == ForeverDecisions(p, fs', Flood(key, at, n - 1));
    assert ds[0] in ds && forall d <- ds[1..] :: d in ds;
    if n > 1 {
      FloodNeedsTokens(p, fs', key, at, n - 1);
    }
  }

  function ForeverFinal(p: Params, fs: Forever, es: seq<Event>): Forever
    decreases es
  {
    if es == [] then fs else ForeverFinal(p, NextForever(p, fs, es[0]), es[1..])
  }

  lemma {:induction false} ForeverConcat(p: Params, fs: Forever, a: seq<Event>, b: seq<Event>)
    ensures ForeverDecisions(p, fs, a + b) == ForeverDecisions(p, fs, a) + ForeverDecisions(p, ForeverFinal(p, fs, a), b)
    decreases a
  {
    if a == [] {
      assert a + b == b;
    } else {
      assert (a + b)[0] == a[0] && (a + b)[1..] == a[1..] + b;
      ForeverConcat(p, NextForever(p, fs, a[0]), a[1..], b);
    }
  }

  lemma {:induction false} FloodLeaves(p: Params, fs: Forever, key: string, at: real, n: nat)
    requires p.rps >= 0.0 && (key in fs ==> fs[key].last <= at) && n > 0
    requires AllAdmitted(ForeverDecisions(p, fs, Flood(key, at, n)))
    ensures var fs' := ForeverFinal(p, fs, Flood(key, at, n));
            key in fs' && fs'[key] == Bucket(ForeverLevel(p, fs, key, at) - n as real, at)
    decreases n
  {
    var fs' := NextForever(p, fs, Event.Allow(key, at));
    TakeSpends(p, BucketOf(p, fs, key, at), at);
    FloodUnfolds(key, at, n);
    var ds := ForeverDecisions(p, fs, Flood(key, at, n));
    assert ds[0] == Take(p, BucketOf(p, fs, key, at), at).1;
    assert ds[1..] == ForeverDecisions(p, fs', Flood(key, at, n - 1));
    assert ds[0] in ds && forall d <- ds[1..] :: d in ds;
    if n > 1 {
      FloodLeaves(p, fs', key, at, n - 1);
    } else {
      assert Flood(key, at, 0) == [];
    }
  }

  // A pause longer than `ttl` that still does not refill a whole bucket.
  function ShortPause(p: Params): (t: real)
    requires p.rps >= 0.0 && p.ttl >= 0.0 && p.burst > 0 && p.rps * p.ttl < p.burst as real
    ensures t > p.ttl && p.rps * t < p.burst as real
  {
    if p.rps == 0.0 then p.ttl + 1.0
    else
      var t := (p.ttl + p.burst as real / p.rps) / 2.0;
      PauseFits(p, t);
      t
  }

  lemma PauseFits(p: Params, t: real)
    requires p.rps > 0.0 && p.rps * p.ttl < p.burst as real
    requires t == (p.ttl + p.burst as real / p.rps) / 2.0
    ensures t > p.ttl && p.rps * t < p.burst as real
  {
    var q := p.burst as real / p.rps;
    assert p.rps * q == p.burst as real;
    if q <= p.ttl {
      ProductMonotone(p.rps, q, p.ttl);
    }
    assert p.rps * t == (p.rps * p.ttl + p.rps * q) / 2.0;
  }

  // Spend the bucket, stay away for the pause, spend it again: the evicting
  // limiter lets all of it through.
  function PauseRun(p: Params, pause: real): seq<Event>
    requires p.burst > 0
  {
    Flood("c", 0.0, p.burst) + ([Tick(pause)] + Flood("c", pause, p.burst))
  }

  lemma {:induction false} FloodOrdered(start: real, at: real, n: nat)
    requires start <= at
    ensures Ordered(start, Flood("c", at, n))
    decreases n
  {
    if n > 0 {
      FloodUnfolds("c", at, n);
      FloodOrdered(at, at, n - 1);
    }
  }

  lemma {:induction false} OrderedConcat(start: real, a: seq<Event>, mid: real, b: seq<Event>)
    requires Ordered(start, a) && (forall e <- a :: e.at <= mid) && start <= mid && Ordered(mid, b)
    ensures Ordered(start, a + b)
    decreases a
  {
    if a == [] {
      assert a + b == b;
    } else {
      assert (a + b)[0] == a[0] && (a + b)[1..] == a[1..] + b;
      OrderedConcat(a[0].at, a[1..], mid, b);
    }
  }

  lemma PauseRunOrdered(p: Params, pause: real)
    requires p.burst > 0 && pause > 0.0
    ensures Ordered(0.0, PauseRun(p, pause))
  {
    FloodOrdered(0.0, 0.0, p.burst);
    FloodOrdered(pause, pause, p.burst);
    var tail := [Tick(pause)] + Flood("c", pause, p.burst);
    assert tail[1..] == Flood("c", pause, p.burst);
    assert Ordered(0.0, tail);
    OrderedConcat(0.0, Flood("c", 0.0, p.burst), 0.0, tail);
  }

  lemma PauseRunAdmitted(p: Params, pause: real)
    requires p.rps >= 0.0 && p.ttl >= 0.0 && p.burst > 0 && pause > p.ttl
    ensures AllAdmitted(Decisions(p, map[], PauseRun(p, pause)))
  {
    var first, second := Flood("c", 0.0, p.burst), Flood("c", pause, p.burst);
    FloodAdmitted(p, map[], "c", 0.0, p.burst);
    var spent := Final(p, map[], first);
    var evicted := Next(p, spent, Tick(pause));
    assert evicted == map[];
    FloodAdmitted(p, evicted, "c", pause, p.burst);
    assert ([Tick(pause)] + second)[1..] == second;
    assert Decisions(p, spent, [Tick(pause)] + second) == Decisions(p, evicted, second);
    DecisionsConcat(p, map[], first, [Tick(pause)] + second);
  }

  lemma SpentLevel(p: Params, b: Bucket, pause: real)
    requires p.rps >= 0.0 && pause > 0.0 && b.tokens <= 0.0 && b.last == 0.0
    ensures Level(p, b, pause) <= p.rps * pause
  {
  }

  lemma PauseRunDenied(p: Params, pause: real)
    requires p.rps >= 0.0 && p.burst > 0 && pause > 0.0 && p.rps * pause < p.burst as real
    ensures !AllAdmitted(ForeverDecisions(p, map[], PauseRun(p, pause)))
  {
    var first, second := Flood("c", 0.0, p.burst), Flood("c", pause, p.burst);
    var tail := [Tick(pause)] + second;
    var d1, d2 := ForeverDecisions(p, map[], first), ForeverDecisions(p, ForeverFinal(p, map[], first), tail);
    ForeverConcat(p, map[], first, tail);
    if AllAdmitted(d1 + d2) {
      assert forall d <- d1 :: d in d1 + d2;
      assert forall d <- d2 :: d in d1 + d2;
      FloodLeaves(p, map[], "c", 0.0, p.burst);
      var fs := ForeverFinal(p, map[], first);
      assert ([Tick(pause)] + second)[1..] == second;
      assert d2 == ForeverDecisions(p, fs, second);
      SpentLevel(p, fs["c"], pause);
      FloodNeedsTokens(p, fs, "c", pause, p.burst);
    }
  }

  ghost predicate UnobservableIn(p: Params, start: real, es: seq<Event>) {
    Ordered(start, es) ==> Decisions(p, map[], es) == ForeverDecisions(p, map[], es)
  }

  // Eviction is unobservable in every run exactly when ttl seconds of refill
  // fill a whole bucket (or the bucket can never hold a token anyway).
  lemma EvictionUnobservableIff(p: Params)
    requires p.rps >= 0.0 && p.ttl >= 0.0
    ensures (forall start, es :: UnobservableIn(p, start, es)) <==> RefillsWithinTtl(p)
  {
    if RefillsWithinTtl(p) {
      forall start, es
        ensures UnobservableIn(p, start, es)
      {
        if Ordered(start, es) {
          EvictionUnobservable(p, start, es);
        }
      }
    } else {
      var pause := ShortPause(p);
      PauseRunOrdered(p, pause);
      PauseRunAdmitted(p, pause);
      PauseRunDenied(p, pause);
      assert !UnobservableIn(p, 0.0, PauseRun(p, pause));
    }
  }

  // The shipped settings (20 requests per second, burst 40, ten minutes) are on
  // the safe side of the condition.
  lemma DefaultsUnobservable(start: real, es: seq<Event>)
    requires Ordered(start, es)
    ensures var p := Params(20.0, 40, 600.0); Decisions(p, map[], es) == ForeverDecisions(p, map[], es)
  {
    EvictionUnobservable(Params(20.0, 40, 600.0), start, es);
  }
}
