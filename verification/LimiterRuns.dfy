// Whole runs of the limiter: requests and cleanup ticks, each atomic and in
// clock order. (SplitLimiter.dfy takes the two critical sections apart.)
module LimiterRuns {
  import opened TokenBucket
  import opened RateLimiter

  datatype Event = Allow(key: string, at: real) | Tick(at: real)

  // The clients after one event. A tick at `at` evicts with cutoff `at - ttl`.
  function Next(p: Params, cs: Clients, e: Event): Clients {
    match e
    case Allow(key, at) => Request(p, cs, key, at).0
    case Tick(at) => Evict(cs, at - p.ttl)
  }

  function Final(p: Params, cs: Clients, es: seq<Event>): Clients
    decreases es
  {
    if es == [] then cs else Final(p, Next(p, cs, es[0]), es[1..])
  }

  // The answers given to the requests of a run, in order.
  function Decisions(p: Params, cs: Clients, es: seq<Event>): seq<bool>
    decreases es
  {
    if es == [] then []
    else
      (if es[0].Allow? then [Request(p, cs, es[0].key, es[0].at).1] else [])
      + Decisions(p, Next(p, cs, es[0]), es[1..])
  }

  ghost predicate Ordered(start: real, es: seq<Event>)
    decreases es
  {
    es == [] || (start <= es[0].at && Ordered(es[0].at, es[1..]))
  }

  // What holds of the map between events: buckets are not in debt and no time
  // in it lies in the future.
  ghost predicate Coherent(p: Params, cs: Clients, now: real) {
    forall key <- cs ::
      && cs[key].bucket.last <= cs[key].lastSeen <= now
      && cs[key].bucket.tokens >= Min(0.0, p.burst as real)
  }

  // The tokens a request for `key` would find: an absent key has a full bucket.
  function LevelOf(p: Params, cs: Clients, key: string, now: real): real {
    if key in cs then Level(p, cs[key].bucket, now) else p.burst as real
  }

  lemma NextCoherent(p: Params, cs: Clients, now: real, e: Event)
    requires p.rps >= 0.0 && Coherent(p, cs, now) && now <= e.at
    ensures Coherent(p, Next(p, cs, e), e.at)
  {
  }

  lemma RequestUsesLevel(p: Params, cs: Clients, key: string, now: real)
    requires p.rps >= 0.0 && Coherent(p, cs, now)
    ensures var (cs', ok) := Request(p, cs, key, now);
            && ok == (LevelOf(p, cs, key, now) >= 1.0)
            && LevelOf(p, cs', key, now) == LevelOf(p, cs, key, now) - (if ok then 1.0 else 0.0)
            && cs'.Keys == cs.Keys + {key} && cs'[key].lastSeen == now
            && forall other :: other != key && other in cs ==> cs'[other] == cs[other]
  {
    TakeSpends(p, Stamp(p, cs, key, now)[key].bucket, now);
  }

  lemma LevelOfAdvances(p: Params, cs: Clients, key: string, now: real, later: real)
    requires p.rps >= 0.0 && Coherent(p, cs, now) && now <= later
    ensures LevelOf(p, cs, key, later) == Min(p.burst as real, LevelOf(p, cs, key, now) + Refill(p, now, later))
  {
    RefillSplits(p, now, now, later);
    if key in cs {
      LevelAdvances(p, cs[key].bucket, now, later);
    }
  }

  lemma {:induction false} DecisionsConcat(p: Params, cs: Clients, a: seq<Event>, b: seq<Event>)
    ensures Decisions(p, cs, a + b) == Decisions(p, cs, a) + Decisions(p, Final(p, cs, a), b)
    ensures Final(p, cs, a + b) == Final(p, Final(p, cs, a), b)
    decreases a
  {
    if a == [] {
      assert a + b == b;
    } else {
      assert (a + b)[0] == a[0] && (a + b)[1..] == a[1..] + b;
      DecisionsConcat(p, Next(p, cs, a[0]), a[1..], b);
    }
  }

  lemma {:induction false} FinalCoherent(p: Params, cs: Clients, now: real, es: seq<Event>, end: real)
    requires p.rps >= 0.0 && Coherent(p, cs, now) && Ordered(now, es)
    requires now <= end && forall e <- es :: e.at <= end
    ensures Coherent(p, Final(p, cs, es), end)
    decreases es
  {
    if es != [] {
      NextCoherent(p, cs, now, es[0]);
      FinalCoherent(p, Next(p, cs, es[0]), es[0].at, es[1..], end);
    }
  }

  // ----- One client's decisions depend on nobody else's requests -----

  function DecisionsFor(p: Params, cs: Clients, es: seq<Event>, key: string): seq<bool>
    decreases es
  {
    if es == [] then []
    else
      (if es[0].Allow? && es[0].key == key then [Request(p, cs, key, es[0].at).1] else [])
      + DecisionsFor(p, Next(p, cs, es[0]), es[1..], key)
  }

  // The run with every other client's requests erased and all ticks kept.
  function Only(es: seq<Event>, key: string): seq<Event>
    decreases es
  {
    if es == [] then []
    else (if es[0].Allow? && es[0].key != key then [] else [es[0]]) + Only(es[1..], key)
  }

  ghost predicate SameFor(cs: Clients, ds: Clients, key: string) {
    (key in cs <==> key in ds) && (key in cs ==> cs[key] == ds[key])
  }

  lemma {:induction false} ClientsIsolatedFrom(p: Params, cs: Clients, ds: Clients, es: seq<Event>, key: string)
    requires SameFor(cs, ds, key)
    ensures DecisionsFor(p, cs, es, key) == Decisions(p, ds, Only(es, key))
    decreases es
  {
    if es != [] {
      var rest := Only(es[1..], key);
      if es[0].Allow? && es[0].key != key {
        ClientsIsolatedFrom(p, Next(p, cs, es[0]), ds, es[1..], key);
        assert Only(es, key) == rest;
      } else {
        ClientsIsolatedFrom(p, Next(p, cs, es[0]), Next(p, ds, es[0]), es[1..], key);
        assert Only(es, key)[0] == es[0] && Only(es, key)[1..] == rest;
      }
    }
  }

  lemma ClientsIsolated(p: Params, es: seq<Event>, key: string)
    ensures DecisionsFor(p, map[], es, key) == Decisions(p, map[], Only(es, key))
  {
    ClientsIsolatedFrom(p, map[], map[], es, key);
  }

  // ----- How long an entry is kept, and how many there can be -----

  // Some tick happened within the last `gap`, or the run is younger than that.
  ghost predicate SweptWithin(es: seq<Event>, start: real, end: real, gap: real) {
    end - start <= gap || exists i :: 0 <= i < |es| && es[i].Tick? && end - es[i].at <= gap
  }

  // The requests of a run made at or after a given time.
  function Recent(es: seq<Event>, since: real): seq<Event> {
    if es == [] then []
    else (if es[0].Allow? && es[0].at >= since then [es[0]] else []) + Recent(es[1..], since)
  }

  lemma {:induction false} RecentHas(es: seq<Event>, since: real, i: int)
    requires 0 <= i < |es| && es[i].Allow? && es[i].at >= since
    ensures es[i] in Recent(es, since)
  {
    if i > 0 {
      RecentHas(es[1..], since, i - 1);
    }
  }

  // An entry's stamp is the time of a request for that key in the run, unless it
  // was there before the run began.
  lemma {:induction false} StampedByRequest(p: Params, cs: Clients, es: seq<Event>, key: string)
    requires key in Final(p, cs, es)
    ensures (key in cs && Final(p, cs, es)[key].lastSeen == cs[key].lastSeen)
            || Event.Allow(key, Final(p, cs, es)[key].lastSeen) in es
    decreases es
  {
    if es != [] {
      StampedByRequest(p, Next(p, cs, es[0]), es[1..], key);
    }
  }

  // Entries left after a tick are young, and stamps only grow from then on.
  lemma {:induction false} KeptAreYoung(p: Params, cs: Clients, now: real, es: seq<Event>, limit: real, key: string)
    requires Ordered(now, es) && limit <= now
    requires forall k <- cs :: cs[k].lastSeen >= limit
    requires key in Final(p, cs, es)
    ensures Final(p, cs, es)[key].lastSeen >= limit
    decreases es
  {
    if es != [] {
      KeptAreYoung(p, Next(p, cs, es[0]), es[0].at, es[1..], limit, key);
    }
  }

  lemma {:induction false} OrderedSplit(start: real, es: seq<Event>, i: int)
    requires Ordered(start, es) && 0 <= i < |es|
    ensures Ordered(es[i].at, es[i + 1..]) && start <= es[i].at
    decreases es
  {
    if i > 0 {
      OrderedSplit(es[0].at, es[1..], i - 1);
      assert es[1..][i - 1 + 1..] == es[i + 1..];
    }
  }

  // Every entry was asked for within `ttl + gap`. The ticker's period is ttl, so
  // with gap == ttl an idle entry outlives its last use by at most two periods.
  lemma Retention(p: Params, es: seq<Event>, start: real, end: real, gap: real, key: string)
    requires p.ttl >= 0.0 && Ordered(start, es) && start <= end && SweptWithin(es, start, end, gap)
    requires key in Final(p, map[], es)
    ensures Event.Allow(key, Final(p, map[], es)[key].lastSeen) in es
    ensures Final(p, map[], es)[key].lastSeen >= end - (p.ttl + gap)
  {
    StampedByRequest(p, map[], es, key);
    if end - start <= gap {
      KeptAreYoung(p, map[], start, es, start, key);
    } else {
      var i :| 0 <= i < |es| && es[i].Tick? && end - es[i].at <= gap;
      var kept := Final(p, map[], es[..i + 1]);
      assert es == es[..i + 1] + es[i + 1..];
      DecisionsConcat(p, map[], es[..i + 1], es[i + 1..]);
      assert es[..i + 1] == es[..i] + [es[i]];
      DecisionsConcat(p, map[], es[..i], [es[i]]);
      var before := Final(p, map[], es[..i]);
      assert Final(p, before, [es[i]]) == Next(p, before, es[i]);
      OrderedSplit(start, es, i);
      KeptAreYoung(p, kept, es[i].at, es[i + 1..], es[i].at - p.ttl, key);
    }
  }

  lemma {:induction false} FewKeys(keys: set<string>, es: seq<Event>)
    requires forall key <- keys :: exists e :: e in es && e.Allow? && e.key == key
    ensures |keys| <= |es|
    decreases es
  {
    if es != [] {
      var rest := if es[0].Allow? then keys - {es[0].key} else keys;
      assert |keys| <= |rest| + 1;
      FewKeys(rest, es[1..]);
    } else {
      assert keys == {};
    }
  }

  // Memory stays bounded: the map never holds more entries than there were
  // requests in the last `ttl + gap`.
  lemma MapSizeBounded(p: Params, es: seq<Event>, start: real, end: real, gap: real)
    requires p.ttl >= 0.0 && Ordered(start, es) && start <= end && SweptWithin(es, start, end, gap)
    ensures |Final(p, map[], es)| <= |Recent(es, end - (p.ttl + gap))|
  {
    var kept, recent := Final(p, map[], es), Recent(es, end - (p.ttl + gap));
    forall key <- kept.Keys
      ensures exists e :: e in recent && e.Allow? && e.key == key
    {
      Retention(p, es, start, end, gap, key);
      var e := Event.Allow(key, kept[key].lastSeen);
      var i :| 0 <= i < |es| && es[i] == e;
      RecentHas(es, end - (p.ttl + gap), i);
    }
    FewKeys(kept.Keys, recent);
    assert |kept| == |kept.Keys|;
  }
}
