// When eviction is unobservable with the critical sections taken apart: the
// condition of SplitLimiter.dfy is also necessary. Whenever it fails there is a
// run that some caller can tell from the limiter that never evicts.
module SplitExact {
  import opened Wrappers
  import opened TokenBucket
  import opened RateLimiter
  import opened Eviction
  import opened SplitLimiter
  import Runs = LimiterRuns

  // ----- The reference limiter serves one request per completed take -----

  ghost function Requests(pending: map<nat, string>, steps: seq<Step>): seq<Runs.Event>
    decreases steps
  {
    if steps == [] || (steps[0].TakeToken? && steps[0].caller !in pending) then []
    else
      match steps[0]
      case LookUp(caller, key, _) => Requests(pending[caller := key], steps[1..])
      case TakeToken(caller, at) => [Runs.Event.Allow(pending[caller], at)] + Requests(pending - {caller}, steps[1..])
      case _ => Requests(pending, steps[1..])
  }

  lemma {:induction false} IdealServesRequests(p: Params, i: Ideal, steps: seq<Step>)
    ensures IdealAnswers(p, i, steps) == ForeverDecisions(p, i.buckets, Requests(i.pending, steps))
    decreases steps
  {
    if steps != [] && !(steps[0].TakeToken? && steps[0].caller !in i.pending) {
      IdealServesRequests(p, IdealNext(p, i, steps[0]), steps[1..]);
      if steps[0].TakeToken? {
        var e := Runs.Event.Allow(i.pending[steps[0].caller], steps[0].at);
        var rest := Requests(i.pending - {steps[0].caller}, steps[1..]);
        assert ([e] + rest)[0] == e && ([e] + rest)[1..] == rest;
      }
    }
  }

  // ----- Many callers at one instant -----

  // Callers a, .., b - 1 look "c" up, and then come other steps.
  function LookUps(a: nat, b: nat, at: real, rest: seq<Step>): seq<Step>
    requires a <= b
    decreases b - a
  {
    if a == b then rest else [LookUp(a, "c", at)] + LookUps(a + 1, b, at, rest)
  }

  // Callers a, .., b - 1 take their tokens.
  function Takes(a: nat, b: nat, at: real, rest: seq<Step>): seq<Step>
    requires a <= b
    decreases b - a
  {
    if a == b then rest else [TakeToken(a, at)] + Takes(a + 1, b, at, rest)
  }

  function Sweep(at: real, rest: seq<Step>): seq<Step> {
    [ReadClock(at)] + ([DeleteIdle(at)] + rest)
  }

  function Callers(a: nat, b: nat): (cs: set<nat>)
    requires a <= b
    ensures forall c :: c in cs <==> a <= c < b
    decreases b - a
  {
    if a == b then {} else {a} + Callers(a + 1, b)
  }

  function Names(a: nat, b: nat): map<nat, string>
    requires a <= b
  {
    map c | c in Callers(a, b) :: "c"
  }

  lemma {:induction false} LookUpsRequest(pending: map<nat, string>, a: nat, b: nat, at: real, rest: seq<Step>)
    requires a <= b
    ensures Requests(pending, LookUps(a, b, at, rest)) == Requests(pending + Names(a, b), rest)
    decreases b - a
  {
    if a == b {
      assert pending + Names(a, b) == pending;
    } else {
      assert LookUps(a, b, at, rest)[1..] == LookUps(a + 1, b, at, rest);
      LookUpsRequest(pending[a := "c"], a + 1, b, at, rest);
      assert pending[a := "c"] + Names(a + 1, b) == pending + Names(a, b);
    }
  }

  lemma FloodCons(at: real, n: nat, rest: seq<Runs.Event>)
    requires n > 0
    ensures [Runs.Event.Allow("c", at)] + (Flood("c", at, n - 1) + rest) == Flood("c", at, n) + rest
  {
    assert Flood("c", at, n) == [Runs.Event.Allow("c", at)] + Flood("c", at, n - 1);
  }

  lemma OneRequest(pending: map<nat, string>, a: nat, at: real, rest: seq<Step>)
    requires a in pending && pending[a] == "c"
    ensures Requests(pending, [TakeToken(a, at)] + rest) == [Runs.Event.Allow("c", at)] + Requests(pending - {a}, rest)
  {
    assert ([TakeToken(a, at)] + rest)[1..] == rest;
  }

  lemma {:induction false} TakesRequest(pending: map<nat, string>, a: nat, b: nat, at: real, rest: seq<Step>)
    requires a <= b && forall c <- Callers(a, b) :: c in pending && pending[c] == "c"
    ensures Requests(pending, Takes(a, b, at, rest)) == Flood("c", at, b - a) + Requests(pending - Callers(a, b), rest)
    decreases b - a
  {
    if a == b {
      assert pending - Callers(a, b) == pending && Flood("c", at, 0) == [];
    } else {
      assert a in Callers(a, b);
      OneRequest(pending, a, at, Takes(a + 1, b, at, rest));
      TakesRequest(pending - {a}, a + 1, b, at, rest);
      assert pending - {a} - Callers(a + 1, b) == pending - Callers(a, b);
      FloodCons(at, b - a, Requests(pending - Callers(a, b), rest));
    }
  }

  lemma SweepRequests(pending: map<nat, string>, at: real, rest: seq<Step>)
    ensures Requests(pending, Sweep(at, rest)) == Requests(pending, rest)
  {
    assert Sweep(at, rest)[1..] == [DeleteIdle(at)] + rest && ([DeleteIdle(at)] + rest)[1..] == rest;
  }

  // ----- What the limiter does in such phases, with more steps to come -----

  ghost predicate NobodyStalled(s: System, stall: real, at: real) {
    forall c <- s.pending :: at - s.pending[c].since <= stall
  }

  lemma Unfolds(p: Params, stall: real, now: real, s: System, step: Step, rest: seq<Step>)
    requires now <= step.at && Enabled(s, step) && NobodyStalled(s, stall, step.at)
    requires Timely(p, stall, step.at, Next(p, s, step), rest)
    ensures Timely(p, stall, now, s, [step] + rest)
    ensures Answers(p, stall, now, s, [step] + rest) == Answer(p, s, step) + Answers(p, stall, step.at, Next(p, s, step), rest)
    ensures Final(p, stall, now, s, [step] + rest) == Final(p, stall, step.at, Next(p, s, step), rest)
  {
    assert ([step] + rest)[1..] == rest;
  }

  // The bucket that a lookup of "c" hands out.
  function Cell(s: System): nat {
    if "c" in s.entries then s.entries["c"].bucket else |s.heap|
  }

  function LookedUp(p: Params, s: System, a: nat, b: nat, at: real): System
    requires a <= b
  {
    s.(entries := s.entries["c" := Entry(Cell(s), at)],
       heap := if "c" in s.entries then s.heap else s.heap + [Full(p, at)],
       pending := s.pending + map c | c in Callers(a, b) :: InFlight("c", Cell(s), at))
  }

  // One lookup, and the rest of them from there.
  lemma LookedUpStep(p: Params, s: System, a: nat, b: nat, at: real)
    requires a < b && Enabled(s, LookUp(a, "c", at))
    ensures LookedUp(p, Next(p, s, LookUp(a, "c", at)), a + 1, b, at) == LookedUp(p, s, a, b, at)
  {
    var s1 := Next(p, s, LookUp(a, "c", at));
    assert Cell(s1) == Cell(s);
    assert LookedUp(p, s1, a + 1, b, at).pending == LookedUp(p, s, a, b, at).pending;
  }

  lemma LookedUpLast(p: Params, s: System, a: nat, at: real)
    requires Enabled(s, LookUp(a, "c", at))
    ensures Next(p, s, LookUp(a, "c", at)) == LookedUp(p, s, a, a + 1, at)
  {
    assert Next(p, s, LookUp(a, "c", at)).pending == LookedUp(p, s, a, a + 1, at).pending;
  }

  lemma LookUpKeepsReady(p: Params, stall: real, s: System, a: nat, b: nat, at: real)
    requires a < b && stall >= 0.0 && Enabled(s, LookUp(a, "c", at)) && NobodyStalled(s, stall, at)
    requires forall c <- Callers(a, b) :: c !in s.pending
    ensures var s1 := Next(p, s, LookUp(a, "c", at));
            WellFormed(s1) && NobodyStalled(s1, stall, at) && forall c <- Callers(a + 1, b) :: c !in s1.pending
  {
  }

  lemma {:induction false} LookUpsRun(p: Params, stall: real, now: real, s: System, a: nat, b: nat, at: real, rest: seq<Step>)
    requires a < b && now <= at && stall >= 0.0 && WellFormed(s) && NobodyStalled(s, stall, at)
    requires forall c <- Callers(a, b) :: c !in s.pending
    requires Timely(p, stall, at, LookedUp(p, s, a, b, at), rest)
    ensures Timely(p, stall, now, s, LookUps(a, b, at, rest))
    ensures Answers(p, stall, now, s, LookUps(a, b, at, rest)) == Answers(p, stall, at, LookedUp(p, s, a, b, at), rest)
    decreases b - a
  {
    assert a in Callers(a, b);
    if a + 1 == b {
      LookedUpLast(p, s, a, at);
    } else {
      LookedUpStep(p, s, a, b, at);
      LookUpKeepsReady(p, stall, s, a, b, at);
      LookUpsRun(p, stall, at, Next(p, s, LookUp(a, "c", at)), a + 1, b, at, rest);
    }
    Unfolds(p, stall, now, s, LookUp(a, "c", at), LookUps(a + 1, b, at, rest));
  }

  // Callers a, .., b - 1 have taken a token each from one bucket.
  function Taken(p: Params, s: System, cell: nat, a: nat, b: nat, at: real): System
    requires a < b && cell < |s.heap|
  {
    s.(heap := s.heap[cell := Bucket(Level(p, s.heap[cell], at) - (b - a) as real, at)], pending := s.pending - Callers(a, b))
  }

  lemma LevelAfterTake(p: Params, b: Bucket, at: real)
    requires p.rps >= 0.0 && Level(p, b, at) >= 1.0
    ensures Take(p, b, at) == (Bucket(Level(p, b, at) - 1.0, at), true)
    ensures Level(p, Bucket(Level(p, b, at) - 1.0, at), at) == Level(p, b, at) - 1.0
  {
    assert p.rps * (at - at) == 0.0;
  }

  // One take, and the rest of them from there.
  lemma TakenStep(p: Params, s: System, cell: nat, a: nat, b: nat, at: real)
    requires a + 1 < b && p.rps >= 0.0 && Enabled(s, TakeToken(a, at)) && cell == s.pending[a].bucket
    requires Level(p, s.heap[cell], at) >= (b - a) as real
    ensures var s1 := Next(p, s, TakeToken(a, at));
            && Level(p, s1.heap[cell], at) >= (b - (a + 1)) as real
            && Taken(p, s1, cell, a + 1, b, at) == Taken(p, s, cell, a, b, at)
  {
    LevelAfterTake(p, s.heap[cell], at);
    var s1 := Next(p, s, TakeToken(a, at));
    assert (b - a) as real == (b - (a + 1)) as real + 1.0;
    assert Taken(p, s1, cell, a + 1, b, at).heap == Taken(p, s, cell, a, b, at).heap;
    assert s.pending - {a} - Callers(a + 1, b) == s.pending - Callers(a, b);
  }

  lemma TakenLast(p: Params, s: System, cell: nat, a: nat, at: real)
    requires p.rps >= 0.0 && Enabled(s, TakeToken(a, at)) && cell == s.pending[a].bucket
    requires Level(p, s.heap[cell], at) >= 1.0
    ensures Next(p, s, TakeToken(a, at)) == Taken(p, s, cell, a, a + 1, at)
  {
    LevelAfterTake(p, s.heap[cell], at);
    assert Callers(a, a + 1) == {a};
  }

  lemma TakeKeepsReady(p: Params, stall: real, s: System, cell: nat, a: nat, b: nat, at: real)
    requires a < b && Enabled(s, TakeToken(a, at)) && NobodyStalled(s, stall, at)
    requires forall c <- Callers(a, b) :: c in s.pending && s.pending[c].bucket == cell
    ensures var s1 := Next(p, s, TakeToken(a, at));
            && WellFormed(s1) && NobodyStalled(s1, stall, at)
            && forall c <- Callers(a + 1, b) :: c in s1.pending && s1.pending[c].bucket == cell
  {
  }

  lemma {:induction false} TakesRun(
    p: Params, stall: real, now: real, s: System, cell: nat, a: nat, b: nat, at: real, rest: seq<Step>)
    requires a < b && p.rps >= 0.0 && now <= at && WellFormed(s) && NobodyStalled(s, stall, at)
    requires cell < |s.heap| && forall c <- Callers(a, b) :: c in s.pending && s.pending[c].bucket == cell
    requires Level(p, s.heap[cell], at) >= (b - a) as real
    requires Timely(p, stall, at, Taken(p, s, cell, a, b, at), rest)
    ensures Timely(p, stall, now, s, Takes(a, b, at, rest))
    ensures AllAdmitted(Answers(p, stall, at, Taken(p, s, cell, a, b, at), rest))
            ==> AllAdmitted(Answers(p, stall, now, s, Takes(a, b, at, rest)))
    decreases b - a
  {
    assert a in Callers(a, b);
    assert (b - a) as real >= 1.0;
    if a + 1 == b {
      TakenLast(p, s, cell, a, at);
    } else {
      TakenStep(p, s, cell, a, b, at);
      TakeKeepsReady(p, stall, s, cell, a, b, at);
      TakesRun(p, stall, at, Next(p, s, TakeToken(a, at)), cell, a + 1, b, at, rest);
    }
    LevelAfterTake(p, s.heap[cell], at);
    Unfolds(p, stall, now, s, TakeToken(a, at), Takes(a + 1, b, at, rest));
  }

  // A sweep that deletes the only entry.
  lemma SweepRun(p: Params, stall: real, now: real, s: System, at: real, rest: seq<Step>)
    requires now <= at && WellFormed(s) && NobodyStalled(s, stall, at) && s.cutoff == None
    requires s.entries.Keys == {"c"} && s.entries["c"].lastSeen < at - p.ttl
    requires Timely(p, stall, at, s.(entries := map[]), rest)
    ensures Timely(p, stall, now, s, Sweep(at, rest))
    ensures Answers(p, stall, now, s, Sweep(at, rest)) == Answers(p, stall, at, s.(entries := map[]), rest)
    ensures Final(p, stall, now, s, Sweep(at, rest)) == Final(p, stall, at, s.(entries := map[]), rest)
  {
    var s1 := Next(p, s, ReadClock(at));
    assert Next(p, s1, DeleteIdle(at)) == s.(entries := map[]);
    Unfolds(p, stall, at, s1, DeleteIdle(at), rest);
    Unfolds(p, stall, now, s, ReadClock(at), [DeleteIdle(at)] + rest);
  }

  // ----- A caller stalled for longer than ttl -----

  // Caller 0 looks up at time 0; once its entry is old enough the sweep deletes
  // it, a whole burst of others look up, and then all take their tokens at once.
  function StalledRun(n: nat, at: real): seq<Step> {
    LookUps(0, 1, 0.0, Sweep(at, LookUps(1, n + 1, at, Takes(0, 1, at, Takes(1, n + 1, at, [])))))
  }

  // Caller 0 has looked up and its entry is gone.
  function Forgotten(p: Params): System {
    System(map[], [Full(p, 0.0)], map[0 := InFlight("c", 0, 0.0)], None)
  }

  lemma FullLater(p: Params, from: real, at: real)
    requires p.rps >= 0.0 && from <= at
    ensures Level(p, Full(p, from), at) == p.burst as real
  {
    RefillAtLeast(p, from, 0.0, at);
  }

  // Caller 0 still holds the forgotten bucket, n others hold the new one.
  function Crowd(p: Params, n: nat, at: real): System {
    LookedUp(p, Forgotten(p), 1, n + 1, at)
  }

  lemma StalledTake(p: Params, n: nat, stall: real, at: real, rest: seq<Step>)
    requires p.rps >= 0.0 && p.burst > 0 && 0.0 <= at <= stall
    requires Timely(p, stall, at, Taken(p, Crowd(p, n, at), 0, 0, 1, at), rest)
    ensures var s, s1 := Crowd(p, n, at), Taken(p, Crowd(p, n, at), 0, 0, 1, at);
            && Timely(p, stall, at, s, Takes(0, 1, at, rest))
            && (AllAdmitted(Answers(p, stall, at, s1, rest)) ==> AllAdmitted(Answers(p, stall, at, s, Takes(0, 1, at, rest))))
  {
    var s := Crowd(p, n, at);
    FullLater(p, 0.0, at);
    assert s.heap[0] == Full(p, 0.0);
    assert Callers(0, 1) == {0} && s.pending[0].bucket == 0;
    TakesRun(p, stall, at, s, 0, 0, 1, at, rest);
  }

  lemma CrowdTakes(p: Params, stall: real, at: real)
    requires p.rps >= 0.0 && p.burst > 0 && 0.0 <= at <= stall
    ensures var n: nat := p.burst; var s1 := Taken(p, Crowd(p, n, at), 0, 0, 1, at);
            Timely(p, stall, at, s1, Takes(1, n + 1, at, [])) && AllAdmitted(Answers(p, stall, at, s1, Takes(1, n + 1, at, [])))
  {
    var n: nat := p.burst;
    var s1 := Taken(p, Crowd(p, n, at), 0, 0, 1, at);
    assert |s1.heap| == 2 && s1.heap[1] == Full(p, at);
    FullLater(p, at, at);
    assert Callers(0, 1) == {0};
    assert forall c <- Callers(1, n + 1) :: c in s1.pending && s1.pending[c].bucket == 1;
    TakesRun(p, stall, at, s1, 1, 1, n + 1, at, []);
  }

  // The first lookup, seen from the moment after the sweep.
  lemma FirstIsForgotten(p: Params)
    ensures var s := LookedUp(p, INITIAL, 0, 1, 0.0);
            && WellFormed(s) && s.entries == map["c" := Entry(0, 0.0)] && s.cutoff == None
            && s.(entries := map[]) == Forgotten(p)
  {
    assert Callers(0, 1) == {0};
    assert LookedUp(p, INITIAL, 0, 1, 0.0).heap == [Full(p, 0.0)];
  }

  lemma StalledRunAdmitted(p: Params, stall: real, at: real)
    requires p.rps >= 0.0 && p.burst > 0 && p.ttl < at && 0.0 <= at <= stall
    ensures var steps := StalledRun(p.burst, at);
            Timely(p, stall, 0.0, INITIAL, steps) && AllAdmitted(Answers(p, stall, 0.0, INITIAL, steps))
  {
    var n: nat := p.burst;
    var takes := Takes(0, 1, at, Takes(1, n + 1, at, []));
    CrowdTakes(p, stall, at);
    StalledTake(p, n, stall, at, Takes(1, n + 1, at, []));
    LookUpsRun(p, stall, at, Forgotten(p), 1, n + 1, at, takes);
    FirstIsForgotten(p);
    SweepRun(p, stall, 0.0, LookedUp(p, INITIAL, 0, 1, 0.0), at, LookUps(1, n + 1, at, takes));
    LookUpsRun(p, stall, 0.0, INITIAL, 0, 1, 0.0, Sweep(at, LookUps(1, n + 1, at, takes)));
  }

  lemma StalledRunRequests(n: nat, at: real)
    ensures Requests(map[], StalledRun(n, at)) == Flood("c", at, n + 1)
  {
    var takes := Takes(0, 1, at, Takes(1, n + 1, at, []));
    LookUpsRequest(map[], 0, 1, 0.0, Sweep(at, LookUps(1, n + 1, at, takes)));
    SweepRequests(map[] + Names(0, 1), at, LookUps(1, n + 1, at, takes));
    LookUpsRequest(map[] + Names(0, 1), 1, n + 1, at, takes);
    var all := map[] + Names(0, 1) + Names(1, n + 1);
    TakesRequest(all, 0, 1, at, Takes(1, n + 1, at, []));
    TakesRequest(all - Callers(0, 1), 1, n + 1, at, []);
    assert Flood("c", at, 1) + (Flood("c", at, n) + []) == Flood("c", at, n + 1);
  }

  // A whole burst and one request more get through in one instant, for any
  // settings; the limiter that never evicts denies some of them.
  lemma StalledCallerEscapes(p: Params, stall: real, at: real)
    requires p.rps >= 0.0 && p.burst > 0 && p.ttl < at && 0.0 <= at <= stall
    ensures var steps := StalledRun(p.burst, at);
            && Timely(p, stall, 0.0, INITIAL, steps)
            && AllAdmitted(Answers(p, stall, 0.0, INITIAL, steps))
            && !AllAdmitted(IdealAnswers(p, Ideal(map[], map[]), steps))
  {
    StalledRunAdmitted(p, stall, at);
    StalledRunRequests(p.burst, at);
    IdealServesRequests(p, Ideal(map[], map[]), StalledRun(p.burst, at));
    if AllAdmitted(ForeverDecisions(p, map[], Flood("c", at, p.burst + 1))) {
      FloodNeedsTokens(p, map[], "c", at, p.burst + 1);
    }
  }

  // ----- Callers stalled for less than ttl -----

  // A whole burst of callers look up at time 0 and take their tokens as late as
  // they may. The sweep deletes the entry by the time of the lookups, and a
  // second burst finds a fresh bucket before the first is refilled.
  function LateRun(n: nat, late: real, at: real): seq<Step> {
    LookUps(0, n, 0.0, Takes(0, n, late, Sweep(at, LookUps(0, n, at, Takes(0, n, at, [])))))
  }

  // The first burst is spent and its entry is gone.
  function SpentAndForgotten(p: Params, late: real): System {
    System(map[], [Bucket(0.0, late)], map[], None)
  }

  lemma SecondBurst(p: Params, stall: real, late: real, at: real)
    requires p.rps >= 0.0 && p.burst > 0 && stall >= 0.0
    ensures var n: nat := p.burst;
            var s := SpentAndForgotten(p, late);
            var steps := LookUps(0, n, at, Takes(0, n, at, []));
            Timely(p, stall, at, s, steps) && AllAdmitted(Answers(p, stall, at, s, steps))
  {
    var n: nat := p.burst;
    var s := SpentAndForgotten(p, late);
    var s1 := LookedUp(p, s, 0, n, at);
    FullLater(p, at, at);
    assert s1.heap[1] == Full(p, at);
    TakesRun(p, stall, at, s1, 1, 0, n, at, []);
    LookUpsRun(p, stall, at, s, 0, n, at, Takes(0, n, at, []));
  }

  lemma LateRunAdmitted(p: Params, late: real, at: real)
    requires p.rps >= 0.0 && p.burst > 0 && 0.0 <= late <= at && p.ttl < at
    ensures var steps := LateRun(p.burst, late, at);
            Timely(p, late, 0.0, INITIAL, steps) && AllAdmitted(Answers(p, late, 0.0, INITIAL, steps))
  {
    var n: nat := p.burst;
    var second := LookUps(0, n, at, Takes(0, n, at, []));
    SecondBurst(p, late, late, at);
    var s := LookedUp(p, INITIAL, 0, n, 0.0);
    FullLater(p, 0.0, late);
    assert s.heap == [Full(p, 0.0)];
    var s1 := Taken(p, s, 0, 0, n, late);
    assert s1.heap == [Bucket(0.0, late)] && s1.pending == map[];
    assert s1.(entries := map[]) == SpentAndForgotten(p, late);
    SweepRun(p, late, late, s1, at, second);
    TakesRun(p, late, 0.0, s, 0, 0, n, late, Sweep(at, second));
    LookUpsRun(p, late, 0.0, INITIAL, 0, n, 0.0, Takes(0, n, late, Sweep(at, second)));
  }

  lemma LateRunRequests(n: nat, late: real, at: real)
    ensures Requests(map[], LateRun(n, late, at)) == Flood("c", late, n) + Flood("c", at, n)
  {
    var second := LookUps(0, n, at, Takes(0, n, at, []));
    var names := map[] + Names(0, n);
    LookUpsRequest(map[], 0, n, 0.0, Takes(0, n, late, Sweep(at, second)));
    TakesRequest(names, 0, n, late, Sweep(at, second));
    SweepRequests(names - Callers(0, n), at, second);
    LookUpsRequest(names - Callers(0, n), 0, n, at, Takes(0, n, at, []));
    TakesRequest(names - Callers(0, n) + Names(0, n), 0, n, at, []);
    assert Flood("c", at, n) + [] == Flood("c", at, n);
  }

  // The limiter that never evicts cannot serve two bursts so close together.
  lemma TwoBurstsDenied(p: Params, first: real, second: real)
    requires p.rps >= 0.0 && p.burst > 0 && first < second && p.rps * (second - first) < p.burst as real
    ensures !AllAdmitted(ForeverDecisions(p, map[], Flood("c", first, p.burst) + Flood("c", second, p.burst)))
  {
    var a, b := Flood("c", first, p.burst), Flood("c", second, p.burst);
    var fs := ForeverFinal(p, map[], a);
    var d1, d2 := ForeverDecisions(p, map[], a), ForeverDecisions(p, fs, b);
    ForeverConcat(p, map[], a, b);
    if AllAdmitted(d1 + d2) {
      assert forall d <- d1 :: d in d1 + d2;
      assert forall d <- d2 :: d in d1 + d2;
      FloodLeaves(p, map[], "c", first, p.burst);
      FullLater(p, first, first);
      FloodNeedsTokens(p, fs, "c", second, p.burst);
    }
  }

  lemma LateTakesEscape(p: Params, late: real, at: real)
    requires p.rps >= 0.0 && p.burst > 0 && 0.0 <= late < at && p.ttl < at && p.rps * (at - late) < p.burst as real
    ensures var steps := LateRun(p.burst, late, at);
            && Timely(p, late, 0.0, INITIAL, steps)
            && AllAdmitted(Answers(p, late, 0.0, INITIAL, steps))
            && !AllAdmitted(IdealAnswers(p, Ideal(map[], map[]), steps))
  {
    LateRunAdmitted(p, late, at);
    LateRunRequests(p.burst, late, at);
    IdealServesRequests(p, Ideal(map[], map[]), LateRun(p.burst, late, at));
    TwoBurstsDenied(p, late, at);
  }

  // ----- Exactly when -----

  ghost predicate SplitUnobservableIn(p: Params, stall: real, start: real, steps: seq<Step>) {
    Timely(p, stall, start, INITIAL, steps)
    ==> Answers(p, stall, start, INITIAL, steps) == IdealAnswers(p, Ideal(map[], map[]), steps)
  }

  lemma SomeRunTells(p: Params, stall: real) returns (steps: seq<Step>)
    requires p.rps >= 0.0 && stall >= 0.0 && !RefillsDespiteStall(p, stall)
    ensures !SplitUnobservableIn(p, stall, 0.0, steps)
  {
    if stall > p.ttl {
      steps := StalledRun(p.burst, stall);
      StalledCallerEscapes(p, stall, stall);
    } else {
      var pause := ShortPause(Params(p.rps, p.burst, p.ttl - stall));
      steps := LateRun(p.burst, stall, stall + pause);
      LateTakesEscape(p, stall, stall + pause);
    }
  }

  // No caller can tell that buckets are evicted, however long anyone stalls up
  // to `stall`, exactly when a bucket last used that late is full again before
  // it can be deleted.
  lemma SplitEvictionUnobservableIff(p: Params, stall: real)
    requires p.rps >= 0.0 && stall >= 0.0
    ensures (forall start, steps :: SplitUnobservableIn(p, stall, start, steps)) <==> RefillsDespiteStall(p, stall)
  {
    if RefillsDespiteStall(p, stall) {
      forall start, steps
        ensures SplitUnobservableIn(p, stall, start, steps)
      {
        if Timely(p, stall, start, INITIAL, steps) {
          SplitEvictionUnobservable(p, stall, start, steps);
        }
      }
    } else {
      var steps := SomeRunTells(p, stall);
      assert !SplitUnobservableIn(p, stall, 0.0, steps);
    }
  }

  // With the shipped settings callers may stall for up to 598 seconds.
  lemma DefaultStall(stall: real)
    requires stall >= 0.0
    ensures RefillsDespiteStall(Params(20.0, 40, 600.0), stall) <==> stall <= 598.0
  {
  }

  // ----- Buckets with pending takes -----

  ghost predicate PendingKeptIn(p: Params, stall: real, start: real, steps: seq<Step>, caller: nat) {
    Timely(p, stall, start, INITIAL, steps) ==> HoldsItsBucket(Final(p, stall, start, INITIAL, steps), caller)
  }

  lemma StalledBucketEvicted(p: Params, stall: real)
    requires stall > p.ttl && stall >= 0.0
    ensures !PendingKeptIn(p, stall, 0.0, LookUps(0, 1, 0.0, Sweep(stall, [])), 0)
  {
    var s := LookedUp(p, INITIAL, 0, 1, 0.0);
    assert Next(p, INITIAL, LookUp(0, "c", 0.0)) == s by {
      assert s.pending == map[0 := InFlight("c", 0, 0.0)];
    }
    SweepRun(p, stall, 0.0, s, stall, []);
    Unfolds(p, stall, 0.0, INITIAL, LookUp(0, "c", 0.0), Sweep(stall, []));
  }

  // No run evicts a bucket with a pending take exactly when nobody may stall for
  // longer than ttl.
  lemma PendingKeptIff(p: Params, stall: real)
    requires p.rps >= 0.0 && stall >= 0.0
    ensures (forall start, steps, caller :: PendingKeptIn(p, stall, start, steps, caller)) <==> stall <= p.ttl
  {
    if stall <= p.ttl {
      forall start, steps, caller
        ensures PendingKeptIn(p, stall, start, steps, caller)
      {
        if Timely(p, stall, start, INITIAL, steps) {
          PendingNeverEvicted(p, stall, start, steps, caller);
        }
      }
    } else {
      StalledBucketEvicted(p, stall);
    }
  }
}
