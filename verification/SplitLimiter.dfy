// The limiter with its critical sections taken apart. Allow first looks its
// bucket up under the lock and takes the token later, without the lock; the
// cleanup loop first reads the clock and takes the lock later. Any number of
// callers interleave. Buckets are heap cells: deleting a map entry does not stop
// a caller that already holds the bucket.
module SplitLimiter {
  import opened Wrappers
  import opened TokenBucket
  import opened Eviction

  datatype Entry = Entry(bucket: nat, lastSeen: real)

  // A caller between its two halves of Allow.
  datatype InFlight = InFlight(key: string, bucket: nat, since: real)

  datatype System = System(
    entries: map<string, Entry>,
    heap: seq<Bucket>,
    pending: map<nat, InFlight>,
    cutoff: Option<real>)

  const INITIAL := System(map[], [], map[], None)

  datatype Step =
    | LookUp(caller: nat, key: string, at: real)
    | TakeToken(caller: nat, at: real)
    | ReadClock(at: real)
    | DeleteIdle(at: real)

  ghost predicate WellFormed(s: System) {
    && (forall key <- s.entries :: s.entries[key].bucket < |s.heap|)
    && (forall c <- s.pending :: s.pending[c].bucket < |s.heap|)
  }

  ghost predicate Enabled(s: System, step: Step) {
    && WellFormed(s)
    && match step
       case LookUp(caller, _, _) => caller !in s.pending
       case TakeToken(caller, _) => caller in s.pending
       case ReadClock(_) => s.cutoff == None
       case DeleteIdle(_) => s.cutoff.Some?
  }

  ghost function Answer(p: Params, s: System, step: Step): seq<bool>
    requires Enabled(s, step)
  {
    if step.TakeToken? then [Take(p, s.heap[s.pending[step.caller].bucket], step.at).1] else []
  }

  ghost function Next(p: Params, s: System, step: Step): System
    requires Enabled(s, step)
  {
    match step
    case LookUp(caller, key, at) =>
      var known := key in s.entries;
      var cell := if known then s.entries[key].bucket else |s.heap|;
      s.(entries := s.entries[key := Entry(cell, at)],
         heap := if known then s.heap else s.heap + [Full(p, at)],
         pending := s.pending[caller := InFlight(key, cell, at)])
    case TakeToken(caller, at) =>
      var cell := s.pending[caller].bucket;
      s.(heap := s.heap[cell := Take(p, s.heap[cell], at).0], pending := s.pending - {caller})
    case ReadClock(at) =>
      s.(cutoff := Some(at - p.ttl))
    case DeleteIdle(_) =>
      s.(entries := map key | key in s.entries && s.entries[key].lastSeen >= s.cutoff.value :: s.entries[key],
         cutoff := None)
  }

  // Clock order, every step possible, and nobody stuck between the two halves of
  // Allow for longer than `stall`.
  ghost predicate Timely(p: Params, stall: real, now: real, s: System, steps: seq<Step>)
    decreases steps
  {
    steps == [] ||
    (&& now <= steps[0].at
     && Enabled(s, steps[0])
     && (forall c <- s.pending :: steps[0].at - s.pending[c].since <= stall)
     && Timely(p, stall, steps[0].at, Next(p, s, steps[0]), steps[1..]))
  }

  ghost function Answers(p: Params, stall: real, now: real, s: System, steps: seq<Step>): seq<bool>
    requires Timely(p, stall, now, s, steps)
    decreases steps
  {
    if steps == [] then []
    else Answer(p, s, steps[0]) + Answers(p, stall, steps[0].at, Next(p, s, steps[0]), steps[1..])
  }

  ghost function Final(p: Params, stall: real, now: real, s: System, steps: seq<Step>): System
    requires Timely(p, stall, now, s, steps)
    decreases steps
  {
    if steps == [] then s else Final(p, stall, steps[0].at, Next(p, s, steps[0]), steps[1..])
  }

  // ----- The reference: same callers, one bucket per key for ever -----

  datatype Ideal = Ideal(buckets: Forever, pending: map<nat, string>)

  ghost predicate Follows(s: System, i: Ideal) {
    && i.pending.Keys == s.pending.Keys
    && forall c <- s.pending :: i.pending[c] == s.pending[c].key
  }

  ghost function IdealNext(p: Params, i: Ideal, step: Step): Ideal
    requires step.TakeToken? ==> step.caller in i.pending
  {
    match step
    case LookUp(caller, key, _) => i.(pending := i.pending[caller := key])
    case TakeToken(caller, at) =>
      var key := i.pending[caller];
      i.(buckets := i.buckets[key := Take(p, BucketOf(p, i.buckets, key, at), at).0], pending := i.pending - {caller})
    case _ => i
  }

  ghost function IdealAnswer(p: Params, i: Ideal, step: Step): seq<bool>
    requires step.TakeToken? ==> step.caller in i.pending
  {
    if step.TakeToken? then [Take(p, BucketOf(p, i.buckets, i.pending[step.caller], step.at), step.at).1] else []
  }

  // The reference's answers; a step it cannot follow ends them.
  ghost function IdealAnswers(p: Params, i: Ideal, steps: seq<Step>): seq<bool>
    decreases steps
  {
    if steps == [] || (steps[0].TakeToken? && steps[0].caller !in i.pending) then []
    else IdealAnswer(p, i, steps[0]) + IdealAnswers(p, IdealNext(p, i, steps[0]), steps[1..])
  }

  // ----- What every step keeps -----

  // A caller in flight still holds the bucket that the map has for its key.
  ghost predicate HoldsItsBucket(s: System, caller: nat) {
    caller in s.pending ==>
      var f := s.pending[caller];
      f.key in s.entries && s.entries[f.key].bucket == f.bucket && f.since <= s.entries[f.key].lastSeen
  }

  // No time in an entry lies in the future, no take on its bucket came later
  // than `stall` after it was last asked for, and the bucket is not in debt.
  ghost predicate EntryOk(p: Params, stall: real, now: real, e: Entry, b: Bucket) {
    && e.lastSeen <= now
    && b.last <= now
    && b.last <= e.lastSeen + stall
    && b.tokens >= Min(0.0, p.burst as real)
  }

  ghost predicate OneBucketPerKey(s: System) {
    forall j <- s.entries, k <- s.entries :: j != k ==> s.entries[j].bucket != s.entries[k].bucket
  }

  ghost predicate Invariant(p: Params, stall: real, now: real, s: System) {
    && WellFormed(s)
    && OneBucketPerKey(s)
    // No bucket with a pending take has been evicted.
    && (forall c <- s.pending :: HoldsItsBucket(s, c))
    && (forall key <- s.entries :: EntryOk(p, stall, now, s.entries[key], s.heap[s.entries[key].bucket]))
    && (s.cutoff.Some? ==> s.cutoff.value <= now - p.ttl)
  }

  lemma TakePreserves(p: Params, stall: real, now: real, s: System, caller: nat, at: real)
    requires p.rps >= 0.0 && Invariant(p, stall, now, s) && caller in s.pending && now <= at
    requires at - s.pending[caller].since <= stall
    ensures Invariant(p, stall, at, Next(p, s, TakeToken(caller, at)))
  {
    var f := s.pending[caller];
    var s' := Next(p, s, TakeToken(caller, at));
    TakeSpends(p, s.heap[f.bucket], at);
    forall key <- s'.entries
      ensures EntryOk(p, stall, at, s'.entries[key], s'.heap[s'.entries[key].bucket])
    {
      if key != f.key {
        assert s'.heap[s.entries[key].bucket] == s.heap[s.entries[key].bucket];
      }
    }
  }

  // The deletion never hits a bucket somebody is about to use.
  lemma DeletePreserves(p: Params, stall: real, now: real, s: System, at: real)
    requires 0.0 <= stall <= p.ttl && Invariant(p, stall, now, s) && s.cutoff.Some? && now <= at
    requires forall c <- s.pending :: at - s.pending[c].since <= stall
    ensures Invariant(p, stall, at, Next(p, s, DeleteIdle(at)))
  {
  }

  lemma LookUpKeepsBuckets(p: Params, s: System, step: Step)
    requires step.LookUp? && Enabled(s, step) && OneBucketPerKey(s)
    ensures WellFormed(Next(p, s, step)) && OneBucketPerKey(Next(p, s, step))
  {
    var s' := Next(p, s, step);
    forall key <- s'.entries
      ensures s'.entries[key].bucket == if key in s.entries then s.entries[key].bucket else |s.heap|
    {
    }
  }

  lemma LookUpKeepsHolders(p: Params, s: System, step: Step, now: real, c: nat)
    requires step.LookUp? && Enabled(s, step) && now <= step.at
    requires HoldsItsBucket(s, c) && forall key <- s.entries :: s.entries[key].lastSeen <= now
    ensures HoldsItsBucket(Next(p, s, step), c)
  {
  }

  lemma LookUpKeepsEntry(p: Params, stall: real, now: real, s: System, step: Step, key: string)
    requires step.LookUp? && Enabled(s, step) && 0.0 <= stall && now <= step.at
    requires WellFormed(Next(p, s, step)) && key in Next(p, s, step).entries
    requires key in s.entries ==> EntryOk(p, stall, now, s.entries[key], s.heap[s.entries[key].bucket])
    ensures var s' := Next(p, s, step);
            EntryOk(p, stall, step.at, s'.entries[key], s'.heap[s'.entries[key].bucket])
  {
  }

  lemma LookUpPreserves(p: Params, stall: real, now: real, s: System, step: Step)
    requires step.LookUp? && 0.0 <= stall && Invariant(p, stall, now, s) && Enabled(s, step) && now <= step.at
    ensures Invariant(p, stall, step.at, Next(p, s, step))
  {
    var s' := Next(p, s, step);
    LookUpKeepsBuckets(p, s, step);
    forall c <- s'.pending
      ensures HoldsItsBucket(s', c)
    {
      LookUpKeepsHolders(p, s, step, now, c);
    }
    forall key <- s'.entries
      ensures EntryOk(p, stall, step.at, s'.entries[key], s'.heap[s'.entries[key].bucket])
    {
      LookUpKeepsEntry(p, stall, now, s, step, key);
    }
  }

  lemma StepPreserves(p: Params, stall: real, now: real, s: System, step: Step)
    requires p.rps >= 0.0 && 0.0 <= stall <= p.ttl
    requires Invariant(p, stall, now, s) && Enabled(s, step) && now <= step.at
    requires forall c <- s.pending :: step.at - s.pending[c].since <= stall
    ensures Invariant(p, stall, step.at, Next(p, s, step))
  {
    match step
    case LookUp(_, _, _) => LookUpPreserves(p, stall, now, s, step);
    case TakeToken(caller, at) => TakePreserves(p, stall, now, s, caller, at);
    case ReadClock(_) =>
    case DeleteIdle(at) => DeletePreserves(p, stall, now, s, at);
  }

  // The invariant holds in every state of a timely run.
  lemma {:induction false} Reachable(p: Params, stall: real, now: real, s: System, steps: seq<Step>, end: real)
    requires p.rps >= 0.0 && 0.0 <= stall <= p.ttl
    requires Invariant(p, stall, now, s) && Timely(p, stall, now, s, steps)
    requires now <= end && forall step <- steps :: step.at <= end
    ensures Invariant(p, stall, end, Final(p, stall, now, s, steps))
    decreases steps
  {
    if steps != [] {
      StepPreserves(p, stall, now, s, steps[0]);
      Reachable(p, stall, steps[0].at, Next(p, s, steps[0]), steps[1..], end);
    }
  }

  // The time of the last step.
  ghost function EndOf(p: Params, stall: real, now: real, s: System, steps: seq<Step>): (end: real)
    requires Timely(p, stall, now, s, steps)
    ensures now <= end && forall step <- steps :: step.at <= end
    decreases steps
  {
    if steps == [] then now else EndOf(p, stall, steps[0].at, Next(p, s, steps[0]), steps[1..])
  }

  // No interleaving evicts a bucket with a pending take, as long as nobody
  // stalls for longer than ttl. (PendingKeptIff says that nothing less will do.)
  lemma PendingNeverEvicted(p: Params, stall: real, start: real, steps: seq<Step>, caller: nat)
    requires p.rps >= 0.0 && 0.0 <= stall <= p.ttl && Timely(p, stall, start, INITIAL, steps)
    ensures HoldsItsBucket(Final(p, stall, start, INITIAL, steps), caller)
  {
    var end := EndOf(p, stall, start, INITIAL, steps);
    Reachable(p, stall, start, INITIAL, steps, end);
  }

  // ----- Simulation -----

  // The side condition, less the time a caller may sit on its bucket.
  predicate RefillsDespiteStall(p: Params, stall: real) {
    p.burst <= 0 || (stall <= p.ttl && p.rps * (p.ttl - stall) >= p.burst as real)
  }

  ghost function LevelAt(p: Params, s: System, key: string, now: real): real
    requires WellFormed(s)
  {
    if key in s.entries then Level(p, s.heap[s.entries[key].bucket], now) else p.burst as real
  }

  ghost predicate Matches(p: Params, s: System, i: Ideal, now: real)
    requires WellFormed(s)
  {
    && Follows(s, i)
    && (forall key <- i.buckets :: i.buckets[key].last <= now)
    && (forall key :: LevelAt(p, s, key, now) == ForeverLevel(p, i.buckets, key, now))
  }

  lemma LevelAtAdvances(p: Params, stall: real, now: real, s: System, key: string, later: real)
    requires p.rps >= 0.0 && Invariant(p, stall, now, s) && now <= later
    ensures LevelAt(p, s, key, later) == Min(p.burst as real, LevelAt(p, s, key, now) + Refill(p, now, later))
  {
    RefillSplits(p, now, now, later);
    if key in s.entries {
      LevelAdvances(p, s.heap[s.entries[key].bucket], now, later);
    }
  }

  lemma MatchesLater(p: Params, stall: real, now: real, s: System, i: Ideal, later: real)
    requires p.rps >= 0.0 && Invariant(p, stall, now, s) && Matches(p, s, i, now) && now <= later
    ensures Matches(p, s, i, later)
  {
    RefillSplits(p, now, now, later);
    FullIsFull(p, now);
    FullIsFull(p, later);
    forall key: string
      ensures LevelAt(p, s, key, later) == ForeverLevel(p, i.buckets, key, later)
    {
      LevelAtAdvances(p, stall, now, s, key, later);
      assert LevelAt(p, s, key, now) == ForeverLevel(p, i.buckets, key, now);
      if key in i.buckets {
        LevelAdvances(p, i.buckets[key], now, later);
      }
    }
  }

  // Even a bucket whose last take came late is full by the time it is deleted.
  lemma DeleteKeepsLevel(p: Params, stall: real, now: real, s: System, at: real, key: string)
    requires p.rps >= 0.0 && 0.0 <= stall <= p.ttl && RefillsDespiteStall(p, stall)
    requires Invariant(p, stall, now, s) && s.cutoff.Some? && now <= at
    ensures LevelAt(p, Next(p, s, DeleteIdle(at)), key, at) == LevelAt(p, s, key, at)
  {
    if key in s.entries && s.entries[key].lastSeen < s.cutoff.value {
      IdleRefills(p, s.heap[s.entries[key].bucket], p.ttl - stall, at);
    }
  }

  // A take moves the level of its own key only.
  lemma TakeMovesLevel(p: Params, stall: real, now: real, s: System, caller: nat, at: real, key: string)
    requires p.rps >= 0.0 && Invariant(p, stall, now, s) && caller in s.pending && now <= at
    ensures var f, s' := s.pending[caller], Next(p, s, TakeToken(caller, at));
            var ok := Take(p, s.heap[f.bucket], at).1;
            && WellFormed(s')
            && ok == (LevelAt(p, s, f.key, at) >= 1.0)
            && LevelAt(p, s', key, at) == LevelAt(p, s, key, at) - (if ok && key == f.key then 1.0 else 0.0)
  {
    var f := s.pending[caller];
    TakeSpends(p, s.heap[f.bucket], at);
    if key in s.entries && key != f.key {
      assert s.entries[key].bucket != f.bucket;
    }
  }

  lemma StepMatches(p: Params, stall: real, now: real, s: System, i: Ideal, step: Step)
    requires p.rps >= 0.0 && 0.0 <= stall <= p.ttl && RefillsDespiteStall(p, stall)
    requires Invariant(p, stall, now, s) && Enabled(s, step) && now <= step.at && Matches(p, s, i, step.at)
    requires forall c <- s.pending :: step.at - s.pending[c].since <= stall
    ensures Invariant(p, stall, step.at, Next(p, s, step))
    ensures Matches(p, Next(p, s, step), IdealNext(p, i, step), step.at)
    ensures Answer(p, s, step) == IdealAnswer(p, i, step)
  {
    StepPreserves(p, stall, now, s, step);
    forall key: string
      ensures LevelAt(p, Next(p, s, step), key, step.at) == ForeverLevel(p, IdealNext(p, i, step).buckets, key, step.at)
    {
      LevelMatches(p, stall, now, s, i, step, key);
    }
    StepFollows(p, s, i, step);
    if step.TakeToken? {
      TakeMatches(p, stall, now, s, i, step, "");
    }
  }

  lemma StepFollows(p: Params, s: System, i: Ideal, step: Step)
    requires p.rps >= 0.0 && Enabled(s, step) && Follows(s, i) && forall key <- i.buckets :: i.buckets[key].last <= step.at
    ensures Follows(Next(p, s, step), IdealNext(p, i, step))
    ensures forall key <- IdealNext(p, i, step).buckets :: IdealNext(p, i, step).buckets[key].last <= step.at
  {
    if step.TakeToken? {
      TakeSpends(p, BucketOf(p, i.buckets, i.pending[step.caller], step.at), step.at);
    }
  }

  lemma LevelMatches(p: Params, stall: real, now: real, s: System, i: Ideal, step: Step, key: string)
    requires p.rps >= 0.0 && 0.0 <= stall <= p.ttl && RefillsDespiteStall(p, stall)
    requires Invariant(p, stall, now, s) && Enabled(s, step) && now <= step.at && Matches(p, s, i, step.at)
    requires WellFormed(Next(p, s, step))
    ensures LevelAt(p, Next(p, s, step), key, step.at) == ForeverLevel(p, IdealNext(p, i, step).buckets, key, step.at)
  {
    assert LevelAt(p, s, key, step.at) == ForeverLevel(p, i.buckets, key, step.at);
    match step
    case LookUp(_, _, _) => LevelAtLookUp(p, s, step, key);
    case TakeToken(_, _) => TakeMatches(p, stall, now, s, i, step, key);
    case ReadClock(_) =>
    case DeleteIdle(at) => DeleteKeepsLevel(p, stall, now, s, at, key);
  }

  lemma TakeMatches(p: Params, stall: real, now: real, s: System, i: Ideal, step: Step, key: string)
    requires p.rps >= 0.0 && Invariant(p, stall, now, s) && Enabled(s, step) && now <= step.at
    requires step.TakeToken? && Matches(p, s, i, step.at)
    ensures WellFormed(Next(p, s, step))
    ensures Answer(p, s, step) == IdealAnswer(p, i, step)
    ensures LevelAt(p, Next(p, s, step), key, step.at) == ForeverLevel(p, IdealNext(p, i, step).buckets, key, step.at)
  {
    var own := i.pending[step.caller];
    assert LevelAt(p, s, own, step.at) == ForeverLevel(p, i.buckets, own, step.at);
    assert LevelAt(p, s, key, step.at) == ForeverLevel(p, i.buckets, key, step.at);
    TakeMovesLevel(p, stall, now, s, step.caller, step.at, key);
    TakeSpends(p, BucketOf(p, i.buckets, own, step.at), step.at);
  }

  lemma LevelAtLookUp(p: Params, s: System, step: Step, key: string)
    requires Enabled(s, step) && step.LookUp? && WellFormed(Next(p, s, step))
    ensures LevelAt(p, Next(p, s, step), key, step.at) == LevelAt(p, s, key, step.at)
  {
  }

  lemma {:induction false} SplitSimulation(p: Params, stall: real, now: real, s: System, i: Ideal, steps: seq<Step>)
    requires p.rps >= 0.0 && 0.0 <= stall <= p.ttl && RefillsDespiteStall(p, stall)
    requires Invariant(p, stall, now, s) && Matches(p, s, i, now) && Timely(p, stall, now, s, steps)
    ensures Answers(p, stall, now, s, steps) == IdealAnswers(p, i, steps)
    decreases steps
  {
    if steps != [] {
      var step := steps[0];
      MatchesLater(p, stall, now, s, i, step.at);
      StepMatches(p, stall, now, s, i, step);
      SplitSimulation(p, stall, step.at, Next(p, s, step), IdealNext(p, i, step), steps[1..]);
    }
  }

  lemma StepPairs(p: Params, s: System, i: Ideal, step: Step)
    requires Enabled(s, step) && Follows(s, i)
    ensures Follows(Next(p, s, step), IdealNext(p, i, step))
  {
  }

  // A bucket that can never hold a token denies everything, evicted or not.
  lemma {:induction false} NothingAdmitted(p: Params, stall: real, now: real, s: System, i: Ideal, steps: seq<Step>)
    requires p.burst <= 0 && Follows(s, i) && Timely(p, stall, now, s, steps)
    ensures Answers(p, stall, now, s, steps) == IdealAnswers(p, i, steps)
    decreases steps
  {
    if steps != [] {
      StepPairs(p, s, i, steps[0]);
      NothingAdmitted(p, stall, steps[0].at, Next(p, s, steps[0]), IdealNext(p, i, steps[0]), steps[1..]);
    }
  }

  // However the halves of Allow and of the sweep interleave, no caller can tell
  // that idle buckets are thrown away.
  lemma SplitEvictionUnobservable(p: Params, stall: real, start: real, steps: seq<Step>)
    requires p.rps >= 0.0 && stall >= 0.0 && RefillsDespiteStall(p, stall)
    requires Timely(p, stall, start, INITIAL, steps)
    ensures Answers(p, stall, start, INITIAL, steps) == IdealAnswers(p, Ideal(map[], map[]), steps)
  {
    if stall <= p.ttl {
      SplitSimulation(p, stall, start, INITIAL, Ideal(map[], map[]), steps);
    } else {
      NothingAdmitted(p, stall, start, INITIAL, Ideal(map[], map[]), steps);
    }
  }

  // ----- Requests that arrive while a sweep is under way -----

  // A key looked up after the sweep read the clock survives that sweep, however
  // long the sweep waits for the lock.
  lemma {:induction false} LookedUpSurvivesSweep(p: Params, stall: real, now: real, s: System, key: string, steps: seq<Step>)
    requires p.ttl >= 0.0 && Timely(p, stall, now, s, steps) && steps != []
    requires s.cutoff.Some? && s.cutoff.value <= now - p.ttl
    requires (forall i :: 0 <= i < |steps| - 1 ==> !steps[i].DeleteIdle?) && steps[|steps| - 1].DeleteIdle?
    requires (key in s.entries && s.entries[key].lastSeen >= s.cutoff.value)
             || (exists i :: 0 <= i < |steps| && steps[i].LookUp? && steps[i].key == key)
    ensures key in Final(p, stall, now, s, steps).entries
    decreases steps
  {
    if |steps| > 1 {
      var s' := Next(p, s, steps[0]);
      var rest := steps[1..];
      assert !steps[0].DeleteIdle?;
      assert forall i :: 0 <= i < |rest| - 1 ==> rest[i] == steps[i + 1];
      if exists i :: 0 <= i < |steps| && steps[i].LookUp? && steps[i].key == key {
        var i :| 0 <= i < |steps| && steps[i].LookUp? && steps[i].key == key;
        if i > 0 {
          assert rest[i - 1].LookUp? && rest[i - 1].key == key;
        }
      }
      LookedUpSurvivesSweep(p, stall, steps[0].at, s', key, rest);
    }
  }
}
