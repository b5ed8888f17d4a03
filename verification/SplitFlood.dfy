// The flood bound of FloodBound.dfy with the critical sections taken apart: what
// one client gets through when callers may stall between the halves of Allow.
module SplitFlood {
  import opened TokenBucket
  import opened FloodBound
  import opened SplitLimiter

  ghost predicate AdmitsNow(p: Params, s: System, step: Step, key: string)
    requires Enabled(s, step)
  {
    step.TakeToken? && s.pending[step.caller].key == key && Answer(p, s, step) == [true]
  }

  ghost function Admitted(p: Params, stall: real, now: real, s: System, steps: seq<Step>, key: string): nat
    requires Timely(p, stall, now, s, steps)
    decreases steps
  {
    if steps == [] then 0
    else
      (if AdmitsNow(p, s, steps[0], key) then 1 else 0)
      + Admitted(p, stall, steps[0].at, Next(p, s, steps[0]), steps[1..], key)
  }

  ghost predicate EvictsNow(s: System, step: Step, key: string)
    requires Enabled(s, step)
  {
    step.DeleteIdle? && key in s.entries && s.entries[key].lastSeen < s.cutoff.value
  }

  ghost function Evictions(p: Params, stall: real, now: real, s: System, steps: seq<Step>, key: string): nat
    requires Timely(p, stall, now, s, steps)
    decreases steps
  {
    if steps == [] then 0
    else
      (if EvictsNow(s, steps[0], key) then 1 else 0)
      + Evictions(p, stall, steps[0].at, Next(p, s, steps[0]), steps[1..], key)
  }

  // The most tokens one eviction can conjure up: the last take may have come
  // `stall` after the client was last seen.
  function StallBonus(p: Params, stall: real): real {
    Max(0.0, p.burst as real - p.rps * (p.ttl - stall))
  }

  lemma DeleteConserves(p: Params, stall: real, now: real, s: System, at: real, key: string)
    requires p.rps >= 0.0 && p.burst >= 0 && 0.0 <= stall <= p.ttl
    requires Invariant(p, stall, now, s) && s.cutoff.Some? && now <= at
    ensures LevelAt(p, Next(p, s, DeleteIdle(at)), key, at)
            <= LevelAt(p, s, key, at) + (if EvictsNow(s, DeleteIdle(at), key) then StallBonus(p, stall) else 0.0)
  {
    if EvictsNow(s, DeleteIdle(at), key) {
      IdleFloor(p, s.heap[s.entries[key].bucket], p.ttl - stall, at);
    }
  }

  // One step moves tokens about: what it admits and leaves is no more than what
  // it found, plus the bonus if it evicts.
  lemma StepConserves(p: Params, stall: real, now: real, s: System, step: Step, key: string)
    requires p.rps >= 0.0 && p.burst >= 0 && 0.0 <= stall <= p.ttl
    requires Invariant(p, stall, now, s) && Enabled(s, step) && now <= step.at
    requires WellFormed(Next(p, s, step))
    ensures (if AdmitsNow(p, s, step, key) then 1.0 else 0.0) + LevelAt(p, Next(p, s, step), key, step.at)
            <= LevelAt(p, s, key, step.at) + (if EvictsNow(s, step, key) then StallBonus(p, stall) else 0.0)
  {
    match step
    case LookUp(_, _, _) => LevelAtLookUp(p, s, step, key);
    case TakeToken(caller, at) => TakeMovesLevel(p, stall, now, s, caller, at, key);
    case ReadClock(_) =>
    case DeleteIdle(at) => DeleteConserves(p, stall, now, s, at, key);
  }

  lemma LevelAtNonNegative(p: Params, stall: real, now: real, s: System, key: string)
    requires p.rps >= 0.0 && p.burst >= 0 && Invariant(p, stall, now, s)
    ensures 0.0 <= LevelAt(p, s, key, now) <= p.burst as real
  {
    if key in s.entries {
      RefillAtLeast(p, s.heap[s.entries[key].bucket].last, 0.0, now);
    }
  }

  lemma AddOneUp(more: bool, rest: nat, all: nat)
    requires all == (if more then 1 else 0) + rest
    ensures all as real == (if more then 1.0 else 0.0) + rest as real
  {
  }

  lemma AddTimes(more: bool, rest: nat, x: real)
    ensures Times((if more then 1 else 0) + rest, x) == (if more then x else 0.0) + Times(rest, x)
  {
  }

  // Tokens are conserved over every interleaving: what gets through was there,
  // was refilled, or came from an eviction.
  lemma {:induction false} AdmittedByTokens(p: Params, stall: real, now: real, s: System, steps: seq<Step>, key: string, end: real)
    requires p.rps >= 0.0 && p.burst >= 0 && 0.0 <= stall <= p.ttl
    requires Invariant(p, stall, now, s) && Timely(p, stall, now, s, steps)
    requires now <= end && forall step <- steps :: step.at <= end
    ensures Admitted(p, stall, now, s, steps, key) as real
            <= LevelAt(p, s, key, now) + Refill(p, now, end) + Times(Evictions(p, stall, now, s, steps, key), StallBonus(p, stall))
    decreases steps
  {
    if steps == [] {
      RefillSplits(p, now, now, end);
      LevelAtNonNegative(p, stall, now, s, key);
    } else {
      var step, rest := steps[0], steps[1..];
      var s' := Next(p, s, step);
      StepPreserves(p, stall, now, s, step);
      AdmittedByTokens(p, stall, step.at, s', rest, key, end);
      LevelAtAdvances(p, stall, now, s, key, step.at);
      RefillSplits(p, now, step.at, end);
      StepConserves(p, stall, now, s, step, key);
      AddOneUp(AdmitsNow(p, s, step, key), Admitted(p, stall, step.at, s', rest, key), Admitted(p, stall, now, s, steps, key));
      AddTimes(EvictsNow(s, step, key), Evictions(p, stall, step.at, s', rest, key), StallBonus(p, stall));
    }
  }

  // When the client was last seen; an absent one counts as seen right now.
  ghost function Seen(s: System, key: string, now: real): real {
    if key in s.entries then s.entries[key].lastSeen else now
  }

  lemma EvictionTakesTtl(p: Params, stall: real, now: real, s: System, step: Step, key: string)
    requires 0.0 <= p.ttl && Invariant(p, stall, now, s) && Enabled(s, step) && now <= step.at
    ensures Seen(s, key, now) + (if EvictsNow(s, step, key) then p.ttl else 0.0) <= Seen(Next(p, s, step), key, step.at)
  {
    if key in s.entries {
      assert EntryOk(p, stall, now, s.entries[key], s.heap[s.entries[key].bucket]);
    }
  }

  // Evictions of one key use up a whole ttl each, counted from the moment the
  // client was last seen.
  lemma {:induction false} EvictionsSpaced(p: Params, stall: real, now: real, s: System, steps: seq<Step>, key: string, end: real)
    requires p.rps >= 0.0 && 0.0 <= stall <= p.ttl
    requires Invariant(p, stall, now, s) && Timely(p, stall, now, s, steps)
    requires now <= end && forall step <- steps :: step.at <= end
    ensures Times(Evictions(p, stall, now, s, steps, key), p.ttl)
            <= end - Seen(s, key, now)
    decreases steps
  {
    if steps == [] {
      assert key in s.entries ==> EntryOk(p, stall, now, s.entries[key], s.heap[s.entries[key].bucket]);
    } else {
      EvictionTakesTtl(p, stall, now, s, steps[0], key);
      StepPreserves(p, stall, now, s, steps[0]);
      EvictionsSpaced(p, stall, steps[0].at, Next(p, s, steps[0]), steps[1..], key, end);
    }
  }

  function SplitBudget(p: Params, stall: real, span: real): real
    requires p.ttl > 0.0 && span >= 0.0 && stall >= 0.0
  {
    p.burst as real + Refill(p, 0.0, span) + Times(Periods(span + stall, p.ttl), StallBonus(p, stall))
  }

  // The bound in closed form. With no stall it is the bound of FloodBound.
  function SplitBound(p: Params, stall: real, span: real): real
    requires p.ttl > 0.0
  {
    p.burst as real + p.rps * span + ((span + stall) / p.ttl).Floor as real * Max(0.0, p.burst as real - p.rps * (p.ttl - stall))
  }

  lemma WithinBudget(p: Params, stall: real, k: nat, now: real, end: real, span: real)
    requires p.rps >= 0.0 && p.ttl > 0.0 && 0.0 <= stall && 0.0 <= end - now <= span
    requires Times(k, p.ttl) <= end - now + stall
    ensures p.burst as real + Refill(p, now, end) + Times(k, StallBonus(p, stall)) <= SplitBudget(p, stall, span)
  {
    PeriodsMonotone(p.ttl, k, end - now + stall, span + stall);
    TimesMonotone(k, Periods(span + stall, p.ttl), StallBonus(p, stall));
    RefillSplits(p, 0.0, end - now, span);
    RefillShifts(p, now, end);
  }

  // From a take of the key on, every eviction but for the stall has used up a
  // whole ttl of the window.
  lemma FromFirstTake(p: Params, stall: real, now: real, s: System, steps: seq<Step>, key: string, end: real, span: real)
    requires p.rps >= 0.0 && p.burst >= 0 && p.ttl > 0.0 && 0.0 <= stall <= p.ttl
    requires Invariant(p, stall, now, s) && Timely(p, stall, now, s, steps)
    requires now <= end && end - now <= span && forall step <- steps :: step.at <= end
    requires key in s.entries && s.entries[key].lastSeen >= now - stall
    ensures Admitted(p, stall, now, s, steps, key) as real <= SplitBudget(p, stall, span)
  {
    AdmittedByTokens(p, stall, now, s, steps, key, end);
    LevelAtNonNegative(p, stall, now, s, key);
    EvictionsSpaced(p, stall, now, s, steps, key, end);
    WithinBudget(p, stall, Evictions(p, stall, now, s, steps, key), now, end, span);
  }

  lemma BudgetNonNegative(p: Params, stall: real, span: real)
    requires p.rps >= 0.0 && p.burst >= 0 && p.ttl > 0.0 && stall >= 0.0 && span >= 0.0
    ensures SplitBudget(p, stall, span) >= 0.0
  {
    RefillSplits(p, 0.0, 0.0, span);
    TimesMonotone(0, Periods(span + stall, p.ttl), StallBonus(p, stall));
  }

  lemma {:induction false} BoundedWithin(p: Params, stall: real, now: real, s: System, steps: seq<Step>, key: string, end: real, span: real)
    requires p.rps >= 0.0 && p.burst >= 0 && p.ttl > 0.0 && 0.0 <= stall <= p.ttl
    requires Invariant(p, stall, now, s) && Timely(p, stall, now, s, steps)
    requires now <= end && end - now <= span && forall step <- steps :: step.at <= end
    ensures Admitted(p, stall, now, s, steps, key) as real <= SplitBudget(p, stall, span)
    decreases steps
  {
    if steps == [] {
      BudgetNonNegative(p, stall, span);
    } else {
      var step := steps[0];
      if step.TakeToken? && s.pending[step.caller].key == key {
        assert Invariant(p, stall, step.at, s);
        FromFirstTake(p, stall, step.at, s, steps, key, end, span);
      } else {
        StepPreserves(p, stall, now, s, step);
        BoundedWithin(p, stall, step.at, Next(p, s, step), steps[1..], key, end, span);
      }
    }
  }

  lemma BudgetIsBound(p: Params, stall: real, span: real)
    requires p.ttl > 0.0 && span >= 0.0 && stall >= 0.0
    ensures SplitBudget(p, stall, span) == SplitBound(p, stall, span)
  {
    TimesIsProduct(Periods(span + stall, p.ttl), StallBonus(p, stall));
  }

  // However requests and sweeps interleave, if nobody stalls longer than ttl: in
  // every window of every run, with no assumption linking rps, burst and ttl.
  lemma SplitFloodBounded(
    p: Params, stall: real, start: real, before: seq<Step>, from: real, window: seq<Step>, to: real, key: string)
    requires p.rps >= 0.0 && p.burst >= 0 && p.ttl > 0.0 && 0.0 <= stall <= p.ttl
    requires Timely(p, stall, start, INITIAL, before) && start <= from <= to && forall step <- before :: step.at <= from
    requires Timely(p, stall, from, Final(p, stall, start, INITIAL, before), window) && forall step <- window :: step.at <= to
    ensures Admitted(p, stall, from, Final(p, stall, start, INITIAL, before), window, key) as real <= SplitBound(p, stall, to - from)
  {
    Reachable(p, stall, start, INITIAL, before, from);
    BoundedWithin(p, stall, from, Final(p, stall, start, INITIAL, before), window, key, to, to - from);
    BudgetIsBound(p, stall, to - from);
  }

  // When a bucket refills despite the stall, evictions are worth nothing.
  lemma SplitFloodBoundedByRate(
    p: Params, stall: real, start: real, before: seq<Step>, from: real, window: seq<Step>, to: real, key: string)
    requires p.rps >= 0.0 && p.burst >= 0 && 0.0 <= stall <= p.ttl && RefillsDespiteStall(p, stall)
    requires Timely(p, stall, start, INITIAL, before) && start <= from <= to && forall step <- before :: step.at <= from
    requires Timely(p, stall, from, Final(p, stall, start, INITIAL, before), window) && forall step <- window :: step.at <= to
    ensures Admitted(p, stall, from, Final(p, stall, start, INITIAL, before), window, key) as real <= p.burst as real + Refill(p, from, to)
  {
    var s := Final(p, stall, start, INITIAL, before);
    Reachable(p, stall, start, INITIAL, before, from);
    AdmittedByTokens(p, stall, from, s, window, key, to);
    LevelAtNonNegative(p, stall, from, s, key);
    NoBonus(p, stall);
    TimesZero(Evictions(p, stall, from, s, window, key));
  }

  lemma NoBonus(p: Params, stall: real)
    requires p.rps >= 0.0 && p.burst >= 0 && 0.0 <= stall <= p.ttl && RefillsDespiteStall(p, stall)
    ensures StallBonus(p, stall) == 0.0
  {
    if p.burst == 0 {
      ProductMonotone(p.rps, 0.0, p.ttl - stall);
      assert p.rps * 0.0 == 0.0;
    }
  }
}
