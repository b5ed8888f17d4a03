// The event sink of cmd/wafportal/main.go: many request handlers submit, one
// worker stores. The buffer never blocks a handler; it drops instead.
module EventSink {
  import opened Wrappers

  // One insert the worker has finished, and whether the store took it.
  datatype Done<E> = Done(event: E, ok: bool)

  // The channel, what the worker holds, and the histories so far.
  datatype Sink<E> = Sink(
    capacity: nat,
    queue: seq<E>,
    hand: Option<E>,
    submitted: seq<E>,
    dropped: seq<E>,
    done: seq<Done<E>>)

  datatype Step<E> =
    | Submit(event: E)
    | Receive              // the worker takes the oldest event
    | Insert(ok: bool)     // the worker's insert returns

  function Empty<E>(capacity: nat): Sink<E> {
    Sink(capacity, [], None, [], [], [])
  }

  predicate Enabled<E>(s: Sink<E>, step: Step<E>) {
    match step
    case Submit(_) => true
    case Receive => s.hand.None? && s.queue != []
    case Insert(_) => s.hand.Some?
  }

  function Next<E>(s: Sink<E>, step: Step<E>): Sink<E>
    requires Enabled(s, step)
  {
    match step
    case Submit(e) =>
      if |s.queue| < s.capacity then s.(queue := s.queue + [e], submitted := s.submitted + [e])
      else s.(dropped := s.dropped + [e], submitted := s.submitted + [e])
    case Receive => s.(hand := Some(s.queue[0]), queue := s.queue[1..])
    case Insert(ok) => s.(hand := None, done := s.done + [Done(s.hand.value, ok)])
  }

  ghost predicate IsRun<E(!new)>(run: seq<Sink<E>>, steps: seq<Step<E>>) {
    && |run| == |steps| + 1
    && forall k :: 0 <= k < |steps| ==> Enabled(run[k], steps[k]) && run[k + 1] == Next(run[k], steps[k])
  }

  // ----- Views of a sink -----

  function Events<E>(done: seq<Done<E>>): seq<E> {
    seq(|done|, i requires 0 <= i < |done| => done[i].event)
  }

  // The finished inserts with a given outcome, in order.
  function Outcome<E>(done: seq<Done<E>>, ok: bool): seq<E> {
    if done == [] then []
    else Outcome(done[..|done| - 1], ok) + (if done[|done| - 1].ok == ok then [done[|done| - 1].event] else [])
  }

  lemma OutcomeAppend<E>(done: seq<Done<E>>, last: Done<E>, ok: bool)
    ensures last.ok == ok ==> Outcome(done + [last], ok) == Outcome(done, ok) + [last.event]
    ensures last.ok != ok ==> Outcome(done + [last], ok) == Outcome(done, ok)
  {
    assert (done + [last])[..|done|] == done;
  }

  function InHand<E>(s: Sink<E>): seq<E> {
    if s.hand.Some? then [s.hand.value] else []
  }

  // Everything accepted into the buffer, oldest first: finished, in hand, queued.
  function Accepted<E>(s: Sink<E>): seq<E> {
    Events(s.done) + InHand(s) + s.queue
  }

  // `part` is `whole` with some elements left out, order kept.
  predicate Subsequence<E(==)>(part: seq<E>, whole: seq<E>) {
    if part == [] then true
    else if whole == [] then false
    else if part[|part| - 1] == whole[|whole| - 1] && Subsequence(part[..|part| - 1], whole[..|whole| - 1]) then true
    else Subsequence(part, whole[..|whole| - 1])
  }

  lemma SubsequenceSkip<E>(part: seq<E>, whole: seq<E>, e: E)
    requires Subsequence(part, whole)
    ensures Subsequence(part, whole + [e])
  {
    assert (whole + [e])[..|whole|] == whole;
  }

  lemma SubsequenceTake<E>(part: seq<E>, whole: seq<E>, e: E)
    requires Subsequence(part, whole)
    ensures Subsequence(part + [e], whole + [e])
  {
    assert (whole + [e])[..|whole|] == whole && (part + [e])[..|part|] == part;
  }

  lemma {:induction false} SubsequenceTransitive<E>(a: seq<E>, b: seq<E>, c: seq<E>)
    requires Subsequence(a, b) && Subsequence(b, c)
    ensures Subsequence(a, c)
    decreases |b| + |c|
  {
    if a != [] {
      var a1, b1, c1 := a[..|a| - 1], b[..|b| - 1], c[..|c| - 1];
      if b[|b| - 1] == c[|c| - 1] && Subsequence(b1, c1) {
        if a[|a| - 1] == b[|b| - 1] && Subsequence(a1, b1) {
          SubsequenceTransitive(a1, b1, c1);
        } else {
          SubsequenceTransitive(a, b1, c1);
        }
      } else {
        SubsequenceTransitive(a, b, c1);
      }
    }
  }

  lemma {:induction false} SubsequencePrefix<E>(a: seq<E>, b: seq<E>)
    ensures Subsequence(a, a + b)
    decreases |a| + |b|
  {
    if b != [] {
      SubsequencePrefix(a, b[..|b| - 1]);
      SubsequenceSkip(a, a + b[..|b| - 1], b[|b| - 1]);
      assert a + b == a + b[..|b| - 1] + [b[|b| - 1]];
    } else if a != [] {
      SubsequencePrefix(a[..|a| - 1], []);
      assert a[..|a| - 1] + [] == a[..|a| - 1];
      SubsequenceTake(a[..|a| - 1], a[..|a| - 1], a[|a| - 1]);
      assert a[..|a| - 1] + [a[|a| - 1]] == a && a + b == a;
    }
  }

  lemma {:induction false} OutcomeSubsequence<E>(done: seq<Done<E>>, ok: bool)
    ensures Subsequence(Outcome(done, ok), Events(done))
  {
    if done != [] {
      var n := |done| - 1;
      OutcomeSubsequence(done[..n], ok);
      assert Events(done) == Events(done[..n]) + [done[n].event];
      assert Outcome(done, ok) == Outcome(done[..n], ok) + (if done[n].ok == ok then [done[n].event] else []);
      if done[n].ok == ok {
        SubsequenceTake(Outcome(done[..n], ok), Events(done[..n]), done[n].event);
      } else {
        assert Outcome(done, ok) == Outcome(done[..n], ok);
        SubsequenceSkip(Outcome(done[..n], ok), Events(done[..n]), done[n].event);
      }
    }
  }

  lemma {:induction false} OutcomesPartition<E>(done: seq<Done<E>>)
    ensures multiset(Events(done)) == multiset(Outcome(done, true)) + multiset(Outcome(done, false))
  {
    if done != [] {
      var n := |done| - 1;
      OutcomesPartition(done[..n]);
      assert Events(done) == Events(done[..n]) + [done[n].event];
    }
  }

  // ----- What every step keeps -----

  // What was submitted is what was accepted with what was dropped put back in,
  // order kept on both sides.
  ghost predicate Accounted<E>(accepted: seq<E>, dropped: seq<E>, submitted: seq<E>) {
    && multiset(submitted) == multiset(accepted) + multiset(dropped)
    && Subsequence(accepted, submitted)
    && Subsequence(dropped, submitted)
  }

  ghost predicate Invariant<E>(s: Sink<E>) {
    |s.queue| <= s.capacity && Accounted(Accepted(s), s.dropped, s.submitted)
  }

  lemma AcceptOne<E>(accepted: seq<E>, dropped: seq<E>, submitted: seq<E>, e: E)
    requires Accounted(accepted, dropped, submitted)
    ensures Accounted(accepted + [e], dropped, submitted + [e])
  {
    SubsequenceTake(accepted, submitted, e);
    SubsequenceSkip(dropped, submitted, e);
  }

  lemma DropOne<E>(accepted: seq<E>, dropped: seq<E>, submitted: seq<E>, e: E)
    requires Accounted(accepted, dropped, submitted)
    ensures Accounted(accepted, dropped + [e], submitted + [e])
  {
    SubsequenceSkip(accepted, submitted, e);
    SubsequenceTake(dropped, submitted, e);
  }

  lemma SubmitKeepsInvariant<E>(s: Sink<E>, e: E)
    requires Invariant(s)
    ensures Invariant(Next(s, Submit(e)))
  {
    if |s.queue| < s.capacity {
      assert Accepted(Next(s, Submit(e))) == Accepted(s) + [e];
      AcceptOne(Accepted(s), s.dropped, s.submitted, e);
    } else {
      DropOne(Accepted(s), s.dropped, s.submitted, e);
    }
  }

  // The worker's steps only move the line between queue, hand and finished.
  lemma WorkerKeepsAccepted<E>(s: Sink<E>, step: Step<E>)
    requires Enabled(s, step) && !step.Submit?
    ensures Accepted(Next(s, step)) == Accepted(s)
  {
    if step.Receive? {
      assert s.queue == [s.queue[0]] + s.queue[1..];
    } else {
      assert Events(Next(s, step).done) == Events(s.done) + [s.hand.value];
    }
  }

  lemma StepKeepsInvariant<E>(s: Sink<E>, step: Step<E>)
    requires Invariant(s) && Enabled(s, step)
    ensures Invariant(Next(s, step)) && Next(s, step).capacity == s.capacity
  {
    if step.Submit? {
      SubmitKeepsInvariant(s, step.event);
    } else {
      WorkerKeepsAccepted(s, step);
    }
  }

  lemma EmptyInvariant<E>(capacity: nat)
    ensures Invariant(Empty<E>(capacity))
  {
    var s := Empty<E>(capacity);
    assert Accepted(s) == [];
  }

  lemma {:induction false} RunKeepsInvariant<E(!new)>(run: seq<Sink<E>>, steps: seq<Step<E>>, n: nat)
    requires IsRun(run, steps) && n < |run| && run[0] == Empty(run[0].capacity)
    ensures Invariant(run[n]) && run[n].capacity == run[0].capacity
    decreases n
  {
    if n == 0 {
      EmptyInvariant<E>(run[0].capacity);
    } else {
      RunKeepsInvariant(run, steps, n - 1);
      StepKeepsInvariant(run[n - 1], steps[n - 1]);
    }
  }

  // Nothing is lost or duplicated, at any moment of any interleaving: submitted
  // is dropped, queued, in the worker's hand, stored or failed.
  lemma EventsConserved<E(!new)>(run: seq<Sink<E>>, steps: seq<Step<E>>, n: nat)
    requires IsRun(run, steps) && n < |run| && run[0] == Empty(run[0].capacity)
    ensures var s := run[n];
            && multiset(s.submitted) == multiset(s.dropped) + multiset(s.queue) + multiset(InHand(s))
                 + multiset(Outcome(s.done, true)) + multiset(Outcome(s.done, false))
            && |s.queue| <= run[0].capacity
  {
    RunKeepsInvariant(run, steps, n);
    OutcomesPartition(run[n].done);
  }

  lemma StoredWereAccepted<E>(s: Sink<E>)
    ensures Subsequence(Outcome(s.done, true), Accepted(s))
  {
    var finished, ahead := Events(s.done), InHand(s) + s.queue;
    assert finished + ahead == Accepted(s);
    OutcomeSubsequence(s.done, true);
    SubsequencePrefix(finished, ahead);
    SubsequenceTransitive(Outcome(s.done, true), finished, finished + ahead);
  }

  // Stored events appear in the order in which they were submitted.
  lemma StoredInOrder<E(!new)>(run: seq<Sink<E>>, steps: seq<Step<E>>, n: nat)
    requires IsRun(run, steps) && n < |run| && run[0] == Empty(run[0].capacity)
    ensures Subsequence(Outcome(run[n].done, true), run[n].submitted)
  {
    RunKeepsInvariant(run, steps, n);
    StoredWereAccepted(run[n]);
    SubsequenceTransitive(Outcome(run[n].done, true), Accepted(run[n]), run[n].submitted);
  }

  function Received<E>(s: Sink<E>): nat {
    |s.done| + |InHand(s)|
  }

  // An event is dropped exactly when it meets a full buffer, that is when
  // `capacity` accepted events have not been received by the worker yet. Then it
  // is that event which is dropped; any other is queued behind the rest.
  lemma DroppedOnlyWhenFull<E(!new)>(run: seq<Sink<E>>, steps: seq<Step<E>>, n: nat)
    requires IsRun(run, steps) && n < |steps| && run[0] == Empty(run[0].capacity) && steps[n].Submit?
    ensures |run[n].queue| == |run[n].submitted| - |run[n].dropped| - Received(run[n])
    ensures var s, s' := run[n], run[n + 1];
            if |s.queue| == run[0].capacity then s'.dropped == s.dropped + [steps[n].event] && Accepted(s') == Accepted(s)
            else s'.dropped == s.dropped && Accepted(s') == Accepted(s) + [steps[n].event]
  {
    RunKeepsInvariant(run, steps, n);
    var s := run[n];
    assert |multiset(s.submitted)| == |multiset(Accepted(s))| + |multiset(s.dropped)|;
    if |s.queue| < s.capacity {
      assert Accepted(run[n + 1]) == Accepted(s) + [steps[n].event];
    }
  }

  // ----- The sink object -----

  class Buffer<E(==)> {
    const capacity: nat
    var ch: seq<E>
    var rows: seq<E>
    var hand: Option<E>
    ghost var submitted: seq<E>
    ghost var dropped: seq<E>
    ghost var done: seq<Done<E>>

    ghost function View(): Sink<E>
      reads this
    {
      Sink(capacity, ch, hand, submitted, dropped, done)
    }

    // The rows in the events table are the inserts that went well.
    ghost predicate Valid()
      reads this
    {
      rows == Outcome(done, true)
    }

    constructor (capacity: nat)
      ensures Valid() && View() == Empty(capacity)
    {
      this.capacity := capacity;
      ch, rows, hand := [], [], None;
      submitted, dropped, done := [], [], [];
    }

    method Submit(e: E)
      requires Valid()
      modifies this
      ensures Valid() && View() == Next(old(View()), Step.Submit(e)) && rows == old(rows)
    {
      submitted := submitted + [e];
      if |ch| < capacity {
        ch := ch + [e];
      } else {
        dropped := dropped + [e];
      }
    }

    // The worker's loop turn: receive, then insert.
    method Take()
      requires Valid() && hand.None? && ch != []
      modifies this
      ensures Valid() && View() == Next(old(View()), Receive) && rows == old(rows)
    {
      hand, ch := Some(ch[0]), ch[1..];
    }

    method InsertEvent(ok: bool)
      requires Valid() && hand.Some?
      modifies this
      ensures Valid() && View() == Next(old(View()), Insert(ok))
      ensures rows == if ok then old(rows) + [old(hand).value] else old(rows)
    {
      ghost var finished := done + [Done(hand.value, ok)];
      OutcomeAppend(done, Done(hand.value, ok), true);
      if ok {
        rows := rows + [hand.value];
      }
      assert rows == Outcome(finished, true);
      done := finished;
      hand := None;
    }
  }
}
