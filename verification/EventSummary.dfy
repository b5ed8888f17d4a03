// buildEvent of internal/waf/middleware.go: one pass over a transaction's
// matched rules, against a summary defined without a loop.
module EventSummary {
  import opened Wrappers

  // A matched rule as the loop sees it. A negative severity marks the rule set's
  // own infrastructure rules.
  datatype Matched = Matched(id: int, severity: int, message: string)

  // The fields of an event that depend on the matched rules.
  datatype Summary = Summary(
    blocked: bool, statusCode: int, ruleId: int, message: string, severity: int, anomalyScore: int, matchedRules: seq<int>)

  // The anomaly score named in a message, if there is one.
  type ScoreReader = string -> Option<int>

  const UNSET := 99

  // ----- The summary, declaratively -----

  predicate Detection(m: Matched) {
    m.severity >= 0
  }

  // The non-zero ids of the detection rules, in order.
  function DetectionIds(ms: seq<Matched>): seq<int> {
    if ms == [] then []
    else
      var m := ms[|ms| - 1];
      DetectionIds(ms[..|ms| - 1]) + (if Detection(m) && m.id != 0 then [m.id] else [])
  }

  // `picked` names the matched rules of the rule set proper that have an id, all
  // of them, once each and in order, and `ids` holds their ids.
  ghost predicate ListsDetections(ms: seq<Matched>, ids: seq<int>, picked: seq<nat>) {
    && |ids| == |picked|
    && (forall i, j :: 0 <= i < j < |picked| ==> picked[i] < picked[j])
    && (forall k :: 0 <= k < |picked| ==>
          picked[k] < |ms| && ms[picked[k]].severity >= 0 && ms[picked[k]].id != 0 && ids[k] == ms[picked[k]].id)
    && (forall i :: 0 <= i < |ms| && ms[i].severity >= 0 && ms[i].id != 0 ==> i in picked)
  }

  lemma {:induction false} DetectionIdsMean(ms: seq<Matched>) returns (picked: seq<nat>)
    ensures ListsDetections(ms, DetectionIds(ms), picked)
  {
    if ms == [] {
      picked := [];
    } else {
      var n := |ms| - 1;
      picked := DetectionIdsMean(ms[..n]);
      ListsOneMore(ms[..n], DetectionIds(ms[..n]), picked, ms[n]);
      assert ms == ms[..n] + [ms[n]];
      picked := if ms[n].severity >= 0 && ms[n].id != 0 then picked + [n] else picked;
    }
  }

  lemma ListsOneMore(ms: seq<Matched>, ids: seq<int>, picked: seq<nat>, m: Matched)
    requires ListsDetections(ms, ids, picked)
    ensures if m.severity >= 0 && m.id != 0 then ListsDetections(ms + [m], ids + [m.id], picked + [|ms|])
            else ListsDetections(ms + [m], ids, picked)
  {
    var more := picked + [|ms|];
    assert forall i :: i in picked ==> i in more;
    assert more[|picked|] == |ms|;
  }

  // A rule that can become the event's rule: a detection below the sentinel.
  predicate Candidate(m: Matched) {
    0 <= m.severity < UNSET
  }

  // The first of the candidates with the least severity number.
  ghost predicate IsTop(ms: seq<Matched>, i: int) {
    && 0 <= i < |ms| && Candidate(ms[i])
    && (forall j :: 0 <= j < |ms| && Candidate(ms[j]) ==> ms[i].severity <= ms[j].severity)
    && (forall j :: 0 <= j < i && Candidate(ms[j]) ==> ms[i].severity < ms[j].severity)
  }

  ghost predicate NoCandidate(ms: seq<Matched>) {
    forall m <- ms :: !Candidate(m)
  }

  function ScoreOf(read: ScoreReader, m: Matched): int {
    if read(m.message).Some? then read(m.message).value else 0
  }

  // The first non-zero score, read from any rule, infrastructure or not.
  ghost predicate IsScore(read: ScoreReader, ms: seq<Matched>, score: int) {
    if exists m <- ms :: ScoreOf(read, m) != 0 then
      exists i :: 0 <= i < |ms| && score == ScoreOf(read, ms[i]) != 0 && forall j :: 0 <= j < i ==> ScoreOf(read, ms[j]) == 0
    else score == 0
  }

  // The event for a transaction, or none when it was let through and nothing
  // was detected. `interruption` is the id of the rule that interrupted it.
  ghost predicate IsSummary(
    read: ScoreReader, ms: seq<Matched>, blocked: bool, status: int, interruption: Option<int>, r: Option<Summary>)
  {
    && (r == None <==> !blocked && DetectionIds(ms) == [])
    && (r.Some? ==>
          var e := r.value;
          && e.blocked == blocked && e.statusCode == status
          && e.matchedRules == DetectionIds(ms)
          && IsScore(read, ms, e.anomalyScore)
          && (NoCandidate(ms) ==>
                e.severity == 0 && e.message == "" && e.ruleId == (if interruption.Some? then interruption.value else 0))
          && (forall i {:trigger IsTop(ms, i)} :: IsTop(ms, i) ==>
                && e.severity == ms[i].severity && e.message == ms[i].message
                && e.ruleId == (if ms[i].id == 0 && interruption.Some? then interruption.value else ms[i].id)))
  }

  // There is a top rule as soon as there is a candidate, and only one, so the
  // summary is fully determined.
  lemma {:induction false} TopExists(ms: seq<Matched>)
    requires !NoCandidate(ms)
    ensures exists i :: IsTop(ms, i)
  {
    var n := |ms| - 1;
    var init := ms[..n];
    assert ms == init + [ms[n]];
    if NoCandidate(init) {
      assert forall j :: 0 <= j < n ==> init[j] in init && ms[j] == init[j];
      assert IsTop(ms, n);
    } else {
      TopExists(init);
      var i :| IsTop(init, i);
      if Candidate(ms[n]) && ms[n].severity < ms[i].severity {
        assert IsTop(ms, n);
      } else {
        assert IsTop(ms, i);
      }
    }
  }

  lemma TopUnique(ms: seq<Matched>, i: int, j: int)
    requires IsTop(ms, i) && IsTop(ms, j)
    ensures i == j
  {
  }

  lemma ScoreUnique(read: ScoreReader, ms: seq<Matched>, a: int, b: int)
    requires IsScore(read, ms, a) && IsScore(read, ms, b)
    ensures a == b
  {
    if exists m <- ms :: ScoreOf(read, m) != 0 {
      var i :| 0 <= i < |ms| && a == ScoreOf(read, ms[i]) != 0 && forall j :: 0 <= j < i ==> ScoreOf(read, ms[j]) == 0;
      var k :| 0 <= k < |ms| && b == ScoreOf(read, ms[k]) != 0 && forall j :: 0 <= j < k ==> ScoreOf(read, ms[j]) == 0;
      assert i <= k;
    }
  }

  lemma SummaryUnique(
    read: ScoreReader, ms: seq<Matched>, blocked: bool, status: int, interruption: Option<int>, a: Option<Summary>, b: Option<Summary>)
    requires IsSummary(read, ms, blocked, status, interruption, a) && IsSummary(read, ms, blocked, status, interruption, b)
    ensures a == b
  {
    if a.Some? {
      ScoreUnique(read, ms, a.value.anomalyScore, b.value.anomalyScore);
      if !NoCandidate(ms) {
        TopExists(ms);
        var i :| IsTop(ms, i);
      }
    }
  }

  // ----- The loop -----

  // What the loop has found in the first n rules: the top one, or -1.
  ghost predicate TopOfFirst(ms: seq<Matched>, n: int, best: int)
    requires 0 <= n <= |ms|
  {
    if best < 0 then forall j :: 0 <= j < n ==> !Candidate(ms[j]) else IsTop(ms[..n], best)
  }

  lemma TopExtends(ms: seq<Matched>, n: int, best: int)
    requires 0 <= n < |ms| && TopOfFirst(ms, n, best)
    ensures var better := Candidate(ms[n]) && (best < 0 || ms[n].severity < ms[..n][best].severity);
            TopOfFirst(ms, n + 1, if better then n else best)
  {
    var before, after := ms[..n], ms[..n + 1];
    assert after == before + [ms[n]];
  }

  method BuildEvent(read: ScoreReader, ms: seq<Matched>, blocked: bool, status: int, interruption: Option<int>)
    returns (r: Option<Summary>)
    ensures IsSummary(read, ms, blocked, status, interruption, r)
  {
    var matched: seq<int> := [];
    var bestSev, bestMsg, bestId, anomaly := UNSET, "", 0, 0;
    ghost var best := -1;
    ghost var scored := -1;
    for n := 0 to |ms|
      invariant matched == DetectionIds(ms[..n])
      invariant best < n && TopOfFirst(ms, n, best)
      invariant best < 0 ==> bestSev == UNSET && bestMsg == "" && bestId == 0
      invariant best >= 0 ==> bestSev == ms[best].severity && bestMsg == ms[best].message && bestId == ms[best].id
      invariant anomaly == 0 ==> forall j :: 0 <= j < n ==> ScoreOf(read, ms[j]) == 0
      invariant anomaly != 0 ==> 0 <= scored < n && anomaly == ScoreOf(read, ms[scored]) && forall j :: 0 <= j < scored ==> ScoreOf(read, ms[j]) == 0
    {
      var m := ms[n];
      if anomaly == 0 {
        var score := read(m.message);
        if score.Some? {
          anomaly := score.value;
        }
        scored := n;
      }
      assert ms[..n + 1][..n] == ms[..n];
      TopExtends(ms, n, best);
      if m.severity < 0 {
        continue;
      }
      if m.id != 0 {
        matched := matched + [m.id];
      }
      if m.severity < bestSev {
        bestSev, bestMsg, bestId := m.severity, m.message, m.id;
        best := n;
      }
    }
    assert ms[..|ms|] == ms;
    if !blocked && matched == [] {
      return None;
    }
    var e := Summary(blocked, status, bestId, bestMsg, 0, anomaly, matched);
    if bestSev != UNSET {
      e := e.(severity := bestSev);
    }
    if e.ruleId == 0 && interruption.Some? {
      e := e.(ruleId := interruption.value);
    }
    forall i | IsTop(ms, i)
      ensures best == i
    {
      if best >= 0 {
        TopUnique(ms, best, i);
      }
    }
    return Some(e);
  }
}
