/**
 When the chaos loop of a node acts: the gate it waits at, how long a stopped node stays
 down, and the order of its actions.
 */
module Chaos {
  import opened Options

  // ---- the gate ----

  const PAUSE_POLL := 10.0
  const MAX_JITTER := 15.0

  // When the loop last looked for the pause file, and when it then starts its action
  datatype Release = Release(checked: real, starts: real)

  // The times at which the loop looks: a sleep may last longer than it was asked to
  ghost predicate AreChecks(times: seq<real>)
  {
    forall k :: 0 <= k < |times| - 1 ==> times[k] + PAUSE_POLL <= times[k + 1]
  }

  /** `file(t)` says whether the pause file is there at time t.  The gate opens at the first
      check that does not find it; only a loop that had to wait adds the jitter, and it does
      not look again after that. */
  method WaitOutPause(file: real -> bool, times: seq<real>, jitter: real) returns (r: Option<Release>)
    requires 0.0 <= jitter <= MAX_JITTER
    ensures r.None? <==> forall k :: 0 <= k < |times| ==> file(times[k])
    ensures r.Some? ==> !file(r.value.checked) && 0.0 <= r.value.starts - r.value.checked <= MAX_JITTER
    ensures r.Some? ==> exists k: nat :: k < |times| && IsOpening(file, times, k, jitter, r.value)
  {
    var waited, k := false, 0;
    while k < |times| && file(times[k])
      invariant k <= |times| && (waited <==> k > 0)
      invariant forall j :: 0 <= j < k ==> file(times[j])
    {
      waited, k := true, k + 1;
    }
    if k == |times| {
      return None;
    }
    var released := Release(times[k], if waited then times[k] + jitter else times[k]);
    assert IsOpening(file, times, k, jitter, released);
    return Some(released);
  }

  // Check k is the first that does not find the file, and r is what follows from it
  ghost predicate IsOpening(file: real -> bool, times: seq<real>, k: nat, jitter: real, r: Release)
    requires k < |times|
  {
    && !file(times[k])
    && (forall j :: 0 <= j < k ==> file(times[j]))
    && r == Release(times[k], times[k] + if k > 0 then jitter else 0.0)
  }

  lemma {:induction false} ChecksAreApart(times: seq<real>, j: nat, k: nat)
    requires AreChecks(times) && j < k < |times|
    ensures times[j] < times[k]
    decreases k
  {
    assert times[k - 1] + PAUSE_POLL <= times[k];
    if j < k - 1 {
      ChecksAreApart(times, j, k - 1);
    }
  }

  // The file can come and go in such a way that the action starts while it is there
  ghost predicate CanStartPaused(times: seq<real>, k: nat, jitter: real)
    requires k < |times|
  {
    exists file: real -> bool, r: Release :: IsOpening(file, times, k, jitter, r) && file(r.starts)
  }

  /** That is all the gate gives: whatever the times of the checks, an action released by check k
      can start while paused if and only if it had to wait and there is some jitter. */
  lemma PausedStartIff(times: seq<real>, k: nat, jitter: real)
    requires AreChecks(times) && k < |times| && 0.0 <= jitter <= MAX_JITTER
    ensures CanStartPaused(times, k, jitter) <==> k > 0 && jitter > 0.0
  {
    if k > 0 && jitter > 0.0 {
      var open := times[k];
      var file := t => t != open;
      var r := Release(open, open + jitter);
      forall j | 0 <= j < k ensures file(times[j]) {
        ChecksAreApart(times, j, k);
      }
      assert IsOpening(file, times, k, jitter, r) && file(r.starts);
    }
  }

  // ---- staying down ----

  const DOWNTIME_TIMEOUT := 90.0

  // One poll of the other nodes: the clock after it, and the first height that was answered
  datatype PeerPoll = PeerPoll(at: real, height: Option<nat>)

  datatype Wake = FlatWait(until: real) | SawBlocks(poll: nat) | GaveUp(poll: nat) | StillDown

  predicate SawEnough(p: PeerPoll, baseline: nat, blocks: nat)
  {
    p.height.Some? && p.height.value >= baseline + blocks
  }

  /** The downtime ends at the first poll that sees the wanted number of new blocks or is past
      the deadline, blocks being looked at first; without a baseline it is a flat wait. */
  method WaitOutDowntime(baseline: Option<nat>, blocks: nat, start: real, polls: seq<PeerPoll>) returns (r: Wake)
    ensures r.FlatWait? <==> baseline.None?
    ensures r.FlatWait? ==> r.until == start + DOWNTIME_TIMEOUT
    ensures r.SawBlocks? ==> r.poll < |polls| && SawEnough(polls[r.poll], baseline.value, blocks)
    ensures r.GaveUp? ==> r.poll < |polls| && !SawEnough(polls[r.poll], baseline.value, blocks)
    ensures r.GaveUp? ==> polls[r.poll].at >= start + DOWNTIME_TIMEOUT
    ensures !r.FlatWait? ==>
              forall i: nat :: i < (if r.StillDown? then |polls| else r.poll) ==>
                && !SawEnough(polls[i], baseline.value, blocks)
                && polls[i].at < start + DOWNTIME_TIMEOUT
  {
    if baseline.None? {
      return FlatWait(start + DOWNTIME_TIMEOUT);
    }
    var deadline := start + DOWNTIME_TIMEOUT;
    for i := 0 to |polls|
      invariant forall k: nat :: k < i ==>
                  !SawEnough(polls[k], baseline.value, blocks) && polls[k].at < deadline
    {
      if SawEnough(polls[i], baseline.value, blocks) {
        return SawBlocks(i);
      }
      if polls[i].at >= deadline {
        return GaveUp(i);
      }
    }
    return StillDown;
  }

  // ---- the order of the actions ----

  datatype Action = PlainRestart | FlavoredRestart | InvalidateAndReconsider

  // What a shuffle of the three actions can give
  ghost predicate IsCycle(c: seq<Action>)
  {
    multiset(c) == multiset{PlainRestart, FlavoredRestart, InvalidateAndReconsider}
  }

  lemma CycleHoldsAll(c: seq<Action>, a: Action)
    requires IsCycle(c)
    ensures |c| == 3 && a in c
  {
    assert |multiset(c)| == 3;
    assert a in multiset(c);
  }

  // Attempt k of a node, counted over its cycles
  function Attempt(cycles: seq<seq<Action>>, k: nat): Action
    requires k < 3 * |cycles| && forall c :: c in cycles ==> |c| == 3
  {
    cycles[k / 3][k % 3]
  }

  /** Any five consecutive attempts contain all three actions, however the cycles were
      shuffled. */
  lemma FiveAttemptsCoverAll(cycles: seq<seq<Action>>, i: nat, a: Action) returns (k: nat)
    requires forall c :: c in cycles ==> IsCycle(c) && |c| == 3
    requires i + 5 <= 3 * |cycles|
    ensures i <= k < i + 5 && Attempt(cycles, k) == a
  {
    var c := (i + 2) / 3;
    assert i <= 3 * c && 3 * c + 3 <= i + 5;
    CycleHoldsAll(cycles[c], a);
    var j :| 0 <= j < 3 && cycles[c][j] == a;
    k := 3 * c + j;
    assert k / 3 == c && k % 3 == j;
  }

  /** Four consecutive attempts are not enough. */
  lemma FourAttemptsMayMissOne() returns (cycles: seq<seq<Action>>, i: nat)
    ensures |cycles| == 2 && (forall c :: c in cycles ==> IsCycle(c) && |c| == 3) && i + 4 <= 6
    ensures forall k :: i <= k < i + 4 ==> Attempt(cycles, k) != PlainRestart
  {
    cycles := [[PlainRestart, FlavoredRestart, InvalidateAndReconsider],
               [FlavoredRestart, InvalidateAndReconsider, PlainRestart]];
    i := 1;
  }
}
