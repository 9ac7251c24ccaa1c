/**
 The polling loops that decide when to go on and when to give up.  A loop sees a list of
 polls, each with the clock reading taken in it; what the network answered and how long the
 polls took is arbitrary.  A loop that has used up the list is still waiting.
 */
module Polling {
  import opened Options

  datatype Sample<T> = Sample(at: real, value: T)

  ghost predicate Timed<T>(s: seq<Sample<T>>)
  {
    forall i, j :: 0 <= i <= j < |s| ==> s[i].at <= s[j].at
  }

  ghost predicate Same<T>(s: seq<Sample<T>>, j: int, i: int)
    requires 0 <= j <= i < |s|
  {
    forall k :: j <= k <= i ==> s[k].value == s[i].value
  }

  // Sample i is the end of a stretch of equal samples that spans the window
  ghost predicate Stalled<T>(s: seq<Sample<T>>, i: nat, window: real)
    requires i < |s|
  {
    exists j :: 0 <= j < i && Same(s, j, i) && s[i].at - s[j].at >= window
  }

  // Where the stretch of equal samples that ends at i begins
  ghost predicate Began<T>(s: seq<Sample<T>>, j: int, i: int)
  {
    && 0 <= j <= i < |s|
    && Same(s, j, i)
    && (j > 0 ==> s[j - 1].value != s[i].value)
  }

  lemma BeganNext<T>(s: seq<Sample<T>>, j: int, i: int)
    requires Began(s, j, i) && i + 1 < |s|
    ensures s[i + 1].value == s[i].value ==> Began(s, j, i + 1)
    ensures s[i + 1].value != s[i].value ==> Began(s, i + 1, i + 1)
  {
  }

  lemma StalledIff<T>(s: seq<Sample<T>>, j: int, i: nat, window: real)
    requires Timed(s) && Began(s, j, i) && window > 0.0
    ensures Stalled(s, i, window) <==> s[i].at - s[j].at >= window
  {
    if Stalled(s, i, window) {
      var k :| 0 <= k < i && Same(s, k, i) && s[i].at - s[k].at >= window;
      assert j <= k;
    }
  }

  lemma NextStretch<T>(s: seq<Sample<T>>, j: int, i: nat, window: real) returns (k: int)
    requires Timed(s) && Began(s, j, i) && i + 1 < |s| && window > 0.0
    ensures k == if s[i + 1].value == s[i].value then j else i + 1
    ensures Began(s, k, i + 1)
    ensures Stalled(s, i + 1, window) <==> s[i + 1].at - s[k].at >= window
  {
    BeganNext(s, j, i);
    k := if s[i + 1].value == s[i].value then j else i + 1;
    StalledIff(s, k, i + 1, window);
  }

  // ---- waiting for a height ----

  type Hash = string

  datatype Info = Info(blocks: nat, best: Hash)

  // What every node answered in one poll, or None where it could not be reached
  type Infos = seq<Option<Info>>

  const MIN_STALL := 180
  const STALL_ROUNDS := 4

  function StallWindow(round: nat): real
  {
    if round * STALL_ROUNDS > MIN_STALL then (round * STALL_ROUNDS) as real else MIN_STALL as real
  }

  predicate Reached(infos: Infos, target: nat)
  {
    forall n :: 0 <= n < |infos| ==> infos[n].Some? && infos[n].value.blocks >= target
  }

  function Tips(infos: Infos): (r: seq<Option<Hash>>)
    ensures |r| == |infos|
  {
    seq(|infos|, n requires 0 <= n < |infos| => TipOf(infos[n]))
  }

  // What is watched for progress: the vector of best hashes, with None for an unreachable node
  function TipSamples(polls: seq<Sample<Infos>>): (r: seq<Sample<seq<Option<Hash>>>>)
    ensures |r| == |polls|
  {
    seq(|polls|, i requires 0 <= i < |polls| => Sample(polls[i].at, Tips(polls[i].value)))
  }

  datatype Wait<T> = Done(poll: nat, value: T) | TimedOut(poll: nat) | StillWaiting

  ghost predicate IsLowest(infos: Infos, h: nat)
  {
    && (forall n :: 0 <= n < |infos| ==> infos[n].Some? && infos[n].value.blocks >= h)
    && (exists n :: 0 <= n < |infos| && infos[n].Some? && infos[n].value.blocks == h)
  }

  method Lowest(infos: Infos) returns (h: nat)
    requires |infos| > 0 && Reached(infos, 0)
    ensures IsLowest(infos, h)
  {
    h := infos[0].value.blocks;
    for n := 1 to |infos|
      invariant forall m :: 0 <= m < n ==> infos[m].value.blocks >= h
      invariant exists m :: 0 <= m < n && infos[m].value.blocks == h
    {
      if infos[n].value.blocks < h {
        h := infos[n].value.blocks;
      }
    }
  }

  // In every stretch of polls as long as the window, the vector of tips changes somewhere
  ghost predicate KeepsMoving<T>(s: seq<Sample<T>>, window: real)
  {
    forall j, i :: 0 <= j < i < |s| && s[i].at - s[j].at >= window ==>
      exists k :: j <= k < i && s[k].value != s[k + 1].value
  }

  // Then nothing is ever stalled
  lemma MovementIsNoStall<T>(s: seq<Sample<T>>, window: real, i: nat)
    requires KeepsMoving(s, window) && i < |s|
    ensures !Stalled(s, i, window)
  {
    forall j | 0 <= j < i && s[i].at - s[j].at >= window
      ensures !Same(s, j, i)
    {
      var k :| j <= k < i && s[k].value != s[k + 1].value;
      assert !(s[k].value == s[i].value && s[k + 1].value == s[i].value);
    }
  }

  // Poll i decides nothing
  ghost predicate Undecided(polls: seq<Sample<Infos>>, target: nat, window: real, i: nat)
    requires i < |polls|
  {
    !Reached(polls[i].value, target) && !Stalled(TipSamples(polls), i, window)
  }

  ghost predicate UndecidedUntil(polls: seq<Sample<Infos>>, target: nat, window: real, n: nat)
    requires n <= |polls|
  {
    forall i: nat :: i < n ==> Undecided(polls, target, window, i)
  }

  lemma OnePollMore(polls: seq<Sample<Infos>>, target: nat, window: real, n: nat)
    requires n < |polls| && UndecidedUntil(polls, target, window, n) && Undecided(polls, target, window, n)
    ensures UndecidedUntil(polls, target, window, n + 1)
  {
  }

  /** The wait ends at the first poll that decides it: with the lowest height of a poll in
      which every node is reachable and far enough, or with a timeout when the vector of tips
      has stood still for the whole stall window.  There is no other way out; so it never gives
      up on a network in which some tip changes, or some node comes or goes, within every window. */
  method WaitForHeight(polls: seq<Sample<Infos>>, target: nat, round: nat) returns (r: Wait<nat>)
    requires Timed(polls) && forall i :: 0 <= i < |polls| ==> |polls[i].value| > 0
    ensures r.Done? ==> r.poll < |polls| && Reached(polls[r.poll].value, target)
    ensures r.Done? ==> r.value >= target && IsLowest(polls[r.poll].value, r.value)
    ensures r.TimedOut? ==> r.poll < |polls| && !Reached(polls[r.poll].value, target)
    ensures r.TimedOut? ==> Stalled(TipSamples(polls), r.poll, StallWindow(round))
    ensures UndecidedUntil(polls, target, StallWindow(round), if r.StillWaiting? then |polls| else r.poll)
    ensures KeepsMoving(TipSamples(polls), StallWindow(round)) ==> !r.TimedOut?
  {
    var window := StallWindow(round);
    ghost var tips := TipSamples(polls);
    ghost var began := 0;
    var lastState: Option<seq<Option<Hash>>>, lastProgressAt := None, 0.0;
    for i := 0 to |polls|
      invariant i == 0 ==> lastState.None?
      invariant i > 0 ==> Began(tips, began, i - 1)
      invariant i > 0 ==> lastState == Some(tips[i - 1].value) && lastProgressAt == tips[began].at
      invariant UndecidedUntil(polls, target, window, i)
    {
      var infos := polls[i].value;
      if Reached(infos, target) {
        var h := Lowest(infos);
        return Done(i, h);
      }
      var state := Tips(infos);
      if i > 0 {
        BeganNext(tips, began, i - 1);
      }
      began := if lastState == Some(state) then began else i;
      StalledIff(tips, began, i, window);
      if lastState != Some(state) {
        lastState, lastProgressAt := Some(state), polls[i].at;
      } else if polls[i].at - lastProgressAt >= window {
        if KeepsMoving(tips, window) {
          MovementIsNoStall(tips, window, i);
        }
        return TimedOut(i);
      }
      OnePollMore(polls, target, window, i);
    }
    return StillWaiting;
  }

  // A node that becomes reachable or unreachable changes the vector as much as a new tip does
  lemma ReachabilityIsMovement(a: Infos, b: Infos, n: nat)
    requires n < |a| == |b| && a[n].Some? != b[n].Some?
    ensures Tips(a) != Tips(b)
  {
    assert Tips(a)[n].Some? != Tips(b)[n].Some?;
  }

  function HeightOf(info: Option<Info>): Option<nat>
  {
    if info.Some? then Some(info.value.blocks) else None
  }

  function TipOf(info: Option<Info>): Option<Hash>
  {
    if info.Some? then Some(info.value.best) else None
  }

  // ---- waiting for matching tips ----

  const MATCH_TIMEOUT := 30.0

  // All answers agree on height and tip; "no answer" agrees with "no answer"
  ghost predicate Agree(infos: Infos)
  {
    forall n :: 0 <= n < |infos| ==>
      HeightOf(infos[n]) == HeightOf(infos[0]) && TipOf(infos[n]) == TipOf(infos[0])
  }

  method AllAgree(infos: Infos) returns (b: bool)
    requires |infos| > 0
    ensures b <==> Agree(infos)
  {
    b := true;
    for n := 0 to |infos|
      invariant b <==> forall m :: 0 <= m < n ==>
                  HeightOf(infos[m]) == HeightOf(infos[0]) && TipOf(infos[m]) == TipOf(infos[0])
    {
      b := b && HeightOf(infos[n]) == HeightOf(infos[0]) && TipOf(infos[n]) == TipOf(infos[0]);
    }
  }

  /** Ends at the first poll in which all answers agree, or at the first poll past the
      deadline in which they do not.  It hands back a height and a tip if and only if the
      nodes were reachable: an entirely unreachable network also agrees. */
  method WaitForMatchingTips(start: real, polls: seq<Sample<Infos>>) returns (r: Wait<Option<Info>>)
    requires forall i :: 0 <= i < |polls| ==> |polls[i].value| > 0
    ensures r.Done? ==> r.poll < |polls| && Agree(polls[r.poll].value)
    ensures r.Done? ==> forall n :: 0 <= n < |polls[r.poll].value| ==> polls[r.poll].value[n] == r.value
    ensures r.TimedOut? ==> r.poll < |polls| && !Agree(polls[r.poll].value)
    ensures r.TimedOut? ==> polls[r.poll].at >= start + MATCH_TIMEOUT
    ensures forall i :: 0 <= i < (if r.StillWaiting? then |polls| else r.poll) ==>
              !Agree(polls[i].value) && polls[i].at < start + MATCH_TIMEOUT
  {
    var deadline := start + MATCH_TIMEOUT;
    for i := 0 to |polls|
      invariant forall k :: 0 <= k < i ==> !Agree(polls[k].value) && polls[k].at < deadline
    {
      var infos := polls[i].value;
      var agreed := AllAgree(infos);
      if agreed {
        return Done(i, infos[0]);
      }
      if polls[i].at >= deadline {
        return TimedOut(i);
      }
    }
    return StillWaiting;
  }

  // ---- waiting for empty mempools ----

  const SETTLE_TIMEOUT := 600.0
  const FROZEN_TIMEOUT := 180.0

  type Mempools = seq<Option<seq<string>>>

  datatype Look = Look(mempools: Mempools, height: nat)

  // Every node answered, and with an empty list
  predicate AllEmpty(mempools: Mempools)
  {
    forall n :: 0 <= n < |mempools| ==> mempools[n] == Some([])
  }

  // The heights seen: the one read before the loop, then one for each look
  function Heights(first: Sample<nat>, looks: seq<Sample<Look>>): (r: seq<Sample<nat>>)
    ensures |r| == |looks| + 1 && r[0] == first
    ensures forall i :: 0 <= i < |looks| ==> r[i + 1] == Sample(looks[i].at, looks[i].value.height)
  {
    [first] + seq(|looks|, i requires 0 <= i < |looks| => Sample(looks[i].at, looks[i].value.height))
  }

  datatype Drain = Drained(look: nat) | Frozen(look: nat) | OutOfTime(look: nat) | StillDraining

  // Look i decides nothing
  ghost predicate GoesOn(first: Sample<nat>, looks: seq<Sample<Look>>, heights: seq<Sample<nat>>, i: nat)
    requires i < |looks| && |heights| == |looks| + 1
  {
    && !AllEmpty(looks[i].value.mempools)
    && looks[i].at < first.at + SETTLE_TIMEOUT
    && !Stalled(heights, i + 1, FROZEN_TIMEOUT)
  }

  ghost predicate GoesOnUntil(first: Sample<nat>, looks: seq<Sample<Look>>, heights: seq<Sample<nat>>, n: nat)
    requires n <= |looks| && |heights| == |looks| + 1
  {
    forall i: nat :: i < n ==> GoesOn(first, looks, heights, i)
  }

  lemma OneLookMore(first: Sample<nat>, looks: seq<Sample<Look>>, heights: seq<Sample<nat>>, n: nat)
    requires n < |looks| && |heights| == |looks| + 1
    requires GoesOnUntil(first, looks, heights, n) && GoesOn(first, looks, heights, n)
    ensures GoesOnUntil(first, looks, heights, n + 1)
  {
  }

  /** Returns at the first look in which every mempool is empty.  It gives up as frozen only
      when the height has not changed for the frozen timeout, otherwise at the first look at or past
      the overall deadline: so it makes at most one look past that deadline.  `heights` are the
      heights it has seen. */
  method WaitForEmptyMempool(first: Sample<nat>, looks: seq<Sample<Look>>, ghost heights: seq<Sample<nat>>)
    returns (r: Drain)
    requires heights == Heights(first, looks) && Timed(heights)
    ensures r.Drained? ==> r.look < |looks| && AllEmpty(looks[r.look].value.mempools)
    ensures r.Frozen? || r.OutOfTime? ==> r.look < |looks| && !AllEmpty(looks[r.look].value.mempools)
    ensures r.Frozen? ==> Stalled(heights, r.look + 1, FROZEN_TIMEOUT)
    ensures r.OutOfTime? ==> looks[r.look].at >= first.at + SETTLE_TIMEOUT
    ensures r.OutOfTime? ==> !Stalled(heights, r.look + 1, FROZEN_TIMEOUT)
    ensures GoesOnUntil(first, looks, heights, if r.StillDraining? then |looks| else r.look)
  {
    ghost var began := 0;
    var lastHeight, frozenSince := first.value, first.at;
    for i := 0 to |looks|
      invariant Began(heights, began, i)
      invariant lastHeight == heights[i].value && frozenSince == heights[began].at
      invariant GoesOnUntil(first, looks, heights, i)
    {
      if AllEmpty(looks[i].value.mempools) {
        return Drained(i);
      }
      began := NextStretch(heights, began, i, FROZEN_TIMEOUT);
      if looks[i].value.height != lastHeight {
        lastHeight, frozenSince := looks[i].value.height, looks[i].at;
      }
      if looks[i].at - frozenSince >= FROZEN_TIMEOUT {
        return Frozen(i);
      }
      if looks[i].at >= first.at + SETTLE_TIMEOUT {
        return OutOfTime(i);
      }
      OneLookMore(first, looks, heights, i);
    }
    return StillDraining;
  }
}
