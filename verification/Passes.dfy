/**
 The passes that the settle loop makes for one comparison: how many there can be, and how many
 of them past the deadline.
 */
module Passes {
  import opened Options
  import opened Chain
  import opened Network
  import opened Settlement

  /** One pass: from `since` to `mid` every node was found at `height`, and from `third` to
      `after` the heights were polled once more and `seen`. */
  datatype Pass = Pass(since: Net, mid: Net, third: Net, after: Net, height: nat, seen: seq<Option<nat>>)
  {
    // Not every node answered the same height again
    predicate Discarded() { exists i :: 0 <= i < |seen| && seen[i] != Some(height) }

    // It was not yet too late to try again when the pass ended
    predicate InTime(deadline: nat) { after.now < deadline }
  }

  ghost predicate IsPass(p: Pass)
  {
    && Evolves(p.since, p.mid) && Evolves(p.mid, p.third) && Evolves(p.third, p.after)
    && |p.seen| == NODE_COUNT
    && (forall n: Node :: HeightSample(p.since, p.mid, n, Some(p.height)))
    && (forall n: Node :: HeightSample(p.third, p.after, n, p.seen[n]))
  }

  // Where the network was when the passes were over
  function EndOf(start: Net, passes: seq<Pass>): Net
  {
    if |passes| == 0 then start else passes[|passes| - 1].after
  }

  // One pass after the other, starting from `start`
  ghost predicate InTurn(start: Net, passes: seq<Pass>)
  {
    forall i: nat :: i < |passes| ==> Follows(start, passes, i)
  }

  ghost predicate Follows(start: Net, passes: seq<Pass>, i: nat)
    requires i < |passes|
  {
    IsPass(passes[i]) && Evolves(EndOf(start, passes[..i]), passes[i].since)
  }

  // Every one of them may be followed by another
  ghost predicate AllRetried(passes: seq<Pass>, deadline: nat)
  {
    forall i :: 0 <= i < |passes| ==> passes[i].Discarded() || passes[i].InTime(deadline)
  }

  function DiscardedCount(passes: seq<Pass>): nat
  {
    if |passes| == 0 then 0
    else DiscardedCount(passes[..|passes| - 1]) + (if passes[|passes| - 1].Discarded() then 1 else 0)
  }

  function LateCount(passes: seq<Pass>, deadline: nat): nat
  {
    if |passes| == 0 then 0
    else LateCount(passes[..|passes| - 1], deadline) + (if passes[|passes| - 1].InTime(deadline) then 0 else 1)
  }

  lemma {:induction false} LateWereDiscarded(passes: seq<Pass>, deadline: nat)
    requires AllRetried(passes, deadline)
    ensures LateCount(passes, deadline) <= DiscardedCount(passes)
  {
    if |passes| > 0 {
      assert passes[|passes| - 1].Discarded() || passes[|passes| - 1].InTime(deadline);
      LateWereDiscarded(passes[..|passes| - 1], deadline);
    }
  }

  lemma OnePassMore(start: Net, passes: seq<Pass>, p: Pass)
    requires InTurn(start, passes) && IsPass(p) && Evolves(EndOf(start, passes), p.since)
    ensures InTurn(start, passes + [p]) && EndOf(start, passes + [p]) == p.after
    ensures DiscardedCount(passes + [p]) == DiscardedCount(passes) + if p.Discarded() then 1 else 0
  {
    var all := passes + [p];
    assert all[..|passes|] == passes;
    forall i: nat | i < |all| ensures Follows(start, all, i) {
      if i < |passes| {
        assert Follows(start, passes, i);
        assert all[..i] == passes[..i];
      }
    }
  }

  /** What the loop promises about its passes when it ends in `end`: only a pass that was
      discarded or in time is followed by another, the passes past the deadline outnumber the
      discarded ones by at most one, and each pass but the last has used up a movement of the
      network. */
  ghost predicate AreLoop(start: Net, passes: seq<Pass>, deadline: nat, end: Net)
  {
    && InTurn(start, passes) && Evolves(EndOf(start, passes), end)
    && (|passes| > 0 ==> AllRetried(passes[..|passes| - 1], deadline))
    && LateCount(passes, deadline) <= DiscardedCount(passes) + 1
    && DiscardedCount(passes) + end.moves <= start.moves
    && |passes| + end.moves <= start.moves + 1
  }

  // The comparison of a pass
  ghost predicate OfPass(c: Comparison, p: Pass)
  {
    c.before == p.since && c.after == p.after && c.height == p.height
  }

  // The last pass was not discarded, and what it compared is c
  ghost predicate Decides(passes: seq<Pass>, c: Comparison)
  {
    |passes| > 0 && !passes[|passes| - 1].Discarded() && OfPass(c, passes[|passes| - 1])
  }

  // Between two passes
  ghost predicate MayGoOn(start: Net, passes: seq<Pass>, deadline: nat, net: Net)
  {
    && InTurn(start, passes) && Evolves(EndOf(start, passes), net)
    && AllRetried(passes, deadline)
    && DiscardedCount(passes) <= |passes| && |passes| + net.moves <= start.moves
  }

  // One pass that is followed by another
  ghost predicate IsRetriedTurn(turn: seq<Pass>, deadline: nat, net: Net, next: Net)
  {
    && |turn| == 1 && IsPass(turn[0]) && Evolves(net, turn[0].since) && Evolves(turn[0].after, next)
    && (turn[0].Discarded() || turn[0].InTime(deadline)) && next.moves < net.moves
  }

  // The last pass, which was not discarded, or a pass that did not come to an end
  ghost predicate IsLastTurn(turn: seq<Pass>, deadline: nat, net: Net, end: Net)
  {
    && |turn| <= 1 && Evolves(net, end)
    && (|turn| == 1 ==>
          IsPass(turn[0]) && Evolves(net, turn[0].since) && !turn[0].Discarded() && Evolves(turn[0].after, end))
  }

  ghost predicate IsTurn(turn: seq<Pass>, deadline: nat, net: Net, next: Net, more: bool)
  {
    if more then IsRetriedTurn(turn, deadline, net, next) else IsLastTurn(turn, deadline, net, next)
  }

  lemma TurnOver(start: Net, passes: seq<Pass>, deadline: nat, net: Net, turn: seq<Pass>, next: Net, more: bool)
    requires MayGoOn(start, passes, deadline, net)
    requires IsTurn(turn, deadline, net, next, more)
    ensures if more then MayGoOn(start, passes + turn, deadline, next)
            else AreLoop(start, passes + turn, deadline, next)
  {
    if |turn| == 0 {
      assert passes + turn == passes;
      LoopStops(start, passes, deadline, net, next);
    } else {
      assert turn == [turn[0]];
      if more {
        LoopGoesOn(start, passes, deadline, net, turn[0], next);
      } else {
        LoopEnds(start, passes, deadline, net, turn[0], next);
      }
    }
  }

  lemma LoopStops(start: Net, passes: seq<Pass>, deadline: nat, net: Net, end: Net)
    requires MayGoOn(start, passes, deadline, net) && Evolves(net, end)
    ensures AreLoop(start, passes, deadline, end)
  {
    LateWereDiscarded(passes, deadline);
    EvolvesTransitive(EndOf(start, passes), net, end);
  }

  lemma LoopEnds(start: Net, passes: seq<Pass>, deadline: nat, net: Net, p: Pass, end: Net)
    requires MayGoOn(start, passes, deadline, net) && IsPass(p) && Evolves(net, p.since) && !p.Discarded()
    requires Evolves(p.after, end) && end.moves <= net.moves
    ensures AreLoop(start, passes + [p], deadline, end)
  {
    LateWereDiscarded(passes, deadline);
    EvolvesTransitive(EndOf(start, passes), net, p.since);
    OnePassMore(start, passes, p);
    assert (passes + [p])[..|passes|] == passes;
  }

  // A pass that is followed by another
  lemma LoopGoesOn(start: Net, passes: seq<Pass>, deadline: nat, net: Net, p: Pass, next: Net)
    requires MayGoOn(start, passes, deadline, net) && IsPass(p) && Evolves(net, p.since)
    requires p.Discarded() || p.InTime(deadline)
    requires Evolves(p.after, next) && next.moves < net.moves
    ensures MayGoOn(start, passes + [p], deadline, next)
  {
    EvolvesTransitive(EndOf(start, passes), net, p.since);
    OnePassMore(start, passes, p);
  }

  lemma LoopWidens(start: Net, passes: seq<Pass>, deadline: nat, a: Net, b: Net)
    requires AreLoop(start, passes, deadline, a) && Evolves(a, b)
    ensures AreLoop(start, passes, deadline, b)
  {
    EvolvesTransitive(EndOf(start, passes), a, b);
  }

  // ---- no number of passes past the deadline is too many ----

  // The network after node n has gone away and come back i times in all, counting each way
  function Flap(net: Net, n: Node, i: nat): Net
    requires net.Shape()
  {
    net.(up := net.up[n := i % 2 == 0], moves := if i <= net.moves then net.moves - i else 0)
  }

  // The pass that finds all nodes at h, and then node n gone
  function FlapPass(net: Net, n: Node, h: nat, j: nat): Pass
    requires net.Shape()
  {
    Pass(Flap(net, n, 2 * j), Flap(net, n, 2 * j), Flap(net, n, 2 * j), Flap(net, n, 2 * j + 1), h,
         seq(NODE_COUNT, k => if k == n then None else Some(h)))
  }

  // All nodes answer, and all the same height
  ghost predicate AllAt(net: Net, h: nat)
  {
    net.Shape() && forall n: Node :: net.up[n] && net.height[n] == h
  }

  lemma FlapEvolves(net: Net, n: Node, h: nat, i: nat, j: nat)
    requires ValidNet(net) && AllAt(net, h) && !IsEarner(n) && i <= j <= i + 1 && j <= net.moves
    ensures ValidNet(Flap(net, n, i)) && Evolves(Flap(net, n, i), Flap(net, n, j))
  {
    var s := Flap(net, n, i);
    forall k | 0 <= k < NODE_COUNT ensures Backed(s, s.height[k]) {
      assert Backed(net, net.height[k]);
    }
  }

  lemma FlapIsPass(net: Net, n: Node, h: nat, j: nat)
    requires ValidNet(net) && AllAt(net, h) && !IsEarner(n) && 2 * j + 1 <= net.moves
    ensures IsPass(FlapPass(net, n, h, j)) && FlapPass(net, n, h, j).Discarded()
  {
    var p := FlapPass(net, n, h, j);
    FlapEvolves(net, n, h, 2 * j, 2 * j);
    FlapEvolves(net, n, h, 2 * j, 2 * j + 1);
    assert p.seen[n] != Some(h);
    assert Backed(net, net.height[n]);
    forall k: Node
      ensures HeightSample(p.since, p.mid, k, Some(h)) && HeightSample(p.third, p.after, k, p.seen[k])
    {
      assert p.since.up[k] && p.since.height[k] == h;
      assert Backed(p.mid, h) && Backed(p.after, h);
    }
  }

  function FlapPasses(net: Net, n: Node, h: nat, k: nat): (r: seq<Pass>)
    requires net.Shape()
    ensures |r| == k
  {
    seq(k, j requires 0 <= j < k => FlapPass(net, n, h, j))
  }

  lemma FlapComesBack(net: Net, n: Node, h: nat, k: nat, i: nat)
    requires ValidNet(net) && AllAt(net, h) && !IsEarner(n) && 2 * k <= net.moves && i < k
    ensures Evolves(EndOf(net, FlapPasses(net, n, h, k)[..i]), Flap(net, n, 2 * i))
  {
    if i > 0 {
      FlapEvolves(net, n, h, 2 * i - 1, 2 * i);
      assert FlapPasses(net, n, h, k)[..i][i - 1] == FlapPass(net, n, h, i - 1);
    } else {
      assert net.up[n := true] == net.up;
      FlapEvolves(net, n, h, 0, 0);
    }
  }

  lemma FlapsFollow(net: Net, n: Node, h: nat, k: nat, i: nat)
    requires ValidNet(net) && AllAt(net, h) && !IsEarner(n) && 2 * k <= net.moves && i < k
    ensures Follows(net, FlapPasses(net, n, h, k), i) && FlapPasses(net, n, h, k)[i].Discarded()
  {
    FlapIsPass(net, n, h, i);
    FlapComesBack(net, n, h, k, i);
    assert FlapPasses(net, n, h, k)[i] == FlapPass(net, n, h, i);
    assert FlapPass(net, n, h, i).since == Flap(net, n, 2 * i);
  }

  /** Nothing but the network ends a series of discarded passes: from any network in which all
      nodes answer the same height, with a chaos node that goes away before every second poll,
      any number of passes in a row can be discarded, all of them past the deadline. */
  lemma DiscardedWithoutEnd(net: Net, n: Node, h: nat, deadline: nat, k: nat) returns (passes: seq<Pass>)
    requires ValidNet(net) && AllAt(net, h) && !IsEarner(n) && deadline <= net.now && 2 * k <= net.moves
    ensures |passes| == k && InTurn(net, passes)
    ensures forall i :: 0 <= i < k ==> passes[i].Discarded() && deadline <= passes[i].since.now
    ensures LateCount(passes, deadline) == k
  {
    passes := FlapPasses(net, n, h, k);
    forall i: nat | i < k ensures Follows(net, passes, i) && passes[i].Discarded() {
      FlapsFollow(net, n, h, k, i);
    }
    AllAreLate(passes, deadline);
  }

  lemma {:induction false} AllAreLate(passes: seq<Pass>, deadline: nat)
    requires forall i :: 0 <= i < |passes| ==> !passes[i].InTime(deadline)
    ensures LateCount(passes, deadline) == |passes|
  {
    if |passes| > 0 {
      AllAreLate(passes[..|passes| - 1], deadline);
    }
  }
}
