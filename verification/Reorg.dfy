/**
 The two-sided reorg recipe: a sequence of stops, starts and waits that makes the two groups
 build different forks from one recorded baseline and then lets group B's fork win.

 `quiet` is the hypothesis about timing that exact lengths need: no block lands between the
 poll that ends a wait and the stop of the signers, nor between the block that reaches the
 target height and that poll.  Starting or stopping a group is one step.
 */
module Reorg {
  import opened Options
  import opened BlockTree
  import opened Confirmation

  const ALL_NODES: set<nat> := GROUP_A + GROUP_B
  const EXTENSION := 2

  ghost predicate Reaches(s: Net, t: Net) { exists steps :: Play(s, steps) == Some(t) }

  lemma ReachesBy(s: Net, steps: seq<Step>, t: Net)
    requires Play(s, steps) == Some(t)
    ensures Reaches(s, t)
  {
  }

  lemma ReachesTransitive(s: Net, t: Net, u: Net)
    requires Reaches(s, t) && Reaches(t, u)
    ensures Reaches(s, u)
  {
    var a :| Play(s, a) == Some(t);
    var b :| Play(t, b) == Some(u);
    PlayConcat(s, a, b);
    ReachesBy(s, a + b, u);
  }

  lemma ReachesFrame(s: Net, t: Net)
    requires Reaches(s, t)
    ensures |t.nodes| == |s.nodes| && t.signing == s.signing && t.hosts == s.hosts && t.next >= s.next
    ensures forall i: nat :: i < |s.nodes| ==>
              && t.nodes[i].up == s.nodes[i].up && (!s.nodes[i].up ==> t.nodes[i] == s.nodes[i])
              && |t.nodes[i].active| >= |s.nodes[i].active| && s.nodes[i].heard <= t.nodes[i].heard
  {
    var steps :| Play(s, steps) == Some(t);
    PlayFrame(s, steps);
  }

  predicate Within(s: Net, limit: nat)
  {
    forall i: nat :: i < |s.nodes| && s.nodes[i].up ==> |s.nodes[i].active| <= limit
  }

  function WithUp(s: Net, g: set<nat>, up: bool): (t: Net)
    ensures |t.nodes| == |s.nodes| && t == s.(nodes := t.nodes)
    ensures forall i: nat :: i < |s.nodes| ==>
              t.nodes[i] == if i in g then s.nodes[i].(up := up) else s.nodes[i]
  {
    s.(nodes := seq(|s.nodes|, i requires 0 <= i < |s.nodes| =>
      if i in g then s.nodes[i].(up := up) else s.nodes[i]))
  }

  /** The signers ran from s0 until all of g had reached the target, in s1, and stopped in s2;
      in a quiet run they made no block beyond the target. */
  ghost predicate IsBuild(g: set<nat>, target: nat, s0: Net, s1: Net, s2: Net, quiet: bool)
  {
    && Reaches(s0, s1) && Reaches(s1, s2.(signing := s1.signing)) && !s2.signing
    && |s0.nodes| == |s1.nodes| == |s2.nodes|
    && (forall i: nat :: i < |s1.nodes| && i in g ==> |s1.nodes[i].active| >= target)
    && (quiet && Within(s0, target) ==> Within(s2, target))
  }

  /** The seven nodes and the signers, as the recipe sees and handles them. */
  class Testbed {
    var net: Net
    const quiet: bool

    constructor (net: Net, quiet: bool)
      ensures this.net == net && this.quiet == quiet
    {
      this.net, this.quiet := net, quiet;
    }

    // The recipe is suspended: anything the environment can do may happen
    method Await(limit: nat)
      modifies this
      ensures Reaches(old(net), net) && |net.nodes| == |old(net).nodes|
      ensures quiet && Within(old(net), limit) ==> Within(net, limit)
    {
      var steps: seq<Step> := *;
      var next := Play(net, steps);
      if next.Some? && (!quiet || Within(next.value, limit)) {
        net := next.value;
        ReachesBy(old(net), steps, net);
      } else {
        ReachesBy(net, [], net);
      }
      ReachesFrame(old(net), net);
    }

    // Waiting until all of g are at the target height; false when the wait times out
    method WaitForHeight(g: set<nat>, target: nat, limit: nat) returns (ok: bool)
      modifies this
      ensures Reaches(old(net), net) && |net.nodes| == |old(net).nodes|
      ensures quiet && Within(old(net), limit) ==> Within(net, limit)
      ensures ok ==> forall i: nat :: i < |net.nodes| && i in g ==> net.nodes[i].up && |net.nodes[i].active| >= target
    {
      Await(limit);
      ok := forall i: nat :: i < |net.nodes| && i in g ==> net.nodes[i].up && |net.nodes[i].active| >= target;
    }

    method SetNodes(g: set<nat>, up: bool)
      modifies this
      ensures net == WithUp(old(net), g, up)
    {
      net := WithUp(net, g, up);
    }

    // The signers run on until the stop takes effect
    method StopSigners(limit: nat)
      modifies this
      ensures !net.signing && Reaches(old(net), net.(signing := old(net).signing))
      ensures |net.nodes| == |old(net).nodes|
      ensures quiet && Within(old(net), limit) ==> Within(net, limit)
    {
      Await(limit);
      ghost var last := net;
      ReachesFrame(old(net), last);
      net := net.(signing := false);
      assert net.(signing := last.signing) == last;
    }

    // The part the three building steps share: wait, read the tip of one node, stop the signers
    method Build(g: set<nat>, target: nat, probe: nat) returns (ok: bool, tip: Chain, ghost reached: Net)
      requires probe < |net.nodes|
      modifies this
      ensures ok ==> IsBuild(g, target, old(net), reached, net, quiet)
      ensures ok ==> tip == reached.nodes[probe].active
      ensures |net.nodes| == |old(net).nodes|
    {
      tip := [];
      ok := WaitForHeight(g, target, target);
      reached := net;
      if ok {
        tip := net.nodes[probe].active;
        StopSigners(target);
      }
    }

    method StartSigners(hosts: set<nat>)
      modifies this
      ensures net == old(net).(signing := true, hosts := hosts)
    {
      net := net.(signing := true, hosts := hosts);
    }
  }

  // ---- the phases ----

  ghost predicate OffLine(g: set<nat>, base: Chain, line: Chain, s: Net)
    requires |s.nodes| == NODE_COUNT
  {
    forall i: nat :: i < NODE_COUNT && i in g ==> !s.nodes[i].up && OnLine(s.nodes[i], base, line)
  }

  // All nodes are at the baseline, and nothing is produced
  ghost predicate AtBaseline(base: Chain, s: Net)
  {
    Isolated(ALL_NODES, base, [], s) && !s.signing
  }

  // Every node of g has at least `length` blocks on top of the base
  ghost predicate Built(g: set<nat>, base: Chain, length: nat, s: Net)
    requires |s.nodes| == NODE_COUNT
  {
    forall i: nat :: i < NODE_COUNT && i in g ==> |s.nodes[i].active| >= |base| + length
  }

  ghost predicate GroupBBuilt(base: Chain, b: Chain, length: nat, s: Net)
  {
    Isolated(GROUP_B, base, b, s) && !s.signing && OffLine(GROUP_A, base, base, s) && Built(GROUP_B, base, length, s)
  }

  ghost predicate GroupAStopped(base: Chain, s: Net)
  {
    Isolated(GROUP_B, base, [], s) && OffLine(GROUP_A, base, base, s)
  }

  // Some node of g has all of this line
  ghost predicate WholeIn(g: set<nat>, line: Chain, s: Net)
  {
    exists i: nat :: i < |s.nodes| && i in g && s.nodes[i].active == line
  }

  ghost predicate GroupARestored(base: Chain, b: Chain, length: nat, s: Net)
  {
    && Isolated(GROUP_A, base, [], s) && Below(base + b, s.next)
    && OffLine(GROUP_B, base, base + b, s) && Built(GROUP_B, base, length, s)
    && WholeIn(GROUP_B, base + b, s)
  }

  ghost predicate GroupABuilt(base: Chain, a: Chain, b: Chain, length: nat, s: Net)
  {
    && Isolated(GROUP_A, base, a, s) && !s.signing
    && OffLine(GROUP_B, base, base + b, s) && Built(ALL_NODES, base, length, s)
    && WholeIn(GROUP_B, base + b, s)
  }

  // ---- from phase to phase ----

  lemma IsolatedAfter(g: set<nat>, base: Chain, x: Chain, s: Net, t: Net) returns (y: Chain)
    requires Isolated(g, base, x, s) && Reaches(s, t)
    ensures Isolated(g, base, x + y, t) && NotBelow(y, s.next) && (!s.signing ==> y == [])
  {
    var steps :| Play(s, steps) == Some(t);
    y := PlayKeepsIsolated(g, base, x, s, steps);
  }

  // From a wait to the stop of the signers
  lemma IsolatedUntilStop(g: set<nat>, base: Chain, x: Chain, s: Net, t: Net, u: Net) returns (y: Chain, z: Chain)
    requires Isolated(g, base, x, s) && Reaches(s, t) && Reaches(t, u.(signing := t.signing)) && !u.signing
    ensures Isolated(g, base, x + y, t) && Isolated(g, base, x + y + z, u)
    ensures NotBelow(y + z, s.next)
    ensures forall i: nat :: i < NODE_COUNT ==>
              && u.nodes[i].up == s.nodes[i].up && (!s.nodes[i].up ==> u.nodes[i] == s.nodes[i])
              && |u.nodes[i].active| >= |t.nodes[i].active| >= |s.nodes[i].active|
  {
    y := IsolatedAfter(g, base, x, s, t);
    z := IsolatedAfter(g, base, x + y, t, u.(signing := t.signing));
    ReachesFrame(s, t);
    ReachesFrame(t, u.(signing := t.signing));
  }

  lemma JoinedAfter(base: Chain, a: Chain, b: Chain, e: Chain, s: Net, t: Net) returns (y: Chain)
    requires Joined(base, a, b, e, s) && Reaches(s, t)
    ensures Joined(base, a, b, e + y, t) && (!s.signing ==> y == [])
  {
    var steps :| Play(s, steps) == Some(t);
    y := PlayKeepsJoined(base, a, b, e, s, steps);
  }

  lemma MatchingIsBaseline(line: Chain, s: Net)
    requires Isolated(ALL_NODES, [], line, s) && !s.signing
    requires forall i: nat :: i < NODE_COUNT ==> s.nodes[i].active == s.nodes[0].active
    ensures AtBaseline(s.nodes[0].active, s)
  {
    assert [] + line == line && line + [] == line;
    forall i: nat | i < NODE_COUNT ensures OnLine(s.nodes[i], line, line) {
      assert i in ALL_NODES;
    }
    assert s.nodes[0].active == line;
    assert 0 in ALL_NODES;
  }

  lemma GroupAStops(base: Chain, s: Net, hosts: set<nat>)
    requires AtBaseline(base, s)
    ensures GroupAStopped(base, WithUp(s, GROUP_A, false).(signing := true, hosts := hosts))
  {
    var t := WithUp(s, GROUP_A, false);
    assert base + [] == base;
    assert CORE_3A in GROUP_B && OnLine(t.nodes[CORE_3A], base, base);
  }

  lemma SigningRestored(base: Chain, b: Chain, length: nat, s: Net, hosts: set<nat>)
    requires GroupARestored(base, b, length, s)
    ensures GroupARestored(base, b, length, s.(signing := true, hosts := hosts))
  {
  }

  lemma GroupsSwap(base: Chain, b: Chain, length: nat, s: Net)
    requires GroupBBuilt(base, b, length, s)
    ensures GroupARestored(base, b, length, WithUp(WithUp(s, GROUP_B, false), GROUP_A, true))
  {
    var t := WithUp(WithUp(s, GROUP_B, false), GROUP_A, true);
    assert base + [] == base;
    assert Below(base, s.next) by {
      forall k | 0 <= k < |base| ensures base[k] < s.next { assert base[k] == (base + b)[k]; }
    }
    assert 0 in GROUP_A && OnLine(t.nodes[0], base, base);
    forall i: nat | i < NODE_COUNT && i in GROUP_B
      ensures !t.nodes[i].up && OnLine(t.nodes[i], base, base + b)
    {
      assert OnLine(s.nodes[i], base, base + b);
    }
    var i: nat :| i < NODE_COUNT && i in GROUP_B && s.nodes[i].active == base + b;
    assert t.nodes[i].active == base + b;
  }

  lemma NewForkIsDifferent(base: Chain, a: Chain, b: Chain, bound: nat)
    requires Below(base + b, bound) && NotBelow(a, bound) && |a| > 0 && |b| > 0
    ensures a[0] != b[0]
  {
    assert b[0] == (base + b)[|base|];
  }

  // ---- all through the isolated phases ----

  // What can happen in such a phase: the environment moves, and the recipe handles the signers
  datatype Move = Happens(step: Step) | SignersStart(hosts: set<nat>) | SignersStop

  function Moved(s: Net, m: Move): Option<Net>
  {
    match m
    case Happens(step) => After(s, step)
    case SignersStart(hosts) => Some(s.(signing := true, hosts := hosts))
    case SignersStop => Some(s.(signing := false))
  }

  function PlayMoves(s: Net, moves: seq<Move>): Option<Net>
    decreases |moves|
  {
    if |moves| == 0 then Some(s)
    else if Moved(s, moves[0]).None? then None
    else PlayMoves(Moved(s, moves[0]).value, moves[1..])
  }

  // Group g alone is running, on the line base + x; the others are as in `frozen`
  ghost predicate InPhase(g: set<nat>, base: Chain, x: Chain, frozen: seq<Node>, s: Net)
    requires |frozen| == NODE_COUNT
  {
    Isolated(g, base, x, s) && forall i: nat :: i < NODE_COUNT && i !in g ==> s.nodes[i] == frozen[i]
  }

  lemma MoveKeepsPhase(g: set<nat>, base: Chain, x: Chain, frozen: seq<Node>, s: Net, m: Move) returns (y: Chain)
    requires |frozen| == NODE_COUNT && InPhase(g, base, x, frozen, s) && Moved(s, m).Some?
    ensures InPhase(g, base, x + y, frozen, Moved(s, m).value)
    ensures NotBelow(y, s.next) && Moved(s, m).value.next >= s.next
  {
    match m
    case Happens(step) =>
      y := Added(s, step);
      StepKeepsIsolated(g, base, x, s, step);
    case _ =>
      y := [];
      assert x + [] == x;
  }

  lemma {:induction false} MovesKeepPhase(g: set<nat>, base: Chain, x: Chain, frozen: seq<Node>, s: Net,
                                          moves: seq<Move>)
    returns (y: Chain)
    requires |frozen| == NODE_COUNT && InPhase(g, base, x, frozen, s) && PlayMoves(s, moves).Some?
    ensures InPhase(g, base, x + y, frozen, PlayMoves(s, moves).value) && NotBelow(y, s.next)
    decreases |moves|
  {
    if |moves| == 0 {
      assert x + [] == x;
      return [];
    }
    var first := MoveKeepsPhase(g, base, x, frozen, s, moves[0]);
    var rest := MovesKeepPhase(g, base, x + first, frozen, Moved(s, moves[0]).value, moves[1..]);
    y := first + rest;
    assert x + y == (x + first) + rest;
  }

  lemma {:induction false} CommonIsShort(c: Chain, d: Chain)
    ensures Common(c, d) <= |c| && Common(c, d) <= |d|
  {
    if |c| > 0 && |d| > 0 && c[0] == d[0] {
      CommonIsShort(c[1..], d[1..]);
    }
  }

  // Two lines that part at the base share no block above it, nor does a part of one of them
  lemma PartsStayApart(base: Chain, x: Chain, y: Chain, c: Chain)
    requires c <= base + x && (|x| > 0 && |y| > 0 ==> x[0] != y[0])
    ensures Common(c, base + y) <= |base|
  {
    CommonIsShort(c, base + y);
    if |c| > |base| && |y| > 0 {
      var own := c[|base|..];
      assert c == base + own && own[0] == (base + x)[|base|];
      CommonIsTheForkPoint(base, own, y);
    }
  }

  /** Group A knows only its own line, group B only its own, and of the other group's line
      nobody knows a block above the base. */
  ghost predicate Apart(base: Chain, a: Chain, b: Chain, s: Net)
  {
    forall i: nat, c :: i < |s.nodes| && c in s.nodes[i].heard ==>
      && (i in GROUP_A ==> c <= base + a && Common(c, base + b) <= |base|)
      && (i in GROUP_B ==> c <= base + b && Common(c, base + a) <= |base|)
  }

  lemma LinesAreApart(base: Chain, a: Chain, b: Chain, s: Net)
    requires |s.nodes| == NODE_COUNT && (|a| > 0 && |b| > 0 ==> a[0] != b[0])
    requires forall i: nat :: i < NODE_COUNT && i in GROUP_A ==> OnLine(s.nodes[i], base, base + a)
    requires forall i: nat :: i < NODE_COUNT && i in GROUP_B ==> OnLine(s.nodes[i], base, base + b)
    ensures Apart(base, a, b, s)
  {
    forall i: nat, c | i < NODE_COUNT && c in s.nodes[i].heard
      ensures i in GROUP_A ==> c <= base + a && Common(c, base + b) <= |base|
      ensures i in GROUP_B ==> c <= base + b && Common(c, base + a) <= |base|
    {
      if i in GROUP_A {
        PartsStayApart(base, a, b, c);
      }
      if i in GROUP_B {
        PartsStayApart(base, b, a, c);
      }
    }
  }

  function Swapped(s: Net): Net { WithUp(WithUp(s, GROUP_B, false), GROUP_A, true) }

  /** In every net that can be reached from the moment group A stops: the groups are apart
      while group B runs alone, and still when it has been replaced by group A. */
  lemma ForksStayApart(base: Chain, s: Net, first: seq<Move>, second: seq<Move>) returns (a: Chain, b: Chain)
    requires GroupAStopped(base, s) && PlayMoves(s, first).Some?
    requires PlayMoves(Swapped(PlayMoves(s, first).value), second).Some?
    ensures Apart(base, [], b, PlayMoves(s, first).value)
    ensures Apart(base, a, b, PlayMoves(Swapped(PlayMoves(s, first).value), second).value)
  {
    var y := MovesKeepPhase(GROUP_B, base, [], s.nodes, s, first);
    b := [] + y;
    var t := PlayMoves(s, first).value;
    assert base + [] == base;
    LinesAreApart(base, [], b, t);
    SwapKeepsLines(base, b, t);
    var v := Swapped(t);
    var z := MovesKeepPhase(GROUP_A, base, [], v.nodes, v, second);
    a := [] + z;
    if |a| > 0 && |b| > 0 {
      NewForkIsDifferent(base, a, b, v.next);
    }
    LinesAreApart(base, a, b, PlayMoves(v, second).value);
  }

  lemma SwapKeepsLines(base: Chain, b: Chain, t: Net)
    requires Isolated(GROUP_B, base, b, t) && OffLine(GROUP_A, base, base, t)
    ensures GroupARestored(base, b, 0, Swapped(t))
  {
    var u := t.(signing := false);
    GroupsSwap(base, b, 0, u);
    var v := Swapped(u);
    assert Swapped(t).nodes == v.nodes;
    assert Swapped(t) == v.(signing := t.signing);
  }

  lemma WholeForkIsActive(n: Node, base: Chain, x: Chain, length: nat)
    requires OnLine(n, base, base + x) && |n.active| >= |base| + length && |x| == length
    ensures n.active == base + x
  {
  }

  // Group B starts again, with no hypothesis on lengths
  lemma GroupsPart(base: Chain, a: Chain, b: Chain, length: nat, s: Net)
    requires GroupABuilt(base, a, b, length, s) && |a| > 0 && |b| > 0 && a[0] != b[0]
    ensures IsParted(base, a, b, WithUp(s, GROUP_B, true).nodes)
  {
    var t := WithUp(s, GROUP_B, true);
    var line := if |a| < |b| then base + b else base + a;
    var i: nat :| i < NODE_COUNT && i in GROUP_A && s.nodes[i].active == base + a;
    var j: nat :| j < NODE_COUNT && j in GROUP_B && s.nodes[j].active == base + b;
    forall k: nat | k < NODE_COUNT
      ensures t.nodes[k].up && t.nodes[k].active in t.nodes[k].heard
      ensures forall c :: c in t.nodes[k].heard ==> c <= base + a || c <= base + b
    {
      assert k in GROUP_A || k in GROUP_B;
    }
    assert t.nodes[i].active == base + a && t.nodes[j].active == base + b;
    assert Crossed(base + a, base + b, line, t.nodes);
  }

  lemma PartedAfter(base: Chain, a: Chain, b: Chain, s: Net, t: Net)
    requires IsParted(base, a, b, s.nodes) && Reaches(s, t)
    ensures IsParted(base, a, b, t.nodes)
  {
    var steps :| Play(s, steps) == Some(t);
    var line :| Crossed(base + a, base + b, line, s.nodes);
    var last := PlayKeepsCrossed(base + a, base + b, line, s, steps);
    ReachesFrame(s, t);
    var i: nat :| i < |s.nodes| && i in GROUP_A && base + a in s.nodes[i].heard;
    assert base + a in t.nodes[i].heard;
    var j: nat :| j < |s.nodes| && j in GROUP_B && base + b in s.nodes[j].heard;
    assert base + b in t.nodes[j].heard;
  }

  lemma PartedUntilStop(base: Chain, a: Chain, b: Chain, target: nat, s0: Net, s1: Net, s2: Net, quiet: bool)
    requires IsBuild(ALL_NODES, target, s0, s1, s2, quiet) && |s0.nodes| == NODE_COUNT
    ensures |s1.nodes[CORE_3A].active| >= target
    ensures IsParted(base, a, b, s0.nodes) ==> IsParted(base, a, b, s2.nodes)
  {
    assert CORE_3A in ALL_NODES;
    if IsParted(base, a, b, s0.nodes) {
      PartedAfter(base, a, b, s0, s1);
      PartedAfter(base, a, b, s1, s2.(signing := s1.signing));
    }
  }

  /** Whatever the timing of the run was, when every node's answer is as expected, node i being
      asked in the state asked[i], the reorg that was intended has happened. */
  lemma ChecksAreSound(base: Chain, a: Chain, b: Chain, length: nat, aTip: Chain, bTip: Chain,
                       start: Net, asked: seq<Net>)
    requires IsParted(base, a, b, start.nodes) && |start.nodes| == |asked| == NODE_COUNT
    requires forall i: nat :: i < NODE_COUNT ==>
               Reaches(start, asked[i]) && i < |asked[i].nodes| && NodeCheck(asked[i].nodes[i], i, aTip, bTip, length)
    requires aTip <= base + a && |bTip| > |base|
    ensures IsConfirmed(base, a, b, length, aTip, bTip, asked)
  {
    var i: nat :| i < NODE_COUNT && i in GROUP_A && base + a in start.nodes[i].heard;
    PartedAfter(base, a, b, start, asked[i]);
    ReachesFrame(start, asked[i]);
    GroupAForkIsWhole(base, a, b, length, aTip, bTip, asked[i].nodes, i);
    var j: nat :| j < NODE_COUNT && j in GROUP_B && base + b in start.nodes[j].heard;
    ReachesFrame(start, asked[j]);
    GroupBForkWon(base, a, b, length, bTip, asked[j].nodes[j], j);
    forall k: nat | k < NODE_COUNT
      ensures |asked[k].nodes| == NODE_COUNT && Shows(asked[k].nodes[k], k, aTip, bTip, length)
    {
      ReachesFrame(start, asked[k]);
      CheckedNodeShows(asked[k].nodes[k], k, aTip, bTip, length);
    }
  }

  lemma GroupBReconnects(base: Chain, a: Chain, b: Chain, length: nat, s: Net)
    requires GroupABuilt(base, a, b, length, s) && |a| == |b| == length > 0 && a[0] != b[0]
    ensures Joined(base, a, b, [], WithUp(s, GROUP_B, true))
    ensures forall i: nat :: i < NODE_COUNT && i in GROUP_A ==> s.nodes[i].active == base + a
  {
    var t := WithUp(s, GROUP_B, true);
    assert base + b + [] == base + b;
    forall i: nat | i < NODE_COUNT && i in GROUP_A
      ensures s.nodes[i].active == base + a && InGroupA(t.nodes[i], base + a, base + b, base + b)
    {
      assert i in ALL_NODES;
      WholeForkIsActive(s.nodes[i], base, a, length);
    }
    forall i: nat | i < NODE_COUNT && i in GROUP_B
      ensures t.nodes[i].active == base + b && InGroupB(t.nodes[i], base + a, base + b, base + b)
    {
      assert i in ALL_NODES;
      WholeForkIsActive(s.nodes[i], base, b, length);
    }
    assert CORE_3A in GROUP_B;
  }

  // ---- at the end of a quiet run ----

  // The two forks and the extension have their full lengths, and everything is propagated
  ghost predicate Finished(base: Chain, a: Chain, b: Chain, e: Chain, length: nat, s: Net)
  {
    && Joined(base, a, b, e, s) && Propagated(base, b, e, s)
    && |a| == length && |e| == EXTENSION
  }

  lemma GroupAPasses(base: Chain, a: Chain, b: Chain, e: Chain, length: nat, s: Net, i: nat)
    requires Finished(base, a, b, e, length, s) && i in GROUP_A
    ensures GroupACheck(s.nodes[i], base + a, base + b + e, length)
  {
    GroupATips(base, a, b, e, s, i);
    var n := s.nodes[i];
    assert TipsWith(n, Active) == {base + b + e};
    assert TipsWith(n, ValidFork) == {base + a};
  }

  lemma GroupBPasses(base: Chain, a: Chain, b: Chain, e: Chain, length: nat, s: Net, i: nat)
    requires Finished(base, a, b, e, length, s) && i in GROUP_B
    ensures BridgeCheck(s.nodes[i], base + a, base + b + e)
    ensures Core3aCheck(s.nodes[i], base + b + e) <==> base + a !in s.nodes[i].heard
  {
    GroupBTips(base, a, b, e, s, i);
    ForksAreApart(base, a, b, e);
    var n := s.nodes[i];
    assert TipsWith(n, Active) == {base + b + e};
  }

  lemma NodePasses(base: Chain, a: Chain, b: Chain, e: Chain, length: nat, s: Net, i: nat)
    requires Finished(base, a, b, e, length, s) && i < NODE_COUNT
    ensures i != CORE_3A ==> NodeCheck(s.nodes[i], i, base + a, base + b + e, length)
    ensures i == CORE_3A ==>
              (NodeCheck(s.nodes[i], i, base + a, base + b + e, length) <==> base + a !in s.nodes[i].heard)
  {
    assert i in GROUP_A || i in GROUP_B;
    if i in GROUP_A {
      GroupAPasses(base, a, b, e, length, s, i);
    } else {
      GroupBPasses(base, a, b, e, length, s, i);
    }
  }

  lemma FinishedAfter(base: Chain, a: Chain, b: Chain, e: Chain, length: nat, s: Net, t: Net)
    requires Finished(base, a, b, e, length, s) && !s.signing && Reaches(s, t)
    ensures Finished(base, a, b, e, length, t) && !t.signing
    ensures forall i: nat :: i < NODE_COUNT ==> s.nodes[i].heard <= t.nodes[i].heard
  {
    var none := JoinedAfter(base, a, b, e, s, t);
    assert e + none == e;
    ReachesFrame(s, t);
  }

  // The answers after a finished quiet run, each given in a state of its own
  lemma FinishedIsAnswered(base: Chain, a: Chain, b: Chain, e: Chain, length: nat,
                           start: Net, asked: seq<Net>, last: Net, failures: set<nat>)
    requires Finished(base, a, b, e, length, start) && !start.signing && |asked| == NODE_COUNT
    requires forall k: nat :: k < NODE_COUNT ==> Reaches(start, asked[k]) && Reaches(asked[k], last)
    requires forall k: nat :: k < NODE_COUNT ==>
               && k < |asked[k].nodes|
               && (k in failures <==> !NodeCheck(asked[k].nodes[k], k, base + a, base + b + e, length))
    requires forall k :: k in failures ==> k < NODE_COUNT
    ensures failures <= {CORE_3A} && |last.nodes| == NODE_COUNT
    ensures CORE_3A in failures ==> base + a in last.nodes[CORE_3A].heard
    ensures CORE_3A !in failures ==> base + a !in start.nodes[CORE_3A].heard
  {
    forall k: nat | k < NODE_COUNT
      ensures k in failures ==> k == CORE_3A && base + a in asked[k].nodes[k].heard
      ensures k == CORE_3A && k !in failures ==> base + a !in start.nodes[k].heard
    {
      FinishedAfter(base, a, b, e, length, start, asked[k]);
      NodePasses(base, a, b, e, length, asked[k], k);
    }
    FinishedAfter(base, a, b, e, length, start, asked[CORE_3A]);
    FinishedAfter(base, a, b, e, length, asked[CORE_3A], last);
  }

  /** What the recipe is for: all nodes are on group B's chain, which left the common baseline
      exactly there, and group A's nodes show their own fork, demoted, with its full length. */
  ghost predicate Reorged(base: Chain, a: Chain, b: Chain, e: Chain, length: nat, nodes: seq<Node>)
  {
    && |nodes| == NODE_COUNT && |a| == |b| == length && |e| == EXTENSION
    && Common(base + a, base + b + e) == |base|
    && (forall i: nat :: i < NODE_COUNT ==> nodes[i].active == base + b + e)
    && (forall i: nat :: i < NODE_COUNT && i in GROUP_A ==>
          && Tips(nodes[i]) == {base + b + e, base + a}
          && StatusOf(nodes[i], base + a) == ValidFork
          && BranchLength(nodes[i], base + a) == length)
    && (forall i: nat :: i < NODE_COUNT && i in GROUP_B ==>
          {base + b + e} <= Tips(nodes[i]) <= {base + b + e, base + a})
  }

  lemma FinishedIsReorged(base: Chain, a: Chain, b: Chain, e: Chain, length: nat, s: Net)
    requires Finished(base, a, b, e, length, s)
    ensures Reorged(base, a, b, e, length, s.nodes)
  {
    AllOnGroupB(base, a, b, e, s);
    ForksAreApart(base, a, b, e);
    forall i: nat | i < NODE_COUNT && i in GROUP_A
      ensures Tips(s.nodes[i]) == {base + b + e, base + a}
      ensures StatusOf(s.nodes[i], base + a) == ValidFork && BranchLength(s.nodes[i], base + a) == length
    {
      GroupATips(base, a, b, e, s, i);
    }
    forall i: nat | i < NODE_COUNT && i in GROUP_B
      ensures {base + b + e} <= Tips(s.nodes[i]) <= {base + b + e, base + a}
    {
      GroupBTips(base, a, b, e, s, i);
    }
  }

  /** The recipe, with the chains it recorded (the source keeps their hashes) and, as ghosts,
      the chains that were really built. */
  class ReorgSimulator {
    const bed: Testbed
    const length: nat
    var baselineHeight: nat
    var groupATip: Chain
    var groupBTip: Chain
    ghost var base: Chain
    ghost var a: Chain
    ghost var b: Chain
    ghost var e: Chain

    constructor (bed: Testbed, baselineHeight: nat, length: nat)
      ensures this.bed == bed && this.baselineHeight == baselineHeight && this.length == length
    {
      this.bed, this.baselineHeight, this.length := bed, baselineHeight, length;
      groupATip, groupBTip := [], [];
      base, a, b, e := [], [], [], [];
    }

    /** The recorded baseline is the one chain all seven nodes are on, at or above the height
        asked for, and nothing can be added to it any more. */
    method BuildBaseline(ghost line: Chain) returns (ok: bool)
      requires Isolated(ALL_NODES, [], line, bed.net)
      modifies this, bed
      ensures |bed.net.nodes| == NODE_COUNT
      ensures ok ==> AtBaseline(base, bed.net) && baselineHeight == |base| >= old(baselineHeight)
    {
      ghost var s0 := bed.net;
      ok := bed.WaitForHeight(ALL_NODES, baselineHeight, 0);
      if !ok {
        return;
      }
      ghost var s1 := bed.net;
      bed.StopSigners(0);
      ghost var s2 := bed.net;
      bed.Await(0);
      ghost var whole := BaselineLine(line, baselineHeight, s0, s1, s2, bed.net);
      var tip := bed.net.nodes[0].active;
      ok := forall i: nat :: i < |bed.net.nodes| ==> bed.net.nodes[i].active == tip;
      if ok {
        MatchingIsBaseline(whole, bed.net);
        baselineHeight, base := |tip|, tip;
      }
    }

    /** Group B builds its fork while group A is stopped. */
    method BuildGroupBFork() returns (ok: bool)
      requires AtBaseline(base, bed.net) && baselineHeight == |base|
      modifies this, bed
      ensures base == old(base) && baselineHeight == old(baselineHeight)
      ensures |bed.net.nodes| == NODE_COUNT
      ensures ok ==> GroupBBuilt(base, b, length, bed.net) && |b| >= length
      ensures ok ==> base <= groupBTip && groupBTip <= base + b && |groupBTip| >= |base| + length
      ensures ok && bed.quiet ==> |b| == length && groupBTip == base + b
    {
      ghost var s0 := bed.net;
      bed.SetNodes(GROUP_A, false);
      bed.StartSigners({CORE_3A});
      ghost var s1;
      ok, groupBTip, s1 := bed.Build(GROUP_B, baselineHeight + length, CORE_3A);
      if ok {
        b := GroupBFork(base, length, bed.quiet, s0, {CORE_3A}, s1, bed.net);
      }
    }

    method RestoreGroupA()
      requires GroupBBuilt(base, b, length, bed.net)
      modifies bed
      ensures GroupARestored(base, b, length, bed.net)
    {
      GroupsSwap(base, b, length, bed.net);
      bed.SetNodes(GROUP_B, false);
      bed.SetNodes(GROUP_A, true);
    }

    /** Then group A builds its own fork from the same baseline while group B is stopped. */
    method BuildGroupAFork() returns (ok: bool)
      requires GroupARestored(base, b, length, bed.net) && |b| >= length && baselineHeight == |base|
      modifies this, bed
      ensures base == old(base) && b == old(b) && groupBTip == old(groupBTip)
      ensures baselineHeight == old(baselineHeight)
      ensures |bed.net.nodes| == NODE_COUNT
      ensures ok ==> GroupABuilt(base, a, b, length, bed.net) && |a| >= length
      ensures ok && length > 0 ==> a[0] != b[0]
      ensures ok ==> base <= groupATip && groupATip <= base + a && |groupATip| >= |base| + length
      ensures ok && bed.quiet ==> |a| == length && groupATip == base + a
    {
      ghost var s0 := bed.net;
      bed.StartSigners({0, 2, CORE_3A});
      ghost var s1;
      ok, groupATip, s1 := bed.Build(GROUP_A, baselineHeight + length, 0);
      if ok {
        a := GroupAFork(base, b, length, bed.quiet, s0, {0, 2, CORE_3A}, s1, bed.net);
      }
    }

    /** Group B starts again next to group A: two forks of the same length, and no signer. */
    method ReconnectGroupB()
      requires GroupABuilt(base, a, b, length, bed.net)
      requires bed.quiet ==> |a| == |b| == length && groupATip == base + a
      requires length > 0 ==> |a| > 0 && |b| > 0 && a[0] != b[0]
      modifies bed
      ensures |bed.net.nodes| == NODE_COUNT
      ensures bed.quiet && length > 0 ==> Joined(base, a, b, [], bed.net) && !bed.net.signing
      ensures length > 0 ==> IsParted(base, a, b, bed.net.nodes)
    {
      if bed.quiet && length > 0 {
        GroupBReconnects(base, a, b, length, bed.net);
      }
      if length > 0 {
        GroupsPart(base, a, b, length, bed.net);
      }
      bed.SetNodes(GROUP_B, true);
      ghost var s := bed.net;
      bed.Await(baselineHeight + length);
      if length > 0 {
        PartedAfter(base, a, b, s, bed.net);
      }
      if bed.quiet && length > 0 {
        ghost var none := JoinedAfter(base, a, b, [], s, bed.net);
        assert [] + none == [];
        ReachesFrame(s, bed.net);
      }
    }

    /** The check that the tie alone moves nobody cannot fail. */
    method ConfirmTieHolds() returns (ok: bool)
      modifies bed
      ensures |bed.net.nodes| == |old(bed.net).nodes|
      ensures ok <==> forall i: nat :: i < |bed.net.nodes| && i in GROUP_A ==> bed.net.nodes[i].active == groupATip
      ensures bed.quiet && length > 0 && old(TieStands()) ==> ok && TieStands()
      ensures IsParted(base, a, b, old(bed.net).nodes) ==> IsParted(base, a, b, bed.net.nodes)
    {
      ghost var s := bed.net;
      bed.Await(baselineHeight + length);
      ok := forall i: nat :: i < |bed.net.nodes| && i in GROUP_A ==> bed.net.nodes[i].active == groupATip;
      if bed.quiet && length > 0 && old(TieStands()) {
        ghost var steps :| Play(s, steps) == Some(bed.net);
        TieHolds(base, a, b, s, steps);
        ReachesFrame(s, bed.net);
      }
      if IsParted(base, a, b, s.nodes) {
        PartedAfter(base, a, b, s, bed.net);
      }
    }

    ghost predicate TieStands()
      reads this, bed
    {
      && Joined(base, a, b, [], bed.net) && !bed.net.signing
      && baselineHeight == |base| && |a| == length && groupATip == base + a
    }

    /** Group B's chain gets two more blocks and every node follows it. */
    method ExtendGroupB() returns (ok: bool)
      requires |bed.net.nodes| == NODE_COUNT
      modifies this, bed
      ensures baselineHeight == old(baselineHeight) && groupATip == old(groupATip)
      ensures base == old(base) && a == old(a) && b == old(b)
      ensures |bed.net.nodes| == NODE_COUNT
      ensures ok && bed.quiet && old(TieStands()) ==> Done()
      ensures ok ==> |groupBTip| >= baselineHeight + length + EXTENSION
      ensures ok && IsParted(base, a, b, old(bed.net).nodes) ==> IsParted(base, a, b, bed.net.nodes)
    {
      ghost var s0 := bed.net;
      bed.StartSigners({CORE_3A});
      ghost var s1;
      ok, groupBTip, s1 := bed.Build(ALL_NODES, baselineHeight + length + EXTENSION, CORE_3A);
      if ok {
        e := Extended(base, a, b, length, baselineHeight + length + EXTENSION, bed.quiet, s0, {CORE_3A}, s1, bed.net);
      }
    }

    ghost predicate Done()
      reads this, bed
    {
      && Finished(base, a, b, e, length, bed.net) && !bed.net.signing
      && groupATip == base + a && groupBTip == base + b + e
    }

    /** Asks every node for its tips, node i in the state asked[i], and names those whose answer
        is not the expected one.  Only the check of core-3a can fail, and it fails only if that
        node has heard of group A's fork by the end, surely if it had heard of it before. */
    method ConfirmConvergence() returns (failures: set<nat>, ghost asked: seq<Net>)
      requires |bed.net.nodes| == NODE_COUNT
      modifies bed
      ensures |asked| == NODE_COUNT && forall i: nat :: i < NODE_COUNT ==> Answered(old(bed.net), asked[i], i, failures)
      ensures old(Done()) ==> Done() && failures <= {CORE_3A}
      ensures old(Done()) && CORE_3A in failures ==> base + a in bed.net.nodes[CORE_3A].heard
      ensures old(Done()) && CORE_3A !in failures ==> base + a !in old(bed.net).nodes[CORE_3A].heard
    {
      ghost var done := Done();
      ghost var start := bed.net;
      failures, asked := {}, [];
      ReachesBy(start, [], start);
      for i := 0 to NODE_COUNT
        invariant Reaches(start, bed.net) && |bed.net.nodes| == NODE_COUNT
        invariant |asked| == i && forall k: nat :: k < i ==> Answered(start, asked[k], k, failures)
        invariant forall k: nat :: k < i ==> Reaches(asked[k], bed.net)
        invariant forall k :: k in failures ==> k < i
      {
        ghost var s := bed.net;
        bed.Await(0);
        ReachesTransitive(start, s, bed.net);
        forall k: nat | k < i ensures Reaches(asked[k], bed.net) {
          ReachesTransitive(asked[k], s, bed.net);
        }
        ReachesBy(bed.net, [], bed.net);
        asked := asked + [bed.net];
        if !NodeCheck(bed.net.nodes[i], i, groupATip, groupBTip, length) {
          failures := failures + {i};
        }
      }
      if done {
        FinishedAfter(base, a, b, e, length, start, bed.net);
        FinishedIsAnswered(base, a, b, e, length, start, asked, bed.net, failures);
      }
    }

    // Node i was asked in the state t, after s, and failed if its answer was not as expected
    ghost predicate Answered(s: Net, t: Net, i: nat, failures: set<nat>)
      reads this
    {
      && Reaches(s, t) && i < |t.nodes|
      && (i in failures <==> !NodeCheck(t.nodes[i], i, groupATip, groupBTip, length))
    }

    // Two forks stand ready: they leave the recorded baseline at the same block and share none
    // after it, and in a quiet run both have exactly the configured length
    ghost predicate ForksBuilt()
      reads this, bed
    {
      && baselineHeight == |base| && GroupABuilt(base, a, b, length, bed.net)
      && groupATip <= base + a
      && (length > 0 ==> |a| > 0 && |b| > 0 && a[0] != b[0] && Common(base + a, base + b) == |base|)
      && (bed.quiet ==> |a| == |b| == length && groupATip == base + a && groupBTip == base + b)
    }

    /** The first half of the recipe, with no hypothesis on timing: two forks that leave the
        recorded baseline at the same block and share none after it. */
    method BuildForks(ghost line: Chain) returns (ok: bool)
      requires Isolated(ALL_NODES, [], line, bed.net)
      modifies this, bed
      ensures |bed.net.nodes| == NODE_COUNT
      ensures ok ==> ForksBuilt()
    {
      ok := BuildBaseline(line);
      if ok {
        ok := BuildGroupBFork();
      }
      if ok {
        RestoreGroupA();
        ok := BuildGroupAFork();
      }
      if ok && length > 0 {
        CommonIsTheForkPoint(base, a, b);
      }
    }

    method LetGroupBWin() returns (ok: bool)
      requires ForksBuilt()
      modifies this, bed
      ensures |bed.net.nodes| == NODE_COUNT
      ensures ok && bed.quiet && length > 0 ==> Done()
      ensures ok && length > 0 ==> MayConfirm()
    {
      ReconnectGroupB();
      ok := ConfirmTieHolds();
      if ok {
        ok := ExtendGroupB();
      }
    }

    // The forks stand side by side, and the recorded tips belong to them
    ghost predicate MayConfirm()
      reads this, bed
    {
      && IsParted(base, a, b, bed.net.nodes) && groupATip <= base + a
      && |groupBTip| >= |base| + length + EXTENSION
    }

    // The recorded tips are the whole forks, and the nodes show the reorg
    ghost predicate Succeeded()
      reads this, bed
    {
      && groupATip == base + a && groupBTip == base + b + e
      && Reorged(base, a, b, e, length, bed.net.nodes)
    }

    // The last check, and the signers back on their default hosts when it is passed
    method ConfirmAndRestore() returns (failures: set<nat>, ghost asked: seq<Net>)
      requires |bed.net.nodes| == NODE_COUNT
      modifies bed
      ensures old(Done()) ==> Succeeded() && failures <= {CORE_3A}
      ensures old(MayConfirm()) && failures == {} ==>
                IsConfirmed(base, a, b, length, groupATip, groupBTip, asked)
    {
      ghost var done, start := Done(), bed.net;
      failures, asked := ConfirmConvergence();
      if done {
        FinishedIsReorged(base, a, b, e, length, bed.net);
      }
      if failures == {} {
        if old(MayConfirm()) {
          ChecksAreSound(base, a, b, length, groupATip, groupBTip, start, asked);
        }
        bed.StartSigners({0, 2, CORE_3A});
      }
    }

    /** The whole recipe.  Whatever its timing, a run that passes all its checks has made the reorg
        it set out to make.  A quiet run that no wait times out of ends in that reorg, and no check
        but that of core-3a can fail. */
    method Run(ghost line: Chain) returns (ok: bool, failures: set<nat>, ghost asked: seq<Net>)
      requires Isolated(ALL_NODES, [], line, bed.net)
      modifies this, bed
      ensures ok && length > 0 && failures == {} ==>
                && IsConfirmed(base, a, b, length, groupATip, groupBTip, asked)
                && |groupBTip| >= |base| + length + EXTENSION
      ensures ok && bed.quiet && length > 0 ==> Succeeded() && failures <= {CORE_3A}
    {
      failures, asked := {}, [];
      ok := BuildForks(line);
      if ok {
        ok := LetGroupBWin();
      }
      if ok {
        failures, asked := ConfirmAndRestore();
      }
    }
  }

  lemma BaselineLine(line: Chain, floor: nat, s0: Net, s1: Net, s2: Net, s3: Net) returns (whole: Chain)
    requires Isolated(ALL_NODES, [], line, s0) && Reaches(s0, s1)
    requires Reaches(s1, s2.(signing := s1.signing)) && !s2.signing && Reaches(s2, s3)
    requires forall i: nat :: i < |s1.nodes| && i in ALL_NODES ==> |s1.nodes[i].active| >= floor
    ensures Isolated(ALL_NODES, [], whole, s3) && !s3.signing && |s3.nodes[0].active| >= floor
  {
    var y, z := IsolatedUntilStop(ALL_NODES, [], line, s0, s1, s2);
    var none := IsolatedAfter(ALL_NODES, [], line + y + z, s2, s3);
    ReachesFrame(s2, s3);
    whole := line + y + z + none;
    assert 0 in ALL_NODES;
  }

  lemma NothingBefore(y: Chain, z: Chain)
    ensures [] + y == y && [] + y + z == y + z
  {
  }

  lemma Lengthened(base: Chain, y: Chain, z: Chain)
    ensures base + y <= base + (y + z)
  {
    assert base + (y + z) == (base + y) + z;
  }

  lemma ForkLine(g: set<nat>, probe: nat, base: Chain, s0: Net, s1: Net, s2: Net) returns (x: Chain)
    requires Isolated(g, base, [], s0) && probe < NODE_COUNT && probe in g
    requires Reaches(s0, s1) && Reaches(s1, s2.(signing := s1.signing)) && !s2.signing
    ensures Isolated(g, base, x, s2) && NotBelow(x, s0.next)
    ensures |s1.nodes| == NODE_COUNT && base <= s1.nodes[probe].active && s1.nodes[probe].active <= base + x
    ensures forall i: nat :: i < NODE_COUNT && i !in g ==> s2.nodes[i] == s0.nodes[i]
    ensures forall i: nat :: i < NODE_COUNT ==> |s2.nodes[i].active| >= |s1.nodes[i].active|
  {
    var y, z := IsolatedUntilStop(g, base, [], s0, s1, s2);
    x := y + z;
    NothingBefore(y, z);
    Lengthened(base, y, z);
  }

  // What group g built between a wait that ended in s1 and the stop of the signers
  lemma ForkBuilt(g: set<nat>, probe: nat, base: Chain, length: nat, quiet: bool, s0: Net, s1: Net, s2: Net)
    returns (x: Chain)
    requires Isolated(g, base, [], s0) && probe < NODE_COUNT && probe in g
    requires IsBuild(g, |base| + length, s0, s1, s2, quiet)
    ensures Isolated(g, base, x, s2) && Built(g, base, length, s2)
    ensures NotBelow(x, s0.next) && |x| >= length
    ensures |s1.nodes| == NODE_COUNT && base <= s1.nodes[probe].active && s1.nodes[probe].active <= base + x
    ensures quiet ==> |x| == length && s1.nodes[probe].active == base + x
    ensures forall i: nat :: i < NODE_COUNT && i !in g ==> s2.nodes[i] == s0.nodes[i]
  {
    x := ForkLine(g, probe, base, s0, s1, s2);
    ForkLength(g, base, x, length, quiet, s0, s2);
  }

  lemma GroupBFork(base: Chain, length: nat, quiet: bool, s: Net, hosts: set<nat>, s1: Net, s2: Net)
    returns (b: Chain)
    requires AtBaseline(base, s)
    requires var s0 := WithUp(s, GROUP_A, false).(signing := true, hosts := hosts);
             IsBuild(GROUP_B, |base| + length, s0, s1, s2, quiet)
    ensures GroupBBuilt(base, b, length, s2) && |b| >= length
    ensures |s1.nodes| == NODE_COUNT && base <= s1.nodes[CORE_3A].active && s1.nodes[CORE_3A].active <= base + b
    ensures quiet ==> |b| == length && s1.nodes[CORE_3A].active == base + b
  {
    var s0 := WithUp(s, GROUP_A, false).(signing := true, hosts := hosts);
    GroupAStops(base, s, hosts);
    b := ForkBuilt(GROUP_B, CORE_3A, base, length, quiet, s0, s1, s2);
  }

  lemma GroupAFork(base: Chain, b: Chain, length: nat, quiet: bool, s: Net, hosts: set<nat>, s1: Net, s2: Net)
    returns (a: Chain)
    requires GroupARestored(base, b, length, s) && |b| >= length
    requires IsBuild(GROUP_A, |base| + length, s.(signing := true, hosts := hosts), s1, s2, quiet)
    ensures GroupABuilt(base, a, b, length, s2) && |a| >= length
    ensures length > 0 ==> a[0] != b[0]
    ensures |s1.nodes| == NODE_COUNT && base <= s1.nodes[0].active && s1.nodes[0].active <= base + a
    ensures quiet ==> |a| == length && s1.nodes[0].active == base + a
  {
    var s0 := s.(signing := true, hosts := hosts);
    SigningRestored(base, b, length, s, hosts);
    a := ForkBuilt(GROUP_A, 0, base, length, quiet, s0, s1, s2);
    if length > 0 {
      NewForkIsDifferent(base, a, b, s0.next);
    }
  }

  // The length of the fork a group has just built
  lemma ForkLength(g: set<nat>, base: Chain, x: Chain, length: nat, quiet: bool, s: Net, t: Net)
    requires Isolated(g, base, [], s) && Isolated(g, base, x, t) && Built(g, base, length, t)
    requires quiet && Within(s, |base| + length) ==> Within(t, |base| + length)
    ensures |x| >= length && (quiet ==> |x| == length)
  {
    assert base + [] == base;
    var i: nat :| i < NODE_COUNT && i in g && t.nodes[i].active == base + x;
    assert Within(s, |base| + length);
  }

  // From the start of the extension to the stop of the signers
  lemma JoinedUntilStop(base: Chain, a: Chain, b: Chain, s: Net, t: Net, u: Net) returns (y: Chain, z: Chain)
    requires Joined(base, a, b, [], s) && Reaches(s, t) && Reaches(t, u.(signing := t.signing)) && !u.signing
    ensures Joined(base, a, b, y, t) && Joined(base, a, b, y + z, u)
    ensures |u.nodes| == |t.nodes|
    ensures forall i: nat :: i < |t.nodes| ==> |u.nodes[i].active| >= |t.nodes[i].active|
  {
    y := JoinedAfter(base, a, b, [], s, t);
    assert [] + y == y;
    z := JoinedAfter(base, a, b, y, t, u.(signing := t.signing));
    ReachesFrame(t, u.(signing := t.signing));
  }

  lemma JoinedIsWithin(base: Chain, a: Chain, b: Chain, s: Net)
    requires Joined(base, a, b, [], s)
    ensures Within(s, |base| + |a| + EXTENSION)
  {
    forall i: nat | i < NODE_COUNT ensures |s.nodes[i].active| <= |base| + |a| {
      assert i in GROUP_A || i in GROUP_B;
    }
  }

  lemma ExtensionLength(base: Chain, a: Chain, b: Chain, e: Chain, t: Net)
    requires Joined(base, a, b, e, t) && Within(t, |base| + |a| + EXTENSION)
    requires exists i: nat :: i < NODE_COUNT && |t.nodes[i].active| >= |base| + |a| + EXTENSION
    ensures |e| == EXTENSION
  {
    var i: nat :| i < NODE_COUNT && t.nodes[i].active == base + b + e;
    assert t.nodes[i].up;
    var j: nat :| j < NODE_COUNT && |t.nodes[j].active| >= |base| + |a| + EXTENSION;
    assert j in GROUP_A || j in GROUP_B;
  }

  lemma Extension(base: Chain, a: Chain, b: Chain, length: nat, s0: Net, s1: Net, s2: Net) returns (e: Chain)
    requires Joined(base, a, b, [], s0) && |a| == length
    requires IsBuild(ALL_NODES, |base| + length + EXTENSION, s0, s1, s2, true)
    ensures Finished(base, a, b, e, length, s2)
    ensures |s1.nodes| == NODE_COUNT && s1.nodes[CORE_3A].active == base + b + e
  {
    JoinedIsWithin(base, a, b, s0);
    var y, z := JoinedUntilStop(base, a, b, s0, s1, s2);
    forall i: nat | i < NODE_COUNT ensures |s2.nodes[i].active| >= |s1.nodes[i].active| >= |base| + length + EXTENSION {
      assert i in ALL_NODES;
    }
    e := y + z;
    assert |s2.nodes[0].active| >= |base| + |a| + EXTENSION;
    ExtensionLength(base, a, b, e, s2);
    ProbeIsOnTop(base, a, b, y, s1);
    assert |y| <= |e| && z == [] && e == y;
  }

  // From the moment the signers are started on group B to the moment they stop
  lemma Extended(base: Chain, a: Chain, b: Chain, length: nat, target: nat, quiet: bool,
                 s: Net, hosts: set<nat>, s1: Net, s2: Net)
    returns (e: Chain)
    requires |s.nodes| == NODE_COUNT && hosts <= GROUP_B
    requires IsBuild(ALL_NODES, target, s.(signing := true, hosts := hosts), s1, s2, quiet)
    ensures |s1.nodes| == NODE_COUNT && |s1.nodes[CORE_3A].active| >= target
    ensures IsParted(base, a, b, s.nodes) ==> IsParted(base, a, b, s2.nodes)
    ensures quiet && Joined(base, a, b, [], s) && |a| == length && target == |base| + length + EXTENSION ==>
              Finished(base, a, b, e, length, s2) && s1.nodes[CORE_3A].active == base + b + e
  {
    var s0 := s.(signing := true, hosts := hosts);
    PartedUntilStop(base, a, b, target, s0, s1, s2, quiet);
    e := [];
    if quiet && Joined(base, a, b, [], s) && |a| == length && target == |base| + length + EXTENSION {
      e := Extension(base, a, b, length, s0, s1, s2);
    }
  }

  // Group B's node is on its own group's chain, so once it is as high as that can be it has all of it
  lemma ProbeIsOnTop(base: Chain, a: Chain, b: Chain, y: Chain, t: Net)
    requires Joined(base, a, b, y, t) && |t.nodes[CORE_3A].active| >= |base| + |a| + EXTENSION
    ensures |y| >= EXTENSION && (|y| == EXTENSION ==> t.nodes[CORE_3A].active == base + b + y)
  {
    assert CORE_3A in GROUP_B;
  }
}
