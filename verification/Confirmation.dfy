/**
 What the recipe's own last check proves, with no hypothesis on timing: the lines of blocks that
 can exist once both groups run side by side, and what a node's answer says about them.
 */
module Confirmation {
  import opened Options
  import opened BlockTree

  // ---- what the recipe checks at the end ----

  function TipsWith(n: Node, status: Status): set<Chain>
  {
    set c | c in Tips(n) && StatusOf(n, c) == status :: c
  }

  predicate GroupACheck(n: Node, aTip: Chain, bTip: Chain, length: nat)
  {
    && |Tips(n)| == 2 && |TipsWith(n, Active)| == 1 && |TipsWith(n, ValidFork)| == 1
    && bTip in TipsWith(n, Active) && aTip in TipsWith(n, ValidFork)
    && BranchLength(n, aTip) == length
  }

  predicate Core3aCheck(n: Node, bTip: Chain)
  {
    |Tips(n)| == 1 && bTip in TipsWith(n, Active)
  }

  predicate BridgeCheck(n: Node, aTip: Chain, bTip: Chain)
  {
    && |TipsWith(n, Active)| == 1 && bTip in TipsWith(n, Active)
    && forall c :: c in Tips(n) && StatusOf(n, c) != Active ==> c == aTip
  }

  predicate NodeCheck(n: Node, i: nat, aTip: Chain, bTip: Chain, length: nat)
  {
    if i in GROUP_A then GroupACheck(n, aTip, bTip, length)
    else if i == CORE_3A then Core3aCheck(n, bTip)
    else BridgeCheck(n, aTip, bTip)
  }

  // ---- two lines, and one that grows on top of either ----

  /** All nodes run, and whatever anyone has heard is part of one of the two forks or of `line`:
      the longer fork, with all that was ever built on top of it. */
  ghost predicate Crossed(x: Chain, y: Chain, line: Chain, nodes: seq<Node>)
  {
    && |nodes| == NODE_COUNT
    && (forall i: nat :: i < NODE_COUNT ==> nodes[i].up && nodes[i].active in nodes[i].heard)
    && (forall i: nat, c :: i < NODE_COUNT && c in nodes[i].heard ==> c <= x || c <= y || c <= line)
    && (x <= line || y <= line) && |x| <= |line| && |y| <= |line|
    && (line == x || line == y || (|x| < |line| && |y| < |line|))
    && (exists i: nat :: i < NODE_COUNT && |nodes[i].active| >= |line|)
  }

  // Somebody in g has heard of all of this chain
  ghost predicate KnownIn(g: set<nat>, c: Chain, nodes: seq<Node>)
  {
    exists i: nat :: i < |nodes| && i in g && c in nodes[i].heard
  }

  lemma RelayKeepsCrossed(x: Chain, y: Chain, line: Chain, s: Net, m: nat, n: nat)
    requires Crossed(x, y, line, s.nodes) && After(s, Relay(m, n)).Some?
    ensures Crossed(x, y, line, After(s, Relay(m, n)).value.nodes)
  {
    var t := After(s, Relay(m, n)).value;
    assert s.nodes[m].active in s.nodes[m].heard;
    var i: nat :| i < NODE_COUNT && |s.nodes[i].active| >= |line|;
    assert |t.nodes[i].active| >= |line|;
  }

  // The highest tip is the whole of some line
  lemma HighestIsALine(x: Chain, y: Chain, line: Chain, s: Net, h: nat)
    requires Crossed(x, y, line, s.nodes) && IsHighest(s, h)
    ensures var top := s.nodes[h].active;
            |top| == |line| && (top == line || (top == x && (line == x || line == y)) || (top == y && (line == x || line == y)))
  {
    var i: nat :| i < NODE_COUNT && |s.nodes[i].active| >= |line|;
    assert IsUp(s, i);
    assert s.nodes[h].active in s.nodes[h].heard;
  }

  lemma MineKeepsCrossed(x: Chain, y: Chain, line: Chain, s: Net, h: nat)
    requires Crossed(x, y, line, s.nodes) && After(s, Mine(h)).Some?
    ensures Crossed(x, y, s.nodes[h].active + [s.next], After(s, Mine(h)).value.nodes)
  {
    var t := After(s, Mine(h)).value;
    var top, longer := s.nodes[h].active, s.nodes[h].active + [s.next];
    HighestIsALine(x, y, line, s, h);
    assert top <= longer;
    assert |t.nodes[h].active| >= |longer|;
  }

  lemma {:induction false} PlayKeepsCrossed(x: Chain, y: Chain, line: Chain, s: Net, steps: seq<Step>)
    returns (last: Chain)
    requires Crossed(x, y, line, s.nodes) && Play(s, steps).Some?
    ensures Crossed(x, y, last, Play(s, steps).value.nodes)
    decreases |steps|
  {
    if |steps| == 0 {
      return line;
    }
    var next := line;
    match steps[0] {
      case Relay(m, n) =>
        RelayKeepsCrossed(x, y, line, s, m, n);
      case Mine(h) =>
        MineKeepsCrossed(x, y, line, s, h);
        next := s.nodes[h].active + [s.next];
    }
    last := PlayKeepsCrossed(x, y, next, After(s, steps[0]).value, steps[1..]);
  }

  // ---- the checks are sound ----

  // Every chain a node has heard is part of one of its tips
  lemma {:induction false} HeardIsInATip(n: Node, c: Chain) returns (tip: Chain)
    requires c in n.heard
    ensures tip in Tips(n) && c <= tip
    decreases |set d | d in n.heard && c < d|
  {
    if d :| d in n.heard && c < d {
      var above, below := set e | e in n.heard && d < e, set e | e in n.heard && c < e;
      forall e | e in above ensures e in below {
        SameLine(c, d, e);
        assert c <= e;
      }
      assert d in below && d !in above;
      SmallerSet(above, below);
      tip := HeardIsInATip(n, d);
    } else {
      tip := c;
    }
  }

  lemma SmallerSet<T>(a: set<T>, b: set<T>)
    requires a < b
    ensures |a| < |b|
  {
    assert b == a + (b - a);
    assert b - a != {};
  }

  lemma OnlyOne<T>(s: set<T>, x: T)
    requires |s| == 1 && x in s
    ensures s == {x}
  {
    assert |s - {x}| == 0;
  }

  lemma OnlyTwo<T>(s: set<T>, x: T, y: T)
    requires |s| == 2 && x in s && y in s && x != y
    ensures s == {x, y}
  {
    assert |s - {x, y}| == 0;
  }

  lemma GroupAShows(n: Node, aTip: Chain, bTip: Chain, length: nat)
    requires GroupACheck(n, aTip, bTip, length)
    ensures Tips(n) == {bTip, aTip} && n.active == bTip && aTip != bTip
    ensures StatusOf(n, aTip) == ValidFork && |aTip| - Common(aTip, bTip) == length
    ensures !(aTip <= bTip) && !(bTip <= aTip)
  {
    OnlyTwo(Tips(n), bTip, aTip);
  }

  lemma GroupBShows(n: Node, i: nat, aTip: Chain, bTip: Chain, length: nat)
    requires NodeCheck(n, i, aTip, bTip, length) && i in GROUP_B
    ensures {bTip} <= Tips(n) <= {bTip, aTip} && n.active == bTip
    ensures i == CORE_3A ==> Tips(n) == {bTip}
  {
    if i == CORE_3A {
      OnlyOne(Tips(n), bTip);
    }
  }

  // A tip that is beside group A's fork is on group B's, or on what was built on top of that
  lemma BesideGroupA(base: Chain, a: Chain, b: Chain, line: Chain, nodes: seq<Node>, i: nat, bTip: Chain)
    requires Crossed(base + a, base + b, line, nodes) && i < NODE_COUNT && bTip in nodes[i].heard
    requires |b| > 0 && |bTip| > |base| && !(base + a <= bTip) && !(bTip <= base + a)
    ensures base <= bTip && bTip[|base|] == b[0]
  {
    assert (base + b)[|base|] == b[0] && base <= base + b;
    if bTip <= base + b {
      SameLine(base, bTip, base + b);
    } else {
      assert bTip <= line;
      if base + a <= line {
        if |base + a| <= |bTip| {
          SameLine(base + a, bTip, line);
        } else {
          SameLine(bTip, base + a, line);
        }
      }
      assert base + b <= line && base <= line;
      SameLine(base, bTip, line);
    }
  }

  lemma ForkPoint(base: Chain, a: Chain, b: Chain, bTip: Chain)
    requires |a| > 0 && |b| > 0 && a[0] != b[0] && |bTip| > |base| && base <= bTip && bTip[|base|] == b[0]
    ensures Common(base + a, bTip) == |base|
  {
    var rest := bTip[|base|..];
    assert bTip == base + rest && rest[0] == b[0];
    CommonIsTheForkPoint(base, a, rest);
  }

  /** What the nodes showed when they were asked, each in a state of its own: all of them are on
      one and the same chain, which contains all of group B's fork; group A's fork left it exactly
      at the baseline and has the configured length; group A's nodes show that fork, demoted, and
      nothing else, core-3a shows no other tip, and the bridges none but that fork. */
  ghost predicate IsConfirmed(base: Chain, a: Chain, b: Chain, length: nat, aTip: Chain, bTip: Chain, asked: seq<Net>)
  {
    && |asked| == NODE_COUNT
    && aTip == base + a && |a| == length && base + b <= bTip && Common(aTip, bTip) == |base|
    && forall i: nat :: i < NODE_COUNT ==> |asked[i].nodes| == NODE_COUNT && Shows(asked[i].nodes[i], i, aTip, bTip, length)
  }

  ghost predicate Shows(n: Node, i: nat, aTip: Chain, bTip: Chain, length: nat)
  {
    && n.active == bTip
    && (i in GROUP_A ==>
          Tips(n) == {bTip, aTip} && StatusOf(n, aTip) == ValidFork && BranchLength(n, aTip) == length)
    && (i in GROUP_B ==> {bTip} <= Tips(n) <= {bTip, aTip} && (i == CORE_3A ==> Tips(n) == {bTip}))
  }

  ghost predicate HaveLine(x: Chain, y: Chain, nodes: seq<Node>)
  {
    exists line :: Crossed(x, y, line, nodes)
  }

  // What is known of the state in which the last check begins
  ghost predicate IsParted(base: Chain, a: Chain, b: Chain, nodes: seq<Node>)
  {
    && |a| > 0 && |b| > 0 && a[0] != b[0]
    && HaveLine(base + a, base + b, nodes)
    && KnownIn(GROUP_A, base + a, nodes) && KnownIn(GROUP_B, base + b, nodes)
  }

  // The recorded tip of group A is all of its fork, and that fork leaves the other at the base
  lemma GroupAForkIsWhole(base: Chain, a: Chain, b: Chain, length: nat, aTip: Chain, bTip: Chain, nodes: seq<Node>, i: nat)
    requires |a| > 0 && |b| > 0 && a[0] != b[0] && HaveLine(base + a, base + b, nodes)
    requires |nodes| == NODE_COUNT && i < NODE_COUNT && i in GROUP_A
    requires base + a in nodes[i].heard && aTip <= base + a && |bTip| > |base|
    requires GroupACheck(nodes[i], aTip, bTip, length)
    ensures aTip == base + a && |a| == length && Common(aTip, bTip) == |base|
    ensures base <= bTip && bTip[|base|] == b[0]
  {
    GroupAShows(nodes[i], aTip, bTip, length);
    assert aTip in Tips(nodes[i]);
    assert aTip == base + a;
    var line :| Crossed(base + a, base + b, line, nodes);
    assert bTip in Tips(nodes[i]);
    BesideGroupA(base, a, b, line, nodes, i, bTip);
    ForkPoint(base, a, b, bTip);
  }

  // All of group B's fork is in the chain that won
  lemma GroupBForkWon(base: Chain, a: Chain, b: Chain, length: nat, bTip: Chain, n: Node, i: nat)
    requires |a| > 0 && |b| > 0 && a[0] != b[0]
    requires NodeCheck(n, i, base + a, bTip, length) && i in GROUP_B && base + b in n.heard
    ensures base + b <= bTip
  {
    GroupBShows(n, i, base + a, bTip, length);
    var tip := HeardIsInATip(n, base + b);
    assert (base + b)[|base|] == b[0] && (base + a)[|base|] == a[0];
    assert tip != base + a;
  }

  lemma CheckedNodeShows(n: Node, i: nat, aTip: Chain, bTip: Chain, length: nat)
    requires NodeCheck(n, i, aTip, bTip, length) && i < NODE_COUNT
    ensures Shows(n, i, aTip, bTip, length)
  {
    if i in GROUP_A {
      GroupAShows(n, aTip, bTip, length);
    } else {
      assert i in GROUP_B;
      GroupBShows(n, i, aTip, bTip, length);
    }
  }
}
