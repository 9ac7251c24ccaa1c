/**
 The seven nodes while two forks are built: block tree, active tips, signers.
 A block is named by the chain that ends in it, so "is an ancestor of" is "is a prefix of".

 Hypotheses about the environment, all of them in After:
 - only the signers make blocks, on top of the active tip of one of their RPC hosts, and that
   tip is as high as any active tip of a running node;
 - a node tells others about its active chain, and any running node may reach any other;
 - a node switches only to a strictly longer chain.
 */
module BlockTree {
  import opened Options

  type Chain = seq<nat>

  const NODE_COUNT := 7
  const GROUP_A: set<nat> := {0, 1, 2, 3}
  const GROUP_B: set<nat> := {4, 5, 6}
  const CORE_3A := 4

  /** `heard` holds every chain the node was told about and `connected` those that were its
      active chain at some time. */
  datatype Node = Node(up: bool, active: Chain, heard: set<Chain>, connected: set<Chain>)

  datatype Net = Net(nodes: seq<Node>, signing: bool, hosts: set<nat>, next: nat)

  datatype Step = Mine(host: nat) | Relay(source: nat, sink: nat)

  function Receive(n: Node, c: Chain): Node
  {
    if |c| > |n.active|
    then n.(active := c, heard := n.heard + {c}, connected := n.connected + {c})
    else n.(heard := n.heard + {c})
  }

  predicate IsUp(s: Net, i: nat) { i < |s.nodes| && s.nodes[i].up }

  predicate IsHighest(s: Net, h: nat)
  {
    IsUp(s, h) && forall i: nat :: i < |s.nodes| && IsUp(s, i) ==> |s.nodes[i].active| <= |s.nodes[h].active|
  }

  // What an environment step leads to, if it can happen
  function After(s: Net, step: Step): Option<Net>
  {
    match step
    case Mine(h) =>
      if s.signing && h in s.hosts && IsHighest(s, h)
      then Some(s.(nodes := s.nodes[h := Receive(s.nodes[h], s.nodes[h].active + [s.next])], next := s.next + 1))
      else None
    case Relay(m, n) =>
      if IsUp(s, m) && IsUp(s, n)
      then Some(s.(nodes := s.nodes[n := Receive(s.nodes[n], s.nodes[m].active)]))
      else None
  }

  function Play(s: Net, steps: seq<Step>): Option<Net>
    decreases |steps|
  {
    if |steps| == 0 then Some(s)
    else if After(s, steps[0]).None? then None
    else Play(After(s, steps[0]).value, steps[1..])
  }

  lemma {:induction false} PlayFrame(s: Net, steps: seq<Step>)
    requires Play(s, steps).Some?
    ensures
      var t := Play(s, steps).value;
      && |t.nodes| == |s.nodes| && t.signing == s.signing && t.hosts == s.hosts && t.next >= s.next
      && forall i: nat :: i < |s.nodes| ==>
           && t.nodes[i].up == s.nodes[i].up && (!s.nodes[i].up ==> t.nodes[i] == s.nodes[i])
           && |t.nodes[i].active| >= |s.nodes[i].active| && s.nodes[i].heard <= t.nodes[i].heard
    decreases |steps|
  {
    if |steps| > 0 {
      PlayFrame(After(s, steps[0]).value, steps[1..]);
    }
  }

  lemma {:induction false} PlayConcat(s: Net, a: seq<Step>, b: seq<Step>)
    requires Play(s, a).Some?
    ensures Play(s, a + b) == Play(Play(s, a).value, b)
    decreases |a|
  {
    if |a| == 0 {
      assert a + b == b;
    } else {
      assert (a + b)[1..] == a[1..] + b;
      PlayConcat(After(s, a[0]).value, a[1..], b);
    }
  }

  // The block a step adds, if it adds one
  function Added(s: Net, step: Step): Chain { if step.Mine? then [s.next] else [] }

  /** An invariant of the net and of the line that its new blocks make, if every step keeps it,
      holds after any steps; every block they add is new, and without signers they add none. */
  lemma {:induction false} PlayKeeps(inv: (Net, Chain) -> bool, s: Net, x: Chain, steps: seq<Step>)
    returns (y: Chain)
    requires inv(s, x) && Play(s, steps).Some?
    requires forall t, z, step :: inv(t, z) && After(t, step).Some? ==>
               inv(After(t, step).value, z + Added(t, step))
    ensures inv(Play(s, steps).value, x + y)
    ensures NotBelow(y, s.next) && (!s.signing ==> y == [])
    decreases |steps|
  {
    if |steps| == 0 {
      assert x + [] == x;
      return [];
    }
    var first := Added(s, steps[0]);
    var rest := PlayKeeps(inv, After(s, steps[0]).value, x + first, steps[1..]);
    y := first + rest;
    assert x + y == (x + first) + rest;
  }

  // ---- lines of blocks ----

  lemma SameLine(a: Chain, b: Chain, line: Chain)
    requires a <= line && b <= line && |a| <= |b|
    ensures a <= b
  {
    forall i | 0 <= i < |a| ensures a[i] == b[i] {
      assert a[i] == line[i] == b[i];
    }
  }

  ghost predicate Below(c: Chain, bound: nat) { forall k :: 0 <= k < |c| ==> c[k] < bound }

  ghost predicate NotBelow(c: Chain, bound: nat) { forall k :: 0 <= k < |c| ==> c[k] >= bound }

  // n is somewhere between base and the end of the line, and knows nothing beside its own chain
  ghost predicate OnLine(n: Node, base: Chain, line: Chain)
  {
    && base <= n.active <= line
    && n.active in n.heard && n.active in n.connected
    && (forall c :: c in n.heard ==> c <= n.active)
    && (forall c :: c in n.connected ==> c <= n.active)
  }

  lemma OnLineReceives(n: Node, base: Chain, line: Chain, c: Chain)
    requires OnLine(n, base, line) && c <= line
    ensures OnLine(Receive(n, c), base, line)
    ensures |c| >= |n.active| ==> Receive(n, c).active == c
  {
    if |c| <= |n.active| {
      SameLine(c, n.active, line);
    } else {
      SameLine(n.active, c, line);
    }
  }

  lemma OnLongerLine(n: Node, base: Chain, line: Chain, longer: Chain)
    requires OnLine(n, base, line) && line <= longer
    ensures OnLine(n, base, longer)
  {
  }

  // ---- one group alone ----

  /** Exactly the nodes of g run, all of them on one line that grows from the base, and one of
      them has all of it. */
  ghost predicate Isolated(g: set<nat>, base: Chain, x: Chain, s: Net)
  {
    && |s.nodes| == NODE_COUNT
    && (forall i: nat :: i < NODE_COUNT ==> (s.nodes[i].up <==> i in g))
    && (forall i: nat :: i < NODE_COUNT && i in g ==> OnLine(s.nodes[i], base, base + x))
    && (exists i: nat :: i < NODE_COUNT && i in g && s.nodes[i].active == base + x)
    && Below(base + x, s.next)
  }

  lemma HighestIsWhole(g: set<nat>, base: Chain, x: Chain, s: Net, h: nat)
    requires Isolated(g, base, x, s) && IsHighest(s, h)
    ensures s.nodes[h].active == base + x
  {
    var i: nat :| i < NODE_COUNT && i in g && s.nodes[i].active == base + x;
    assert IsUp(s, i);
    assert OnLine(s.nodes[h], base, base + x);
  }

  lemma RelayKeepsIsolated(g: set<nat>, base: Chain, x: Chain, s: Net, m: nat, n: nat)
    requires Isolated(g, base, x, s) && After(s, Relay(m, n)).Some?
    ensures Isolated(g, base, x, After(s, Relay(m, n)).value)
  {
    var t := After(s, Relay(m, n)).value;
    OnLineReceives(s.nodes[n], base, base + x, s.nodes[m].active);
    var i: nat :| i < NODE_COUNT && i in g && s.nodes[i].active == base + x;
    assert t.nodes[i].active == base + x;
  }

  lemma MineKeepsIsolated(g: set<nat>, base: Chain, x: Chain, s: Net, h: nat)
    requires Isolated(g, base, x, s) && After(s, Mine(h)).Some?
    ensures Isolated(g, base, x + [s.next], After(s, Mine(h)).value)
  {
    var t := After(s, Mine(h)).value;
    HighestIsWhole(g, base, x, s, h);
    var line := base + (x + [s.next]);
    assert line == (base + x) + [s.next];
    assert base + x <= line;
    forall i: nat | i < NODE_COUNT && i in g ensures OnLine(s.nodes[i], base, line) {
      OnLongerLine(s.nodes[i], base, base + x, line);
    }
    OnLineReceives(s.nodes[h], base, line, line);
    assert t.nodes[h].active == line;
  }

  lemma StepKeepsIsolated(g: set<nat>, base: Chain, x: Chain, s: Net, step: Step)
    requires Isolated(g, base, x, s) && After(s, step).Some?
    ensures Isolated(g, base, x + Added(s, step), After(s, step).value)
  {
    match step
    case Relay(m, n) =>
      assert x + [] == x;
      RelayKeepsIsolated(g, base, x, s, m, n);
    case Mine(h) =>
      MineKeepsIsolated(g, base, x, s, h);
  }

  /** Whatever the environment does, the group stays on one line; every block it adds is new,
      and without signers it adds none. */
  lemma PlayKeepsIsolated(g: set<nat>, base: Chain, x: Chain, s: Net, steps: seq<Step>)
    returns (y: Chain)
    requires Isolated(g, base, x, s) && Play(s, steps).Some?
    ensures Isolated(g, base, x + y, Play(s, steps).value)
    ensures NotBelow(y, s.next) && (!s.signing ==> y == [])
  {
    var inv := (t, z) => Isolated(g, base, z, t);
    forall t, z, step | inv(t, z) && After(t, step).Some?
      ensures inv(After(t, step).value, z + Added(t, step))
    {
      StepKeepsIsolated(g, base, z, t, step);
    }
    y := PlayKeeps(inv, s, x, steps);
  }

  // ---- two forks of the same length ----

  // A node of group A: still on its own fork, or moved to a longer chain of group B
  ghost predicate InGroupA(n: Node, own: Chain, other: Chain, line: Chain)
  {
    && (n.active == own || (other < n.active && n.active <= line))
    && own in n.heard && own in n.connected && n.active in n.heard
    && (forall c :: c in n.heard ==> c <= own || c <= line)
  }

  // A node of group B: on its own line; of group A's fork it knows all or nothing
  ghost predicate InGroupB(n: Node, own: Chain, other: Chain, line: Chain)
  {
    && other <= n.active && n.active <= line
    && n.active in n.heard
    && (forall c :: c in n.heard ==> c == own || c <= n.active)
    && (forall c :: c in n.connected ==> c <= n.active)
  }

  /** All nodes run; group A built base + a, group B built base + b and then e on top of it. */
  ghost predicate Joined(base: Chain, a: Chain, b: Chain, e: Chain, s: Net)
  {
    && |s.nodes| == NODE_COUNT
    && (forall i: nat :: i < NODE_COUNT ==> s.nodes[i].up)
    && |a| == |b| > 0 && a[0] != b[0]
    && (forall i: nat :: i < NODE_COUNT && i in GROUP_A ==> InGroupA(s.nodes[i], base + a, base + b, base + b + e))
    && (forall i: nat :: i < NODE_COUNT && i in GROUP_B ==> InGroupB(s.nodes[i], base + a, base + b, base + b + e))
    && (exists i: nat :: i < NODE_COUNT && s.nodes[i].active == base + b + e)
    && (s.signing ==> s.hosts <= GROUP_B)
  }

  lemma GroupAReceives(n: Node, own: Chain, other: Chain, line: Chain, c: Chain)
    requires InGroupA(n, own, other, line) && |own| == |other| && other <= line
    requires c == own || (other <= c && c <= line)
    ensures InGroupA(Receive(n, c), own, other, line)
    ensures |c| > |own| && |c| >= |n.active| ==> Receive(n, c).active == c
  {
    if |c| >= |n.active| && n.active != own && c != own {
      SameLine(n.active, c, line);
    }
  }

  lemma GroupBReceives(n: Node, own: Chain, other: Chain, line: Chain, c: Chain)
    requires InGroupB(n, own, other, line) && |own| == |other|
    requires c == own || (other <= c && c <= line)
    ensures InGroupB(Receive(n, c), own, other, line)
    ensures c != own && |c| >= |n.active| ==> Receive(n, c).active == c
  {
    if c != own {
      if |c| <= |n.active| {
        SameLine(c, n.active, line);
      } else {
        SameLine(n.active, c, line);
      }
    }
  }

  // What a running node tells the others
  lemma ToldIsOnALine(base: Chain, a: Chain, b: Chain, e: Chain, s: Net, m: nat)
    requires Joined(base, a, b, e, s) && m < NODE_COUNT
    ensures var c := s.nodes[m].active; c == base + a || (base + b <= c && c <= base + b + e)
  {
    assert m in GROUP_A || m in GROUP_B;
  }

  lemma RelayToGroupA(base: Chain, a: Chain, b: Chain, e: Chain, s: Net, m: nat, n: nat)
    requires Joined(base, a, b, e, s) && m < NODE_COUNT && n in GROUP_A
    ensures InGroupA(Receive(s.nodes[n], s.nodes[m].active), base + a, base + b, base + b + e)
  {
    ToldIsOnALine(base, a, b, e, s, m);
    GroupAReceives(s.nodes[n], base + a, base + b, base + b + e, s.nodes[m].active);
  }

  lemma RelayToGroupB(base: Chain, a: Chain, b: Chain, e: Chain, s: Net, m: nat, n: nat)
    requires Joined(base, a, b, e, s) && m < NODE_COUNT && n in GROUP_B
    ensures InGroupB(Receive(s.nodes[n], s.nodes[m].active), base + a, base + b, base + b + e)
  {
    ToldIsOnALine(base, a, b, e, s, m);
    GroupBReceives(s.nodes[n], base + a, base + b, base + b + e, s.nodes[m].active);
  }

  lemma RelayKeepsWhole(base: Chain, a: Chain, b: Chain, e: Chain, s: Net, m: nat, n: nat)
    requires Joined(base, a, b, e, s) && After(s, Relay(m, n)).Some?
    ensures exists i: nat :: i < NODE_COUNT && After(s, Relay(m, n)).value.nodes[i].active == base + b + e
  {
    ToldIsOnALine(base, a, b, e, s, m);
    var i: nat :| i < NODE_COUNT && s.nodes[i].active == base + b + e;
    assert |s.nodes[m].active| <= |base + b + e|;
    assert After(s, Relay(m, n)).value.nodes[i].active == base + b + e;
  }

  lemma RelayKeepsJoined(base: Chain, a: Chain, b: Chain, e: Chain, s: Net, m: nat, n: nat)
    requires Joined(base, a, b, e, s) && After(s, Relay(m, n)).Some?
    ensures Joined(base, a, b, e, After(s, Relay(m, n)).value)
  {
    RelayKeepsWhole(base, a, b, e, s, m, n);
    if n in GROUP_A {
      RelayToGroupA(base, a, b, e, s, m, n);
    } else {
      assert n in GROUP_B;
      RelayToGroupB(base, a, b, e, s, m, n);
    }
  }

  lemma MineKeepsJoined(base: Chain, a: Chain, b: Chain, e: Chain, s: Net, h: nat)
    requires Joined(base, a, b, e, s) && After(s, Mine(h)).Some?
    ensures Joined(base, a, b, e + [s.next], After(s, Mine(h)).value)
  {
    var t := After(s, Mine(h)).value;
    var own, other, line := base + a, base + b, base + b + e;
    var longer := base + b + (e + [s.next]);
    assert longer == line + [s.next] && line <= longer;
    var i: nat :| i < NODE_COUNT && s.nodes[i].active == line;
    assert IsUp(s, i);
    assert s.nodes[h].active == line;
    GroupBOnLonger(s.nodes[h], own, other, line, longer);
    GroupBReceives(s.nodes[h], own, other, longer, longer);
    forall k: nat | k < NODE_COUNT && k in GROUP_A ensures InGroupA(s.nodes[k], own, other, longer) {
      assert InGroupA(s.nodes[k], own, other, line);
    }
    forall k: nat | k < NODE_COUNT && k in GROUP_B ensures InGroupB(s.nodes[k], own, other, longer) {
      GroupBOnLonger(s.nodes[k], own, other, line, longer);
    }
    assert t.nodes[h].active == longer;
  }

  lemma GroupBOnLonger(n: Node, own: Chain, other: Chain, line: Chain, longer: Chain)
    requires InGroupB(n, own, other, line) && line <= longer
    ensures InGroupB(n, own, other, longer)
  {
  }

  lemma StepKeepsJoined(base: Chain, a: Chain, b: Chain, e: Chain, s: Net, step: Step)
    requires Joined(base, a, b, e, s) && After(s, step).Some?
    ensures Joined(base, a, b, e + Added(s, step), After(s, step).value)
  {
    match step
    case Relay(m, n) =>
      assert e + [] == e;
      RelayKeepsJoined(base, a, b, e, s, m, n);
    case Mine(h) =>
      MineKeepsJoined(base, a, b, e, s, h);
  }

  lemma PlayKeepsJoined(base: Chain, a: Chain, b: Chain, e: Chain, s: Net, steps: seq<Step>)
    returns (y: Chain)
    requires Joined(base, a, b, e, s) && Play(s, steps).Some?
    ensures Joined(base, a, b, e + y, Play(s, steps).value) && (!s.signing ==> y == [])
  {
    var inv := (t, z) => Joined(base, a, b, z, t);
    forall t, z, step | inv(t, z) && After(t, step).Some?
      ensures inv(After(t, step).value, z + Added(t, step))
    {
      StepKeepsJoined(base, a, b, z, t, step);
    }
    y := PlayKeeps(inv, s, e, steps);
  }

  /** The tie decides nothing: as long as group B is not extended, every node stays on the tip
      of its own group, whatever is relayed. */
  lemma TieHolds(base: Chain, a: Chain, b: Chain, s: Net, steps: seq<Step>)
    requires Joined(base, a, b, [], s) && !s.signing && Play(s, steps).Some?
    ensures
      var t := Play(s, steps).value;
      && Joined(base, a, b, [], t)
      && (forall i: nat :: i < NODE_COUNT && i in GROUP_A ==> t.nodes[i].active == base + a)
      && (forall i: nat :: i < NODE_COUNT && i in GROUP_B ==> t.nodes[i].active == base + b)
  {
    var y := PlayKeepsJoined(base, a, b, [], s, steps);
    assert [] + y == [];
    assert base + b + [] == base + b;
  }

  // No running node is above this height
  ghost predicate NoHigher(s: Net, bound: nat)
  {
    forall j: nat :: j < |s.nodes| && s.nodes[j].up ==> |s.nodes[j].active| <= bound
  }

  lemma {:induction false} HighestStays(s: Net, i: nat, steps: seq<Step>)
    requires !s.signing && i < |s.nodes| && NoHigher(s, |s.nodes[i].active|) && Play(s, steps).Some?
    ensures |Play(s, steps).value.nodes| == |s.nodes|
    ensures Play(s, steps).value.nodes[i].active == s.nodes[i].active
    decreases |steps|
  {
    if |steps| > 0 {
      var t := After(s, steps[0]).value;
      assert t.nodes[i].active == s.nodes[i].active && NoHigher(t, |s.nodes[i].active|);
      HighestStays(t, i, steps[1..]);
    }
  }

  // If these steps can happen in s, node i is on the same tip after them
  ghost predicate KeepsTip(s: Net, i: nat, steps: seq<Step>)
    requires i < |s.nodes|
  {
    Play(s, steps).Some? ==>
      i < |Play(s, steps).value.nodes| && Play(s, steps).value.nodes[i].active == s.nodes[i].active
  }

  /** With the signers stopped, a node is certain to stay on its tip, whatever is relayed, if and
      only if no running node is higher: a tie moves nobody, one block more would. */
  lemma TipIsKeptIff(s: Net, i: nat)
    requires !s.signing && IsUp(s, i)
    ensures (forall steps :: KeepsTip(s, i, steps)) <==> IsHighest(s, i)
  {
    if IsHighest(s, i) {
      forall steps
        ensures KeepsTip(s, i, steps)
      {
        if Play(s, steps).Some? {
          HighestStays(s, i, steps);
        }
      }
    } else {
      var j: nat :| j < |s.nodes| && IsUp(s, j) && |s.nodes[j].active| > |s.nodes[i].active|;
      var steps := [Relay(j, i)];
      var t := After(s, steps[0]).value;
      assert steps[1..] == [] && Play(t, steps[1..]) == Some(t);
      assert Play(s, steps) == Some(t) && t.nodes[i].active == s.nodes[j].active;
      assert !KeepsTip(s, i, steps);
    }
  }

  // ---- what a node reports about its block tree ----

  // The number of leading blocks two chains share
  function Common(c: Chain, d: Chain): nat
  {
    if |c| == 0 || |d| == 0 || c[0] != d[0] then 0 else 1 + Common(c[1..], d[1..])
  }

  lemma {:induction false} CommonIsTheForkPoint(base: Chain, a: Chain, b: Chain)
    requires |a| > 0 && |b| > 0 && a[0] != b[0]
    ensures Common(base + a, base + b) == |base|
  {
    if |base| == 0 {
      assert base + a == a && base + b == b;
    } else {
      assert (base + a)[1..] == base[1..] + a && (base + b)[1..] == base[1..] + b;
      CommonIsTheForkPoint(base[1..], a, b);
    }
  }

  // The blocks a node knows that have no successor among those it knows
  function Tips(n: Node): set<Chain>
  {
    set c | c in n.heard && (forall d :: d in n.heard ==> !(c < d)) :: c
  }

  datatype Status = Active | ValidFork | ValidHeaders

  function StatusOf(n: Node, tip: Chain): Status
  {
    if tip == n.active then Active
    else if exists c :: c in n.connected && tip <= c then ValidFork
    else ValidHeaders
  }

  function BranchLength(n: Node, tip: Chain): int { |tip| - Common(tip, n.active) }

  lemma ForksAreApart(base: Chain, a: Chain, b: Chain, e: Chain)
    requires |a| == |b| > 0 && a[0] != b[0]
    ensures !(base + a <= base + b + e) && !(base + b + e <= base + a) && !(base + b <= base + a)
    ensures Common(base + a, base + b + e) == |base|
  {
    var k := |base|;
    assert (base + a)[k] == a[0] && (base + b)[k] == b[0] && (base + b + e)[k] == b[0];
    assert base + b + e == base + (b + e);
    CommonIsTheForkPoint(base, a, b + e);
  }

  // Every node has the whole extended chain of group B
  ghost predicate Propagated(base: Chain, b: Chain, e: Chain, s: Net)
    requires |s.nodes| == NODE_COUNT
  {
    forall i: nat :: i < NODE_COUNT ==> |s.nodes[i].active| >= |base + b + e|
  }

  /** Once every node is at the height of group B's extended chain, that chain is the active
      one everywhere. */
  lemma AllOnGroupB(base: Chain, a: Chain, b: Chain, e: Chain, s: Net)
    requires Joined(base, a, b, e, s) && |e| > 0 && Propagated(base, b, e, s)
    ensures forall i: nat :: i < NODE_COUNT ==> s.nodes[i].active == base + b + e
  {
    forall i: nat | i < NODE_COUNT ensures s.nodes[i].active == base + b + e {
      assert i in GROUP_A || i in GROUP_B;
      assert |base + a| < |base + b + e|;
      assert s.nodes[i].active <= base + b + e;
    }
  }

  /** A node of group A then reports exactly two tips: the active one, and its own fork,
      demoted, with the length of that fork. */
  lemma GroupATips(base: Chain, a: Chain, b: Chain, e: Chain, s: Net, i: nat)
    requires Joined(base, a, b, e, s) && |e| > 0 && Propagated(base, b, e, s) && i in GROUP_A
    ensures Tips(s.nodes[i]) == {base + b + e, base + a} && base + b + e != base + a
    ensures StatusOf(s.nodes[i], base + b + e) == Active
    ensures StatusOf(s.nodes[i], base + a) == ValidFork
    ensures BranchLength(s.nodes[i], base + a) == |a|
  {
    AllOnGroupB(base, a, b, e, s);
    ForksAreApart(base, a, b, e);
    var n := s.nodes[i];
    assert InGroupA(n, base + a, base + b, base + b + e);
    forall c | c in n.heard && c != base + a && c != base + b + e
      ensures c !in Tips(n)
    {
      assert c < base + a || c < base + b + e;
    }
  }

  /** A node of group B reports the active tip, and group A's fork beside it if and only if it
      heard of that fork; it never was on it. */
  lemma GroupBTips(base: Chain, a: Chain, b: Chain, e: Chain, s: Net, i: nat)
    requires Joined(base, a, b, e, s) && |e| > 0 && Propagated(base, b, e, s) && i in GROUP_B
    ensures Tips(s.nodes[i]) ==
            if base + a in s.nodes[i].heard then {base + b + e, base + a} else {base + b + e}
    ensures StatusOf(s.nodes[i], base + b + e) == Active
    ensures StatusOf(s.nodes[i], base + a) == ValidHeaders
  {
    AllOnGroupB(base, a, b, e, s);
    ForksAreApart(base, a, b, e);
    var n := s.nodes[i];
    assert InGroupB(n, base + a, base + b, base + b + e);
    forall c | c in n.heard && c != base + a && c != base + b + e
      ensures c !in Tips(n)
    {
      assert c < base + b + e;
    }
    assert forall c :: c in n.connected ==> !(base + a <= c);
  }
}
