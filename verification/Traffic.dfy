/**
 The traffic generator: it drives the seven nodes, keeps a shadow ledger, and compares the
 ledger with the wallets while blocks keep landing.
 */
module Traffic {
  import opened Options
  import opened Sequences
  import opened Chain
  import opened Network
  import opened Ledger
  import opened Settlement
  import opened Passes
  import RoundRobin

  const HEIGHT_POLL_INTERVAL_SECONDS: nat := 3
  const HEIGHT_POLL_TIMEOUT_SECONDS: nat := 180
  const HEIGHT_CONSISTENT_READ_MAX_ATTEMPTS: nat := 5
  const SETTLE_TIMEOUT_SECONDS: nat := 600
  const TOKEN_ISSUE_AMOUNT: int := 3
  const TOKEN_TOPUP_AMOUNT: int := 3
  const ROUND_SEND_AMOUNT_TOKEN: int := 1
  // Amounts of TPC are in its smallest unit, 10^-8
  const FUNDING_AMOUNT: int := 100_000_000
  const ROUND_SEND_AMOUNT_TPC: int := 100_000
  const FUNDING_PAIRS: seq<(Node, Node)> := [(0, 1), (2, 3), (4, 5), (0, 6)]
  const EARNERS: seq<Node> := [0, 2, 4]

  datatype Failure =
    | NodeUnreachable | NeverConverged | NeverSynced | NoNextBlock | BlockUnknown
    | NoCoinbase | UnstableHeights

  datatype Outcome = Done | Raised(why: Failure)

  datatype RunVerdict = Passed | TooFewActions | BalancesDiffer | Stopped(why: Failure)

  // What a second look at the heights says about a set of balances
  datatype Look = Agreed | Moved | Unanswered

  // Nodes that chaos actions may restart or invalidate
  predicate IsChaosNode(n: Node) { n == 1 || n == 3 || n == 5 || n == 6 }

  // REISSUABLE, NON_REISSUABLE and NFT in turn, in node order
  datatype TokenType = REISSUABLE | NON_REISSUABLE | NFT

  function TokenTypeOf(n: Node): TokenType {
    if n % 3 == 0 then REISSUABLE else if n % 3 == 1 then NON_REISSUABLE else NFT
  }

  function TransferDeltas(sender: Node, target: Node, asset: Asset, amount: int): seq<Delta> {
    [Delta(sender, asset, -amount), Delta(target, asset, amount)]
  }

  function MintDeltas(n: Node, color: nat, amount: int): seq<Delta> {
    [Delta(n, Color(color), amount)]
  }

  // A list with the change an operation produced, if it produced one
  function Joined(pending: seq<Change>, r: Option<Change>): seq<Change> {
    if r.Some? then pending + [r.value] else pending
  }

  function Max(a: nat, b: nat): nat { if a < b then b else a }

  // c is a trusted comparison after every submitted change was applied or is still pending, and
  // found is what it reports
  ghost predicate IsVerified(c: Comparison, submitted: seq<Change>, origin: seq<Change>, pending: seq<Change>,
                             found: seq<Mismatch>)
  {
    && Trusted(c) && c.pending == pending
    && Covers(submitted, origin, c.acc.applied, pending, [])
    && found == Report(c.height, c.acc.book, c.actual, c.Pairs())
  }

  // The sender's wallet can see, all the way from a to b, that the change is confirmed
  ghost predicate Noticeable(a: Net, b: Net, attentive: bool, c: Change)
    requires ValidNet(a) && b.Shape()
  {
    assert Backed(a, a.height[c.node]);
    attentive && Steady(a, b, c.node) && Shown(a, c.node, c.txids)
  }

  // Unless n was set back from a to b, it has reached the height the reference node had in a
  ghost predicate CaughtUp(a: Net, b: Net, n: Node)
    requires a.Shape() && b.Shape()
  {
    Steady(a, b, n) ==> a.height[0] <= b.height[n]
  }

  ghost predicate AllCaughtUp(a: Net, b: Net, nodes: set<Node>)
    requires a.Shape() && b.Shape()
  {
    forall n: Node :: n in nodes ==> CaughtUp(a, b, n)
  }

  lemma OneMoreCaughtUp(a: Net, b: Net, c: Net, done: set<Node>, n: Node)
    requires Evolves(a, b) && Evolves(b, c) && AllCaughtUp(a, b, done) && b.height[0] <= c.height[n]
    ensures AllCaughtUp(a, c, done + {n})
  {
    forall m: Node | m in done + {n} ensures CaughtUp(a, c, m) {
      assert a.cuts[m] <= b.cuts[m] <= c.cuts[m];
    }
  }

  lemma CaughtUpWidens(a: Net, b: Net, c: Net, d: Net, nodes: set<Node>)
    requires Evolves(a, b) && Evolves(b, c) && Evolves(c, d) && AllCaughtUp(b, c, nodes)
    ensures AllCaughtUp(a, d, nodes)
  {
    forall n: Node | n in nodes ensures CaughtUp(a, d, n) {
      assert a.cuts[n] <= b.cuts[n] <= c.cuts[n] <= d.cuts[n];
      assert CaughtUp(b, c, n);
    }
  }

  function ChaosSenders(pending: seq<Change>): set<Node>
  {
    set c | c in pending && IsChaosNode(c.node) :: c.node
  }

  // From a to b every node answered a height, and none below the target
  ghost predicate AllReached(a: Net, b: Net, seen: seq<Option<nat>>, target: nat)
    requires a.Shape() && b.Shape()
  {
    && |seen| == NODE_COUNT
    && forall n: Node :: HeightSample(a, b, n, seen[n]) && seen[n].Some? && seen[n].value >= target
  }

  // `lowest` answered one block less between a and polled; since then every node has reached
  // the target, and something has moved
  ghost predicate SawNextBlock(a: Net, polled: Net, b: Net, lowest: Node, seen: seq<Option<nat>>, target: nat)
    requires a.Shape() && polled.Shape() && b.Shape()
  {
    && target > 0 && HeightSample(a, polled, lowest, Some(target - 1))
    && AllReached(polled, b, seen, target)
    && Backed(b, target) && b.moves < a.moves
  }

  lemma ReachedMeansMoved(a: Net, polled: Net, before: Net, net: Net, seen: seq<Option<nat>>, target: nat, lowest: Node)
    requires Evolves(a, polled) && Evolves(polled, before) && Evolves(before, net)
    requires 0 < target && HeightSample(a, polled, lowest, Some(target - 1))
    requires |seen| == NODE_COUNT
    requires forall n: Node :: HeightSample(before, net, n, seen[n])
    requires forall n: Node :: seen[n].Some? && seen[n].value >= target
    ensures SawNextBlock(a, polled, net, lowest, seen, target)
  {
    forall n: Node
      ensures HeightSample(polled, net, n, seen[n])
    {
      HeightSampleWidens(polled, before, net, net, n, seen[n]);
    }
    assert HeightSample(before, net, 0, seen[0]);
    BackedBelow(net, seen[0].value, target);
    assert HeightSample(before, net, lowest, seen[lowest]);
    assert seen[lowest].value >= target;
  }

  lemma NoticedInTime(a: Net, b: Net, attentive: bool, c: Change, id: TxId)
    requires ValidNet(a) && ValidNet(b) && Evolves(a, b) && id in c.txids
    ensures Backed(b, b.height[c.node])
    ensures Noticeable(a, b, attentive, c) ==> id in Txs(b.chain[..b.height[c.node]])
  {
    assert Backed(b, b.height[c.node]);
    if Noticeable(a, b, attentive, c) {
      ShownStays(a, b, c.node, id);
    }
  }

  // What a round adds to the mismatches: the report of its comparison, if it came to one
  ghost function ReportOf(out: Outcome, c: Comparison): seq<Mismatch>
  {
    if out.Done? && Trusted(c) then Report(c.height, c.acc.book, c.actual, c.Pairs()) else []
  }

  class TrafficGenerator {
    const world: World
    var ledger: Book
    var lastCredited: nat
    var mismatches: seq<Mismatch>
    var successes: nat
    var colors: seq<Option<nat>>

    // The history the ledger is measured against
    ghost var seedHeight: nat
    ghost var seeded: Book
    ghost var seedAt: seq<nat>
    ghost var applied: seq<Change>

    constructor (world: World)
      ensures this.world == world && mismatches == [] && successes == 0 && ledger == map[]
      ensures colors == seq(NODE_COUNT, _ => None)
    {
      this.world := world;
      ledger, lastCredited, mismatches, successes := map[], 0, [], 0;
      colors := seq(NODE_COUNT, _ => None);
    }

    ghost function Books(): Account
      reads `seedHeight, `seeded, `seedAt, `ledger, `applied, `colors
    {
      Account(seedHeight, seeded, seedAt, ledger, applied, colors)
    }

    // ---- polling ----

    // One height from every node, the answers arriving in any order
    method AllHeights() returns (seen: seq<Option<nat>>)
      requires ValidNet(world.net)
      modifies world
      ensures ValidNet(world.net) && Evolves(old(world.net), world.net)
      ensures |seen| == NODE_COUNT
      ensures forall n: Node :: HeightSample(old(world.net), world.net, n, seen[n])
    {
      ghost var start := world.net;
      seen := seq(NODE_COUNT, _ => None);
      var todo: set<Node> := {0, 1, 2, 3, 4, 5, 6};
      while todo != {}
        invariant ValidNet(world.net) && Evolves(start, world.net)
        invariant |seen| == NODE_COUNT
        invariant forall n: Node :: n !in todo ==> HeightSample(start, world.net, n, seen[n])
        decreases todo
      {
        var n :| n in todo;
        ghost var before, was := world.net, seen;
        var h := world.Height(n);
        EvolvesTransitive(start, before, world.net);
        seen := seen[n := h];
        todo := todo - {n};
        forall m: Node | m !in todo
          ensures HeightSample(start, world.net, m, seen[m])
        {
          if m == n {
            HeightSampleWidens(start, before, world.net, world.net, m, h);
          } else {
            HeightSampleWidens(start, start, before, world.net, m, was[m]);
          }
        }
      }
    }

    // The lowest height among the nodes that answer; `lowest` is one that answered it
    method CurrentHeight() returns (r: Option<nat>, ghost lowest: Node)
      requires ValidNet(world.net)
      modifies world
      ensures ValidNet(world.net) && Evolves(old(world.net), world.net)
      ensures r.Some? && HeightSample(old(world.net), world.net, lowest, r)
      ensures forall e: Node :: IsEarner(e) ==> r.value <= world.net.height[e]
    {
      var seen := AllHeights();
      r := None;
      lowest := 0;
      assert forall n: Node :: HeightSample(old(world.net), world.net, n, seen[n]);
      for i := 0 to NODE_COUNT
        invariant r.Some? ==> HeightSample(old(world.net), world.net, lowest, r)
        invariant forall n: Node :: n < i && seen[n].Some? ==> r.Some? && r.value <= seen[n].value
      {
        if seen[i].Some? && (r.None? || seen[i].value < r.value) {
          r := seen[i];
          lowest := i;
        }
      }
      forall e: Node | IsEarner(e)
        ensures r.Some? && r.value <= world.net.height[e]
      {
        assert HeightSample(old(world.net), world.net, e, seen[e]);
      }
      assert IsEarner(0);
    }

    // Waits until every node answers a height above the lowest one seen at the start: that of
    // `lowest`, seen before `polled`.  `seen` are the answers of the last poll.
    method WaitForNextBlock() returns (r: Option<nat>, ghost lowest: Node, ghost polled: Net, ghost seen: seq<Option<nat>>)
      requires ValidNet(world.net)
      modifies world
      ensures ValidNet(world.net) && Evolves(old(world.net), world.net)
      ensures Evolves(old(world.net), polled) && Evolves(polled, world.net)
      ensures r.Some? ==> SawNextBlock(old(world.net), polled, world.net, lowest, seen, r.value)
    {
      ghost var start := world.net;
      var current;
      current, lowest := CurrentHeight();
      polled, seen := world.net, [];
      var target := current.value + 1;
      var deadline := world.net.now + HEIGHT_POLL_TIMEOUT_SECONDS;
      while true
        invariant ValidNet(world.net) && Evolves(start, world.net) && Evolves(polled, world.net)
        decreases deadline - world.net.now
      {
        ghost var before := world.net;
        var heights := AllHeights();
        EvolvesTransitive(start, before, world.net);
        EvolvesTransitive(polled, before, world.net);
        if forall n :: 0 <= n < NODE_COUNT ==> heights[n].Some? && heights[n].value >= target {
          seen := heights;
          ReachedMeansMoved(start, polled, before, world.net, seen, target, lowest);
          return Some(target), lowest, polled, seen;
        }
        if world.net.now >= deadline {
          return None, lowest, polled, [];
        }
        ghost var waiting := world.net;
        world.Sleep(HEIGHT_POLL_INTERVAL_SECONDS);
        EvolvesTransitive(start, waiting, world.net);
        EvolvesTransitive(polled, waiting, world.net);
      }
    }

    // Waits until every node answers the same height.  `since` is the state in which the
    // deciding poll began.
    method WaitForConvergence(deadline: nat) returns (r: Option<nat>, ghost since: Net)
      requires ValidNet(world.net)
      modifies world
      ensures ValidNet(world.net) && Evolves(old(world.net), world.net)
      ensures ValidNet(since) && Evolves(old(world.net), since) && Evolves(since, world.net)
      ensures r.Some? ==> forall n: Node :: HeightSample(since, world.net, n, r)
    {
      ghost var start := world.net;
      while true
        invariant ValidNet(world.net) && Evolves(start, world.net)
        decreases deadline - world.net.now
      {
        since := world.net;
        var seen := AllHeights();
        EvolvesTransitive(start, since, world.net);
        if seen[0].Some? && (forall n :: 0 <= n < NODE_COUNT ==> seen[n] == seen[0]) {
          r := seen[0];
          forall n: Node
            ensures HeightSample(since, world.net, n, r)
          {
            assert HeightSample(since, world.net, n, seen[n]);
          }
          return;
        }
        if world.net.now >= deadline {
          return None, since;
        }
        ghost var waiting := world.net;
        world.Sleep(HEIGHT_POLL_INTERVAL_SECONDS);
        EvolvesTransitive(start, waiting, world.net);
      }
    }

    // The balances of the given wallets, read one RPC each, the answers arriving in any order
    method FetchBalances(pairs: seq<(Node, Asset)>)
      returns (answered: bool, actual: map<(Node, Asset), int>, ghost readAt: map<(Node, Asset), nat>)
      requires ValidNet(world.net)
      modifies world
      ensures ValidNet(world.net) && Evolves(old(world.net), world.net)
      ensures answered ==> forall p :: p in pairs ==>
                && p in actual && p in readAt
                && BalanceSample(old(world.net), world.net, p.0, p.1, readAt[p], actual[p])
      ensures forall p :: p in actual ==> p in pairs
    {
      ghost var start := world.net;
      actual, readAt := map[], map[];
      var todo := set p | p in pairs;
      while todo != {}
        invariant ValidNet(world.net) && Evolves(start, world.net)
        invariant forall p :: p in pairs && p !in todo ==>
                    && p in actual && p in readAt
                    && BalanceSample(start, world.net, p.0, p.1, readAt[p], actual[p])
        invariant forall p :: p in actual ==> p in pairs
        invariant forall p :: p in todo ==> p in pairs
        decreases todo
      {
        var p :| p in todo;
        ghost var before, was, wasAt := world.net, actual, readAt;
        var v, k := world.GetBalance(p.0, p.1);
        EvolvesTransitive(start, before, world.net);
        if v.None? {
          return false, map[], map[];
        }
        actual, readAt := actual[p := v.value], readAt[p := k];
        todo := todo - {p};
        forall q | q in pairs && q !in todo
          ensures BalanceSample(start, world.net, q.0, q.1, readAt[q], actual[q])
        {
          if q == p {
            BalanceSampleWidens(start, before, world.net, world.net, q.0, q.1, k, v.value);
          } else {
            BalanceSampleWidens(start, start, before, world.net, q.0, q.1, wasAt[q], was[q]);
          }
        }
      }
      answered := true;
    }

    // ---- seeding ----

    // The TPC balance of every node; at[n] is the height n had when it answered
    method ReadTpc() returns (answered: bool, balances: Book, ghost at: seq<nat>)
      requires ValidNet(world.net)
      modifies world
      ensures ValidNet(world.net) && Evolves(old(world.net), world.net)
      ensures |at| == NODE_COUNT && forall p :: p in balances ==> p.1 == TPC
      ensures answered ==> forall n: Node :: BalanceSample(old(world.net), world.net, n, TPC, at[n], Get(balances, n, TPC))
    {
      ghost var start := world.net;
      var pairs := Compared(AllNodes(), [TPC]);
      ghost var readAt: map<(Node, Asset), nat>;
      answered, balances, readAt := FetchBalances(pairs);
      at := seq(NODE_COUNT, n requires 0 <= n < NODE_COUNT => if (n, TPC) in readAt then readAt[(n, TPC)] else 0);
      if answered {
        TpcReadings(start, world.net, pairs, balances, readAt, at);
      }
    }

    // One attempt: heights, balances, heights again
    method ReadTwice()
      returns (answered: bool, before: seq<Option<nat>>, balances: Book, after: seq<Option<nat>>, ghost at: seq<nat>)
      requires ValidNet(world.net)
      modifies world
      ensures ValidNet(world.net) && Evolves(old(world.net), world.net)
      ensures answered && before == after && MaxReachable(after).Some? ==>
                && SeedFacts(world.net, MaxReachable(after).value, balances, at)
                && Backed(world.net, MaxReachable(after).value)
    {
      ghost var s0 := world.net;
      before := AllHeights();
      ghost var s1 := world.net;
      answered, balances, at := ReadTpc();
      ghost var s2 := world.net;
      after := AllHeights();
      EvolvesTransitive(s0, s1, s2);
      EvolvesTransitive(s0, s2, world.net);
      if answered && before == after && MaxReachable(after).Some? {
        SeedSound(s0, s1, s2, world.net, after, MaxReachable(after).value, balances, at);
      }
    }

    // Takes the balances as the starting ledger
    method Install(balances: Book, h: nat, ghost at: seq<nat>)
      requires ValidNet(world.net) && SeedFacts(world.net, h, balances, at) && Backed(world.net, h)
      requires colors == seq(NODE_COUNT, _ => None)
      modifies this`ledger, this`lastCredited, this`seedHeight, this`seeded, this`seedAt, this`applied
      ensures InOrder(world.net, Books(), lastCredited, [])
      ensures lastCredited == seedHeight == h && ledger == seeded == balances && applied == []
    {
      ledger, lastCredited := balances, h;
      seedHeight, seeded, seedAt, applied := h, balances, at, [];
      SeededInOrder(world.net, h, balances, at, colors);
      assert Books() == Account(h, balances, at, balances, [], colors);
    }

    // Seeds the ledger with the TPC balances, and takes the highest height answered as the
    // height through which coinbase counts as credited
    method SeedLedger() returns (out: Outcome)
      requires ValidNet(world.net) && colors == seq(NODE_COUNT, _ => None)
      modifies world, this`ledger, this`lastCredited, this`seedHeight, this`seeded, this`seedAt, this`applied
      ensures ValidNet(world.net) && Evolves(old(world.net), world.net)
      ensures out.Done? ==> InOrder(world.net, Books(), lastCredited, [])
      ensures out.Done? ==> lastCredited == seedHeight && ledger == seeded && applied == []
    {
      ghost var start := world.net;
      for attempt := 0 to HEIGHT_CONSISTENT_READ_MAX_ATTEMPTS
        invariant ValidNet(world.net) && Evolves(start, world.net)
      {
        ghost var was := world.net;
        var answered, before, balances, after, at := ReadTwice();
        EvolvesTransitive(start, was, world.net);
        if !answered {
          return Raised(NodeUnreachable);
        }
        if before == after {
          var h := MaxReachable(after);
          if h.None? {
            return Raised(NodeUnreachable);
          }
          Install(balances, h.value, at);
          return Done;
        }
      }
      return Raised(UnstableHeights);
    }

    // ---- crediting coinbase ----

    // The earner whose wallet has the coinbase of a height, asked in the order of EARNERS
    method FindCoinbase(height: nat) returns (out: Outcome, earner: Node, reward: int)
      requires ValidNet(world.net) && 0 < height && Backed(world.net, height)
      modifies world
      ensures ValidNet(world.net) && Evolves(old(world.net), world.net)
      ensures height <= old(world.net).height[0] ==> out.Done?
      ensures out.Done? ==>
                && Backed(world.net, height)
                && world.net.chain[height - 1].earner == earner
                && world.net.chain[height - 1].reward == reward
    {
      ghost var start := world.net;
      earner, reward := 0, 0;
      var ok := world.Reach(0);
      if !ok || height > world.net.height[0] {
        return Raised(BlockUnknown), earner, reward;
      }
      BackedStays(start, world.net, height);
      for i := 0 to |EARNERS|
        invariant ValidNet(world.net) && Evolves(start, world.net) && Backed(world.net, height)
        invariant i > 0 ==> world.net.chain[height - 1].earner != 0
        invariant i > 1 ==> world.net.chain[height - 1].earner != 2
        invariant i > 2 ==> world.net.chain[height - 1].earner != 4
      {
        ghost var before := world.net;
        var amount := world.GetCoinbase(EARNERS[i], height);
        EvolvesTransitive(start, before, world.net);
        BackedStays(before, world.net, height);
        if amount.Some? {
          return Done, EARNERS[i], amount.value;
        }
      }
      assert false;
      return Raised(NoCoinbase), earner, reward;
    }

    // Credits the coinbase of one height
    method CreditCoinbase(height: nat, ghost pending: seq<Change>) returns (out: Outcome)
      requires 0 < height && InOrder(world.net, Books(), height - 1, pending) && Backed(world.net, height)
      modifies world, this`ledger
      ensures ValidNet(world.net) && Evolves(old(world.net), world.net)
      ensures height <= old(world.net).height[0] ==> out.Done?
      ensures out.Done? ==> InOrder(world.net, Books(), height, pending)
      ensures out.Raised? ==> ledger == old(ledger)
    {
      ghost var start, acc, last := world.net, Books(), height - 1;
      var earner: Node, reward: int;
      out, earner, reward := FindCoinbase(height);
      if out.Done? {
        CreditKeepsOrder(start, world.net, acc, last, height, pending);
        ledger := Add(ledger, earner, TPC, reward);
        assert Books() == Credited(acc, world.net.chain[height - 1]);
      }
    }

    // Credits height h, one of the heights up to `top`, which node 0 holds
    method CreditNext(h: nat, top: nat, ghost pending: seq<Change>, ghost start: Net)
      requires 0 < h <= top && InOrder(world.net, Books(), h - 1, pending)
      requires Evolves(start, world.net) && Backed(world.net, top) && top <= world.net.height[0]
      modifies world, this`ledger
      ensures InOrder(world.net, Books(), h, pending)
      ensures Evolves(start, world.net) && Backed(world.net, top) && top <= world.net.height[0]
    {
      ghost var before := world.net;
      BackedBelow(world.net, top, h);
      var out := CreditCoinbase(h, pending);
      EvolvesTransitive(start, before, world.net);
      BackedStays(before, world.net, top);
    }

    // Credits every height after the last credited one, up to `height`
    method CreditThrough(height: nat, ghost pending: seq<Change>)
      requires InOrder(world.net, Books(), lastCredited, pending)
      requires Backed(world.net, height) && height <= world.net.height[0]
      modifies world, this`ledger, this`lastCredited
      ensures Evolves(old(world.net), world.net) && InOrder(world.net, Books(), lastCredited, pending)
      ensures lastCredited == Max(old(lastCredited), height)
    {
      ghost var start := world.net;
      var top := Max(lastCredited, height);
      for h := lastCredited to top
        invariant InOrder(world.net, Books(), h, pending)
        invariant Evolves(start, world.net) && Backed(world.net, height) && height <= world.net.height[0]
      {
        CreditNext(h + 1, height, pending, start);
      }
      ghost var acc := Books();
      lastCredited := top;
      assert Books() == acc;
    }

    // ---- resolving pending changes ----

    // Asks the sender's wallet about transaction i of a change, the earlier ones being confirmed
    method CheckNext(c: Change, i: nat, fee: int, ghost start: Net)
      returns (answered: bool, confirmed: bool, total: int)
      requires ValidNet(world.net) && i < |c.txids| && Checked(world.net, c, i, fee)
      requires ValidNet(start) && Evolves(start, world.net)
      modifies world
      ensures ValidNet(world.net) && Evolves(start, world.net)
      ensures confirmed ==> answered && Checked(world.net, c, i + 1, total)
      ensures answered && Noticeable(start, world.net, world.attentive, c) ==> confirmed
    {
      ghost var before := world.net;
      var id := c.txids[i];
      var reply := world.GetTransaction(c.node, id);
      EvolvesTransitive(start, before, world.net);
      StillChecked(before, world.net, c, i, fee);
      NoticedInTime(start, world.net, world.attentive, c, id);
      match reply
      case Unreachable =>
        return false, false, 0;
      case Missing =>
        return true, false, 0;
      case Seen(confirmations, details) =>
        if confirmations < 1 {
          return true, false, 0;
        }
        OneMoreChecked(world.net, c, i, fee);
        return true, true, fee + ExtractFee(details);
    }

    // Asks the sender's wallet about every transaction of a change.  `answered` is false when
    // the node stayed unreachable; `confirmed` covers all of the transactions or is false.
    method CheckConfirmed(c: Change) returns (answered: bool, confirmed: bool, fee: int)
      requires ValidNet(world.net) && Faithful(world.net.effects, c)
      modifies world
      ensures ValidNet(world.net) && Evolves(old(world.net), world.net)
      ensures confirmed ==> answered && fee == FeesOf(world.net.effects, c.txids)
      ensures confirmed ==> forall id :: id in c.txids ==> Confirmed(world.net, id)
      ensures answered && Noticeable(old(world.net), world.net, world.attentive, c) ==> confirmed
    {
      ghost var start := world.net;
      answered, confirmed, fee := true, true, 0;
      for i := 0 to |c.txids|
        invariant ValidNet(world.net) && Evolves(start, world.net)
        invariant answered && confirmed && Checked(world.net, c, i, fee)
      {
        answered, confirmed, fee := CheckNext(c, i, fee, start);
        if !confirmed {
          return;
        }
      }
      assert c.txids[..|c.txids|] == c.txids;
    }

    // Adds the fee and the deltas of a confirmed change to the ledger
    method ApplyToLedger(c: Change, fee: int)
      modifies this`ledger
      ensures forall n: Node, a: Asset ::
                Get(ledger, n, a) == Get(old(ledger), n, a)
                  + (if c.node == n && a == TPC then fee else 0) + DeltaSum(c.deltas, n, a)
    {
      ledger := Add(ledger, c.node, TPC, fee);
      ghost var withFee := ledger;
      for i := 0 to |c.deltas|
        invariant forall n: Node, a: Asset ::
                    Get(ledger, n, a) == Get(withFee, n, a) + DeltaSum(c.deltas[..i], n, a)
      {
        assert c.deltas[..i + 1][..i] == c.deltas[..i];
        var d := c.deltas[i];
        ledger := Add(ledger, d.node, d.asset, d.amount);
      }
      assert c.deltas[..|c.deltas|] == c.deltas;
    }

    // One change of the list `still + [c] + rest`: applied to the ledger, kept or dropped
    method ResolveOne(c: Change, final: bool, countSuccess: bool,
                      ghost still: seq<Change>, ghost rest: seq<Change>, ghost start: Net)
      returns (answered: bool, verdict: Verdict)
      requires InOrder(world.net, Books(), lastCredited, still + [c] + rest)
      requires Evolves(start, world.net)
      modifies world, this`ledger, this`applied, this`successes
      ensures ValidNet(world.net) && Evolves(start, world.net)
      ensures InOrder(world.net, Books(), lastCredited, still + (if verdict == Kept then [c] else []) + rest)
      ensures applied == old(applied) + if verdict == Settled then [c] else []
      ensures successes == old(successes) + if countSuccess && verdict == Settled then 1 else 0
      ensures answered && verdict == Kept ==> !final
      ensures verdict == Dropped ==> final
      ensures !answered ==> verdict == Kept
      ensures answered && Noticeable(old(world.net), world.net, world.attentive, c) ==> verdict == Settled
    {
      ghost var before, acc := world.net, Books();
      assert c in still + [c] + rest;
      var fee: int;
      var confirmed: bool;
      answered, confirmed, fee := CheckConfirmed(c);
      EvolvesTransitive(start, before, world.net);
      InOrderStays(before, world.net, acc, lastCredited, still + [c] + rest);
      assert still + [] == still && applied + [] == applied;
      if !answered {
        verdict := Kept;
      } else if confirmed {
        verdict := Settled;
        Settle(c, fee, countSuccess, still, rest);
      } else if final {
        verdict := Dropped;
        DropKeepsOrder(world.net, Books(), lastCredited, still, c, rest);
      } else {
        verdict := Kept;
      }
    }

    method Settle(c: Change, fee: int, countSuccess: bool, ghost still: seq<Change>, ghost rest: seq<Change>)
      requires InOrder(world.net, Books(), lastCredited, still + [c] + rest)
      requires fee == FeesOf(world.net.effects, c.txids)
      requires forall id :: id in c.txids ==> Confirmed(world.net, id)
      modifies this`ledger, this`applied, this`successes
      ensures InOrder(world.net, Books(), lastCredited, still + rest)
      ensures applied == old(applied) + [c]
      ensures successes == old(successes) + if countSuccess then 1 else 0
    {
      ghost var acc := Books();
      ApplyToLedger(c, fee);
      ApplyKeepsOrder(world.net, acc, lastCredited, still, c, rest, ledger);
      applied := applied + [c];
      assert Books() == acc.(book := ledger, applied := acc.applied + [c]);
      if countSuccess {
        successes := successes + 1;
      }
    }

    // The first i pending changes are decided
    ghost predicate Resolving(pending: seq<Change>, i: nat, verdicts: seq<Verdict>, still: seq<Change>,
                              final: bool, before: seq<Change>, start: Net)
      reads this, world
    {
      && i <= |pending| && Evolves(start, world.net)
      && InOrder(world.net, Books(), lastCredited, still + pending[i..])
      && |verdicts| == i && Decided(pending, verdicts, still, before, applied, final)
    }

    method ResolveNext(pending: seq<Change>, i: nat, final: bool, countSuccess: bool, still: seq<Change>,
                       ghost verdicts: seq<Verdict>, ghost before: seq<Change>, ghost start: Net)
      returns (answered: bool, next: seq<Change>, ghost now: seq<Verdict>)
      requires i < |pending| && Resolving(pending, i, verdicts, still, final, before, start)
      modifies world, this`ledger, this`applied, this`successes
      ensures answered ==> Resolving(pending, i + 1, now, next, final, before, start)
      ensures !answered ==> Evolves(start, world.net) && InOrder(world.net, Books(), lastCredited, [])
      ensures |old(applied)| <= |applied|
      ensures successes == old(successes) + if countSuccess then |applied| - |old(applied)| else 0
    {
      ElementApart(still, pending, i);
      ghost var earlier := applied;
      var verdict: Verdict;
      answered, verdict := ResolveOne(pending[i], final, countSuccess, still, pending[i + 1..], start);
      next := still + if verdict == Kept then [pending[i]] else [];
      now := verdicts + [verdict];
      if answered {
        DecideOne(pending, verdicts, still, before, earlier, final, verdict);
      } else {
        KeepOrderWithout(world.net, Books(), lastCredited, still + [pending[i]] + pending[i + 1..]);
      }
    }

    // Applies each change whose transactions are all confirmed.  The others are kept for the
    // next pass, or dropped when this is the final one.
    method ResolvePendingChanges(pending: seq<Change>, final: bool, countSuccess: bool)
      returns (out: Outcome, still: seq<Change>, ghost verdicts: seq<Verdict>)
      requires InOrder(world.net, Books(), lastCredited, pending)
      modifies world, this`ledger, this`applied, this`successes
      ensures ValidNet(world.net) && Evolves(old(world.net), world.net)
      ensures out.Raised? ==> still == []
      ensures InOrder(world.net, Books(), lastCredited, still)
      ensures out.Done? ==> |verdicts| == |pending| && Decided(pending, verdicts, still, old(applied), applied, final)
      ensures |old(applied)| <= |applied|
      ensures successes == old(successes) + if countSuccess then |applied| - |old(applied)| else 0
    {
      ghost var start, before := world.net, applied;
      still, verdicts := [], [];
      Whole([], pending);
      Whole([], applied);
      for i := 0 to |pending|
        invariant Resolving(pending, i, verdicts, still, final, before, start)
        invariant |before| <= |applied|
        invariant successes == old(successes) + if countSuccess then |applied| - |before| else 0
      {
        var answered;
        answered, still, verdicts := ResolveNext(pending, i, final, countSuccess, still, verdicts, before, start);
        if !answered {
          return Raised(NodeUnreachable), [], verdicts;
        }
      }
      Whole(still, pending);
      return Done, still, verdicts;
    }

    // ---- one settle pass ----

    // Waits until the tip of n has caught up with the reference node's tip.  On one chain
    // equal heights have equal hashes.
    method WaitForSenderSync(n: Node) returns (out: Outcome)
      requires ValidNet(world.net)
      modifies world
      ensures ValidNet(world.net) && Evolves(old(world.net), world.net)
      ensures out.Done? ==> old(world.net).height[0] <= world.net.height[n]
    {
      ghost var start := world.net;
      var deadline := world.net.now + HEIGHT_POLL_TIMEOUT_SECONDS;
      while true
        invariant ValidNet(world.net) && Evolves(start, world.net)
        decreases deadline - world.net.now
      {
        ghost var s0 := world.net;
        var reached := world.Reach(0);
        EvolvesTransitive(start, s0, world.net);
        var reference := world.net.height[0];
        ghost var s1 := world.net;
        var h := world.Height(n);
        EvolvesTransitive(start, s1, world.net);
        if h.Some? && h.value >= reference {
          ghost var s2 := world.net;
          var ok := world.Reach(n);
          EvolvesTransitive(start, s2, world.net);
          if !ok {
            return Raised(NodeUnreachable);
          }
          if world.net.height[n] < reference {
            return Raised(BlockUnknown);
          }
          return Done;
        }
        if world.net.now >= deadline {
          return Raised(NeverSynced);
        }
        ghost var s3 := world.net;
        world.Sleep(HEIGHT_POLL_INTERVAL_SECONDS);
        EvolvesTransitive(start, s3, world.net);
      }
    }

    // Syncs every chaos node that has a change pending, each once, in any order.  Those that
    // are not set back meanwhile have then caught up with where the reference node was.
    method SyncSenders(pending: seq<Change>) returns (out: Outcome)
      requires ValidNet(world.net)
      modifies world
      ensures ValidNet(world.net) && Evolves(old(world.net), world.net)
      ensures out.Done? ==> AllCaughtUp(old(world.net), world.net, ChaosSenders(pending))
    {
      ghost var start := world.net;
      ghost var done: set<Node> := {};
      var todo := ChaosSenders(pending);
      while todo != {}
        invariant ValidNet(world.net) && Evolves(start, world.net)
        invariant done + todo == ChaosSenders(pending) && AllCaughtUp(start, world.net, done)
        decreases todo
      {
        var n :| n in todo;
        ghost var before := world.net;
        out := WaitForSenderSync(n);
        EvolvesTransitive(start, before, world.net);
        if out.Raised? {
          return;
        }
        OneMoreCaughtUp(start, before, world.net, done, n);
        done, todo := done + {n}, todo - {n};
      }
      return Done;
    }

    // Waits for all nodes to agree on a height and credits the coinbase through it
    method ConvergeAndCredit(ghost pending: seq<Change>) returns (out: Outcome, height: nat, ghost since: Net)
      requires InOrder(world.net, Books(), lastCredited, pending)
      modifies world, this`ledger, this`lastCredited
      ensures InOrder(world.net, Books(), lastCredited, pending)
      ensures ValidNet(since) && Evolves(old(world.net), since) && Evolves(since, world.net)
      ensures Evolves(old(world.net), world.net)
      ensures out.Done? ==> lastCredited == height
      ensures out.Done? ==> forall n: Node :: HeightSample(since, world.net, n, Some(height))
    {
      ghost var start := world.net;
      var h: Option<nat>;
      h, since := WaitForConvergence(world.net.now + HEIGHT_POLL_TIMEOUT_SECONDS);
      InOrderStays(start, world.net, Books(), lastCredited, pending);
      EvolvesTransitive(start, since, world.net);
      if h.None? {
        return Raised(NeverConverged), 0, since;
      }
      height := h.value;
      ghost var agreed := world.net;
      AgreedHeight(start, since, agreed, lastCredited, height);
      CreditThrough(height, pending);
      out := Done;
      EvolvesTransitive(start, agreed, world.net);
      AgreedStays(since, agreed, world.net, height);
    }

    method SyncAndResolve(pending: seq<Change>, final: bool, countSuccess: bool)
      returns (out: Outcome, still: seq<Change>, ghost verdicts: seq<Verdict>)
      requires InOrder(world.net, Books(), lastCredited, pending)
      modifies world, this`ledger, this`applied, this`successes
      ensures ValidNet(world.net) && Evolves(old(world.net), world.net)
      ensures out.Raised? ==> still == []
      ensures InOrder(world.net, Books(), lastCredited, still)
      ensures out.Done? ==> |verdicts| == |pending| && Decided(pending, verdicts, still, old(applied), applied, final)
      ensures out.Done? ==> AllCaughtUp(old(world.net), world.net, ChaosSenders(pending))
      ensures |old(applied)| <= |applied|
      ensures successes == old(successes) + if countSuccess then |applied| - |old(applied)| else 0
    {
      ghost var start := world.net;
      out := SyncSenders(pending);
      InOrderStays(start, world.net, Books(), lastCredited, pending);
      if out.Raised? {
        KeepOrderWithout(world.net, Books(), lastCredited, pending);
        return out, [], [];
      }
      ghost var synced := world.net;
      out, still, verdicts := ResolvePendingChanges(pending, final, countSuccess);
      if out.Done? {
        CaughtUpWidens(start, start, synced, world.net, ChaosSenders(pending));
      }
      EvolvesTransitive(start, synced, world.net);
    }

    /** One pass of the settle loops: agree on a height, credit coinbase through it, let
        lagging senders catch up, and resolve what is pending. */
    method AdvanceLedgerAndResolve(pending: seq<Change>, final: bool, countSuccess: bool)
      returns (out: Outcome, height: nat, still: seq<Change>, ghost since: Net, ghost verdicts: seq<Verdict>)
      requires InOrder(world.net, Books(), lastCredited, pending)
      modifies world, this`ledger, this`lastCredited, this`applied, this`successes
      ensures out.Raised? ==> still == []
      ensures InOrder(world.net, Books(), lastCredited, still)
      ensures ValidNet(since) && Evolves(old(world.net), since) && Evolves(since, world.net)
      ensures Evolves(old(world.net), world.net)
      ensures out.Done? ==> lastCredited == height
      ensures out.Done? ==> forall n: Node :: HeightSample(since, world.net, n, Some(height))
      ensures out.Done? ==> |verdicts| == |pending| && Decided(pending, verdicts, still, old(applied), applied, final)
      ensures out.Done? ==> AllCaughtUp(old(world.net), world.net, ChaosSenders(pending))
      ensures |old(applied)| <= |applied|
      ensures successes == old(successes) + if countSuccess then |applied| - |old(applied)| else 0
    {
      ghost var start := world.net;
      out, height, since := ConvergeAndCredit(pending);
      if out.Raised? {
        KeepOrderWithout(world.net, Books(), lastCredited, pending);
        return out, height, [], since, [];
      }
      ghost var credited := world.net;
      out, still, verdicts := SyncAndResolve(pending, final, countSuccess);
      if out.Done? {
        CaughtUpWidens(start, credited, world.net, world.net, ChaosSenders(pending));
      }
      EvolvesTransitive(start, credited, world.net);
      AgreedStays(since, credited, world.net, height);
    }

    // ---- settling ----

    // One pass over what is left of `submitted`, keeping account of every change
    method SettlePass(pending: seq<Change>, final: bool, countSuccess: bool,
                      ghost submitted: seq<Change>, ghost origin: seq<Change>, ghost dropped: seq<Change>, ghost start: Net)
      returns (out: Outcome, height: nat, next: seq<Change>, ghost since: Net, ghost lost: seq<Change>)
      requires InOrder(world.net, Books(), lastCredited, pending) && Evolves(start, world.net)
      requires Covers(submitted, origin, applied, pending, dropped)
      modifies world, this`ledger, this`lastCredited, this`applied, this`successes
      ensures InOrder(world.net, Books(), lastCredited, next) && Evolves(start, world.net)
      ensures out.Raised? ==> next == []
      ensures out.Done? ==> Covers(submitted, origin, applied, next, lost) && lastCredited == height
      ensures out.Done? && final ==> next == []
      ensures !final ==> lost == dropped
      ensures |old(applied)| <= |applied|
      ensures successes == old(successes) + if countSuccess then |applied| - |old(applied)| else 0
      ensures Evolves(old(world.net), since) && Evolves(since, world.net)
      ensures world.net.moves <= old(world.net).moves && old(world.net).now <= world.net.now
      ensures out.Done? ==> forall n: Node :: HeightSample(since, world.net, n, Some(height))
    {
      ghost var s0, before := world.net, applied;
      ghost var verdicts: seq<Verdict>;
      out, height, next, since, verdicts := AdvanceLedgerAndResolve(pending, final, countSuccess);
      EvolvesTransitive(start, s0, world.net);
      lost := dropped;
      if out.Done? {
        CoversStep(submitted, origin, pending, verdicts, next, before, applied, final, dropped);
        if final {
          lost := dropped + Picked(pending, verdicts, Dropped);
        } else {
          Whole(dropped, dropped);
        }
      }
    }

    // The wait for the next block between two passes
    method WaitBetweenPasses(pending: seq<Change>, ghost start: Net) returns (out: Outcome, next: seq<Change>)
      requires InOrder(world.net, Books(), lastCredited, pending) && Evolves(start, world.net)
      modifies world
      ensures InOrder(world.net, Books(), lastCredited, next) && Evolves(start, world.net)
      ensures out.Done? ==> next == pending && world.net.moves < old(world.net).moves
      ensures Evolves(old(world.net), world.net)
      ensures out.Raised? ==> next == []
    {
      ghost var s0 := world.net;
      var r, lowest, polled, seen := WaitForNextBlock();
      EvolvesTransitive(start, s0, world.net);
      InOrderStays(s0, world.net, Books(), lastCredited, pending);
      if r.None? {
        KeepOrderWithout(world.net, Books(), lastCredited, pending);
        return Raised(NoNextBlock), [];
      }
      return Done, pending;
    }

    // A pass of the loop below, and the wait before the next one
    method PendingPass(pending: seq<Change>, final: bool, countSuccess: bool,
                       ghost submitted: seq<Change>, ghost origin: seq<Change>, ghost dropped: seq<Change>, ghost start: Net)
      returns (out: Outcome, next: seq<Change>, ghost lost: seq<Change>)
      requires InOrder(world.net, Books(), lastCredited, pending) && Evolves(start, world.net)
      requires Covers(submitted, origin, applied, pending, dropped) && pending != []
      modifies world, this`ledger, this`lastCredited, this`applied, this`successes
      ensures InOrder(world.net, Books(), lastCredited, next) && Evolves(start, world.net)
      ensures out.Raised? ==> next == []
      ensures out.Done? ==> Covers(submitted, origin, applied, next, lost)
      ensures out.Done? && final ==> next == []
      ensures !final ==> lost == dropped
      ensures |old(applied)| <= |applied|
      ensures successes == old(successes) + if countSuccess then |applied| - |old(applied)| else 0
      ensures out.Done? && next != [] ==> world.net.moves < old(world.net).moves
      ensures world.net.moves <= old(world.net).moves && old(world.net).now <= world.net.now
    {
      var height: nat;
      ghost var since: Net;
      out, height, next, since, lost := SettlePass(pending, final, countSuccess, submitted, origin, dropped, start);
      if out.Done? && next != [] {
        out, next := WaitBetweenPasses(next, start);
      }
    }

    /** Retries changes until they confirm or the deadline passes; the pass after the deadline
        drops what is left.  No comparison with the wallets. */
    method SettlePending(submitted: seq<Change>, countSuccess: bool)
      returns (out: Outcome, ghost finals: nat, ghost dropped: seq<Change>)
      requires InOrder(world.net, Books(), lastCredited, submitted)
      modifies world, this`ledger, this`lastCredited, this`applied, this`successes
      ensures Evolves(old(world.net), world.net)
      ensures InOrder(world.net, Books(), lastCredited, [])
      ensures out.Done? ==> Covers(submitted, old(applied), applied, [], dropped)
      ensures finals <= 1 && (finals == 0 ==> dropped == [])
      ensures finals == 1 ==> old(world.net).now + SETTLE_TIMEOUT_SECONDS <= world.net.now
      ensures |old(applied)| <= |applied|
      ensures successes == old(successes) + if countSuccess then |applied| - |old(applied)| else 0
    {
      ghost var start := world.net;
      var deadline := world.net.now + SETTLE_TIMEOUT_SECONDS;
      var pending := submitted;
      out, finals, dropped := Done, 0, [];
      while out.Done? && pending != []
        invariant InOrder(world.net, Books(), lastCredited, pending) && Evolves(start, world.net)
        invariant out.Done? ==> Covers(submitted, old(applied), applied, pending, dropped)
        invariant out.Raised? ==> pending == []
        invariant finals <= 1 && (finals == 1 ==> pending == []) && (finals == 0 ==> dropped == [])
        invariant finals == 1 ==> deadline <= world.net.now
        invariant |old(applied)| <= |applied|
        invariant successes == old(successes) + if countSuccess then |applied| - |old(applied)| else 0
        decreases world.net.moves, |pending|
      {
        var final := world.net.now >= deadline;
        out, pending, dropped := PendingPass(pending, final, countSuccess, submitted, old(applied), dropped, start);
        if final {
          finals := finals + 1;
        }
      }
    }

    // The entries in which ledger and wallets differ
    method DiffBalances(height: nat, pairs: seq<(Node, Asset)>, actual: map<(Node, Asset), int>)
      returns (found: seq<Mismatch>)
      requires forall p :: p in pairs ==> p in actual
      ensures found == Report(height, ledger, actual, pairs)
    {
      found := [];
      for i := 0 to |pairs|
        invariant found == Report(height, ledger, actual, pairs[..i])
      {
        assert pairs[..i + 1][..i] == pairs[..i];
        var p := pairs[i];
        var expected := Get(ledger, p.0, p.1);
        if Differ(p.1, expected, actual[p]) {
          found := found + [Mismatch(height, p.0, p.1, expected, actual[p])];
        }
      }
      Whole(pairs, pairs);
    }

    // Polls every height again: did any of them move away from `height` since they agreed?
    method Recheck(height: nat, ghost since: Net, ghost mid: Net) returns (moved: bool, ghost p: Pass)
      requires ValidNet(world.net) && Evolves(since, mid) && Evolves(mid, world.net)
      requires forall n: Node :: HeightSample(since, mid, n, Some(height))
      modifies world
      ensures ValidNet(world.net) && Evolves(old(world.net), world.net) && Evolves(mid, world.net)
      ensures IsPass(p) && p.since == since && p.height == height
      ensures p.third == old(world.net) && p.after == world.net
      ensures moved <==> p.Discarded()
      ensures moved ==> world.net.moves < since.moves
      ensures !moved ==> forall n: Node :: HeightSample(old(world.net), world.net, n, Some(height))
    {
      ghost var third := world.net;
      var seen := AllHeights();
      EvolvesTransitive(mid, third, world.net);
      moved := !(forall i :: 0 <= i < NODE_COUNT ==> seen[i] == Some(height));
      p := Pass(since, mid, third, world.net, height, seen);
      if moved {
        ghost var i: Node :| seen[i] != Some(height);
        DiscardMeansMoved(since, mid, third, world.net, i, height, seen[i]);
      } else {
        forall n: Node ensures HeightSample(third, world.net, n, Some(height)) {
          assert HeightSample(third, world.net, n, seen[n]);
        }
      }
    }

    // Reads the balances of every pair, then polls every height again
    method ReadAndRecheck(height: nat, ghost pending: seq<Change>, ghost since: Net)
      returns (look: Look, actual: map<(Node, Asset), int>, ghost c: Comparison, ghost p: Pass)
      requires InOrder(world.net, Books(), height, pending) && Evolves(since, world.net)
      requires forall n: Node :: HeightSample(since, world.net, n, Some(height))
      modifies world
      ensures InOrder(world.net, Books(), height, pending) && Evolves(old(world.net), world.net)
      ensures look == Agreed ==> Trusted(c) && OfPass(c, p)
      ensures c.height == height && c.acc == Books() && c.pending == pending && c.actual == actual
      ensures look == Agreed ==> forall p :: p in c.Pairs() ==> p in actual
      ensures look == Moved ==> world.net.moves < since.moves
      ensures IsPass(p) && p.since == since && p.after == world.net
      ensures look != Unanswered ==> (look == Moved <==> p.Discarded())
    {
      ghost var mid := world.net;
      ghost var readAt: map<(Node, Asset), nat>;
      var answered: bool;
      answered, actual, readAt := FetchBalances(Compared(AllNodes(), Assets(colors)));
      ghost var third := world.net;
      InOrderStays(mid, third, Books(), height, pending);
      var moved: bool;
      moved, p := Recheck(height, since, mid);
      InOrderStays(third, world.net, Books(), height, pending);
      c := Comparison(since, world.net, height, Books(), pending, actual, readAt);
      if !answered {
        look := Unanswered;
      } else if moved {
        look := Moved;
      } else {
        look := Agreed;
        ComparisonTrusted(since, mid, third, world.net, height, Books(), pending, actual, readAt);
      }
    }

    // Between two passes over what is left of `submitted`
    ghost predicate Verifying(submitted: seq<Change>, origin: seq<Change>, counted: nat, pending: seq<Change>)
      reads this, world
    {
      && InOrder(world.net, Books(), lastCredited, pending)
      && Covers(submitted, origin, applied, pending, []) && CountedFrom(|origin|, counted)
    }

    // The loop was left by an error
    ghost predicate Abandoned(origin: seq<Change>, counted: nat)
      reads this, world
    {
      InOrder(world.net, Books(), lastCredited, []) && CountedFrom(|origin|, counted)
    }

    // What the comparison of the last pass found, and what was still pending then
    ghost predicate VerifiedNow(c: Comparison, submitted: seq<Change>, origin: seq<Change>, pending: seq<Change>,
                            found: seq<Mismatch>)
      reads this
    {
      IsVerified(c, submitted, origin, pending, found) && c.acc.applied == applied
    }

    // The comparison of a pass that has agreed on a height
    method CompareAt(height: nat, pending: seq<Change>, ghost submitted: seq<Change>, ghost origin: seq<Change>,
                     ghost counted: nat, ghost since: Net)
      returns (look: Look, found: seq<Mismatch>, ghost c: Comparison, ghost p: Pass)
      requires Verifying(submitted, origin, counted, pending) && lastCredited == height
      requires Evolves(since, world.net) && forall n: Node :: HeightSample(since, world.net, n, Some(height))
      modifies world
      ensures Verifying(submitted, origin, counted, pending) && Evolves(old(world.net), world.net)
      ensures look == Agreed ==> VerifiedNow(c, submitted, origin, pending, found) && OfPass(c, p)
      ensures look == Moved ==> world.net.moves < since.moves
      ensures IsPass(p) && p.since == since && p.after == world.net
      ensures look != Unanswered ==> (look == Moved <==> p.Discarded())
    {
      found := [];
      var actual: map<(Node, Asset), int>;
      look, actual, c, p := ReadAndRecheck(height, pending, since);
      if look == Agreed {
        found := DiffBalances(height, Compared(AllNodes(), Assets(colors)), actual);
      }
    }

    // A settle pass followed by a comparison
    method VerifyPass(pending: seq<Change>, ghost submitted: seq<Change>, ghost origin: seq<Change>, ghost counted: nat)
      returns (out: Outcome, look: Look, next: seq<Change>, found: seq<Mismatch>, ghost c: Comparison, ghost p: Pass)
      requires Verifying(submitted, origin, counted, pending)
      modifies world, this`ledger, this`lastCredited, this`applied, this`successes
      ensures out.Done? ==> Verifying(submitted, origin, counted, next) && look != Unanswered
      ensures out.Raised? ==> Abandoned(origin, counted) && next == []
      ensures Evolves(old(world.net), world.net)
      ensures out.Done? && look == Moved ==> world.net.moves < old(world.net).moves
      ensures out.Done? && look == Agreed ==> VerifiedNow(c, submitted, origin, next, found) && OfPass(c, p)
      ensures out.Done? ==> IsPass(p) && Evolves(old(world.net), p.since) && p.after == world.net
      ensures out.Done? ==> (look == Moved <==> p.Discarded())
    {
      ghost var start := world.net;
      look, found := Unanswered, [];
      c := Comparison(start, start, 0, Books(), pending, map[], map[]);
      p := Pass(start, start, start, start, 0, []);
      var height: nat;
      ghost var since: Net, lost: seq<Change>;
      out, height, next, since, lost := SettlePass(pending, false, true, submitted, origin, [], start);
      if out.Raised? {
        return;
      }
      ghost var s1 := world.net;
      look, found, c, p := CompareAt(height, next, submitted, origin, counted, since);
      EvolvesTransitive(start, s1, world.net);
      if look == Unanswered {
        KeepOrderWithout(world.net, Books(), lastCredited, next);
        out, next := Raised(NodeUnreachable), [];
      }
    }

    // A pass, and the wait for a block when it is to be repeated because something is pending
    method VerifyTurn(pending: seq<Change>, deadline: nat, ghost submitted: seq<Change>, ghost origin: seq<Change>,
                      ghost counted: nat)
      returns (out: Outcome, more: bool, next: seq<Change>, found: seq<Mismatch>, ghost c: Comparison,
               ghost turn: seq<Pass>)
      requires Verifying(submitted, origin, counted, pending)
      modifies world, this`ledger, this`lastCredited, this`applied, this`successes
      ensures out.Done? ==> Verifying(submitted, origin, counted, next)
      ensures out.Raised? ==> Abandoned(origin, counted) && next == []
      ensures Evolves(old(world.net), world.net)
      ensures IsTurn(turn, deadline, old(world.net), world.net, out.Done? && more)
      ensures out.Done? && !more ==> VerifiedNow(c, submitted, origin, next, found) && Decides(turn, c)
      ensures out.Done? && !more && found != [] ==> next == [] || deadline <= world.net.now
    {
      ghost var start := world.net;
      ghost var p: Pass;
      var look: Look;
      out, look, next, found, c, p := VerifyPass(pending, submitted, origin, counted);
      turn, more := if out.Done? then [p] else [], look == Moved;
      if out.Done? && look == Agreed && found != [] && next != [] && world.net.now < deadline {
        more := true;
        out, next := WaitForAnother(next, submitted, origin, counted, start);
      }
    }

    method WaitForAnother(pending: seq<Change>, ghost submitted: seq<Change>, ghost origin: seq<Change>,
                          ghost counted: nat, ghost start: Net)
      returns (out: Outcome, next: seq<Change>)
      requires Verifying(submitted, origin, counted, pending) && Evolves(start, world.net)
      modifies world
      ensures out.Done? ==> Verifying(submitted, origin, counted, next) && world.net.moves < start.moves
      ensures out.Raised? ==> Abandoned(origin, counted) && next == []
      ensures Evolves(start, world.net) && Evolves(old(world.net), world.net)
    {
      out, next := WaitBetweenPasses(pending, start);
    }

    /** Repeats passes until one that was not discarded finds no difference, or finds one that
        nothing pending can still explain in time.  A pass that was not discarded is followed by
        another only before the deadline. */
    method VerifyUntilDecided(submitted: seq<Change>, deadline: nat)
      returns (out: Outcome, pending: seq<Change>, found: seq<Mismatch>, ghost c: Comparison, ghost passes: seq<Pass>)
      requires InOrder(world.net, Books(), lastCredited, submitted)
      modifies world, this`ledger, this`lastCredited, this`applied, this`successes
      ensures out.Done? ==> Verifying(submitted, old(applied), old(successes), pending)
      ensures out.Raised? ==> Abandoned(old(applied), old(successes)) && pending == []
      ensures Evolves(old(world.net), world.net)
      ensures out.Done? ==> VerifiedNow(c, submitted, old(applied), pending, found)
      ensures out.Done? && found != [] ==> pending == [] || deadline <= world.net.now
      ensures AreLoop(old(world.net), passes, deadline, world.net)
      ensures out.Done? ==> Decides(passes, c)
    {
      ghost var start := world.net;
      pending, passes := submitted, [];
      var more := true;
      while true
        invariant Verifying(submitted, old(applied), old(successes), pending)
        invariant Evolves(start, world.net)
        invariant MayGoOn(start, passes, deadline, world.net)
        decreases world.net.moves
      {
        ghost var before := world.net;
        ghost var turn: seq<Pass>;
        out, more, pending, found, c, turn :=
          VerifyTurn(pending, deadline, submitted, old(applied), old(successes));
        EvolvesTransitive(start, before, world.net);
        TurnOver(start, passes, deadline, before, turn, world.net, out.Done? && more);
        passes := passes + turn;
        if out.Raised? || !more {
          return;
        }
      }
    }

    // The comparison of a round, and the final pass if it came too late for what is pending
    method CompareOrDrop(submitted: seq<Change>, deadline: nat)
      returns (out: Outcome, found: seq<Mismatch>, ghost c: Comparison, ghost passes: seq<Pass>)
      requires InOrder(world.net, Books(), lastCredited, submitted)
      modifies world, this`ledger, this`lastCredited, this`applied, this`successes
      ensures InOrder(world.net, Books(), lastCredited, []) && Evolves(old(world.net), world.net)
      ensures out.Done? ==> IsVerified(c, submitted, old(applied), c.pending, found)
      ensures out.Done? ==> Drawn(submitted, old(applied), applied, [])
      ensures out.Done? && found != [] ==> c.pending == [] || deadline <= world.net.now
      ensures CountedFrom(|old(applied)|, old(successes))
      ensures AreLoop(old(world.net), passes, deadline, world.net)
      ensures out.Done? ==> Decides(passes, c)
    {
      ghost var start := world.net;
      var pending: seq<Change>;
      out, pending, found, c, passes := VerifyUntilDecided(submitted, deadline);
      ghost var decided, reached := applied, world.net;
      if out.Done? && found != [] && pending != [] {
        out := FinalPass(pending);
        EvolvesTransitive(start, reached, world.net);
        LoopWidens(start, passes, deadline, reached, world.net);
        if out.Done? {
          DrawnThen(submitted, old(applied), decided, pending, applied, []);
        }
      } else {
        KeepOrderWithout(world.net, Books(), lastCredited, pending);
      }
    }

    /** Compares the ledger with the wallets after a round.  A pass during which a height moved
        is discarded.  A difference is retried at the next block while something is pending and
        the deadline has not passed; otherwise it is recorded. */
    method SettleAndVerify(submitted: seq<Change>)
      returns (out: Outcome, found: seq<Mismatch>, ghost c: Comparison, ghost passes: seq<Pass>)
      requires InOrder(world.net, Books(), lastCredited, submitted)
      modifies world, this`ledger, this`lastCredited, this`applied, this`successes, this`mismatches
      ensures InOrder(world.net, Books(), lastCredited, []) && Evolves(old(world.net), world.net)
      ensures mismatches == old(mismatches) + if out.Done? then found else []
      ensures out.Done? ==> IsVerified(c, submitted, old(applied), c.pending, found)
      ensures out.Done? ==> Drawn(submitted, old(applied), applied, [])
      ensures out.Done? && found != [] ==>
                c.pending == [] || old(world.net).now + SETTLE_TIMEOUT_SECONDS <= world.net.now
      ensures CountedFrom(|old(applied)|, old(successes))
      ensures AreLoop(old(world.net), passes, old(world.net).now + SETTLE_TIMEOUT_SECONDS, world.net)
      ensures out.Done? ==> Decides(passes, c)
    {
      out, found, c, passes := CompareOrDrop(submitted, world.net.now + SETTLE_TIMEOUT_SECONDS);
      Whole(mismatches, mismatches);
      if out.Done? {
        mismatches := mismatches + found;
      }
    }

    // The last pass after the deadline, which drops what never confirmed
    method FinalPass(pending: seq<Change>) returns (out: Outcome)
      requires InOrder(world.net, Books(), lastCredited, pending)
      modifies world, this`ledger, this`lastCredited, this`applied, this`successes
      ensures InOrder(world.net, Books(), lastCredited, []) && Evolves(old(world.net), world.net)
      ensures out.Done? ==> Drawn(pending, old(applied), applied, [])
      ensures CountedFrom(|old(applied)|, old(successes))
    {
      ghost var before := applied;
      var height: nat, still: seq<Change>;
      ghost var since: Net, verdicts: seq<Verdict>;
      out, height, still, since, verdicts := AdvanceLedgerAndResolve(pending, true, true);
      if out.Done? {
        DecidedDraws(pending, verdicts, still, before, applied, true);
      }
      KeepOrderWithout(world.net, Books(), lastCredited, still);
    }

    // ---- building transactions ----

    // One wallet transaction, as part of an operation whose earlier ones are `ids`
    method SendOne(owner: Node, ids: seq<TxId>, more: seq<Delta>, ghost deltas: seq<Delta>, ghost start: Net)
      returns (r: Option<seq<TxId>>)
      requires ValidNet(world.net) && Evolves(start, world.net)
      requires Sent(start.effects, world.net.effects, owner, ids, deltas)
      modifies world
      ensures ValidNet(world.net) && Evolves(start, world.net)
      ensures r.Some? ==> Sent(start.effects, world.net.effects, owner, r.value, deltas + more)
    {
      ghost var before := world.net;
      var id := world.Broadcast(owner, more);
      EvolvesTransitive(start, before, world.net);
      if id.None? {
        return None;
      }
      SentOneMore(start.effects, before.effects, world.net.effects, owner, ids, deltas, id.value, more);
      r := Some(ids + [id.value]);
    }

    // The transactions of one operation: first some that move nothing but their own fee, then
    // the one that moves `deltas`.  Failing in between leaves the earlier ones broadcast.
    method SendOperation(owner: Node, preparatory: nat, deltas: seq<Delta>) returns (r: Option<seq<TxId>>)
      requires ValidNet(world.net)
      modifies world
      ensures ValidNet(world.net) && Evolves(old(world.net), world.net)
      ensures r.Some? ==> Sent(old(world.net).effects, world.net.effects, owner, r.value, deltas)
    {
      ghost var start := world.net;
      var ids: seq<TxId> := [];
      for i := 0 to preparatory
        invariant ValidNet(world.net) && Evolves(start, world.net)
        invariant Sent(start.effects, world.net.effects, owner, ids, [])
      {
        var step := SendOne(owner, ids, [], [], start);
        if step.None? {
          return None;
        }
        ids := step.value;
      }
      Whole([], deltas);
      r := SendOne(owner, ids, deltas, [], start);
    }

    // Turns an operation into a change that joins the pending ones
    method Submit(owner: Node, preparatory: nat, deltas: seq<Delta>, ghost pending: seq<Change>)
      returns (r: Option<Change>)
      requires InOrder(world.net, Books(), lastCredited, pending) && Made(deltas)
      modifies world
      ensures Evolves(old(world.net), world.net)
      ensures r.Some? ==> r.value.node == owner && r.value.deltas == deltas && |r.value.txids| > 0
      ensures InOrder(world.net, Books(), lastCredited, Joined(pending, r))
    {
      ghost var start := world.net;
      var ids := SendOperation(owner, preparatory, deltas);
      if ids.None? {
        InOrderStays(start, world.net, Books(), lastCredited, pending);
        return None;
      }
      var c := Change(owner, ids.value, deltas);
      assert Faithful(world.net.effects, c);
      SubmitKeepsOrder(start, world.net, Books(), lastCredited, pending, c);
      r := Some(c);
    }

    // sendtoaddress
    method SendTpc(sender: Node, target: Node, amount: int, ghost pending: seq<Change>) returns (r: Option<Change>)
      requires InOrder(world.net, Books(), lastCredited, pending)
      modifies world
      ensures Evolves(old(world.net), world.net)
      ensures InOrder(world.net, Books(), lastCredited, Joined(pending, r))
      ensures r.Some? ==> r.value.deltas == TransferDeltas(sender, target, TPC, amount)
    {
      r := Submit(sender, 0, TransferDeltas(sender, target, TPC, amount), pending);
    }

    // Issues a colour nobody has used; only a call that succeeded makes it the node's own
    method IssueColor(n: Node, ghost pending: seq<Change>) returns (r: Option<Change>)
      requires InOrder(world.net, Books(), lastCredited, pending)
      modifies world, this`colors
      ensures Evolves(old(world.net), world.net)
      ensures InOrder(world.net, Books(), lastCredited, Joined(pending, r))
      ensures r.None? ==> colors == old(colors)
      ensures r.Some? ==>
                && |colors| == |old(colors)| == NODE_COUNT && colors[n].Some?
                && colors == old(colors)[n := colors[n]]
                && r.value.deltas == MintDeltas(n, colors[n].value, IssueAmount(n))
    {
      ghost var start := world.net;
      var color := world.FreshColor();
      InOrderStays(start, world.net, Books(), lastCredited, pending);
      if color.None? {
        return None;
      }
      FreshIsNew(world.net, Books(), lastCredited, pending, color.value);
      ghost var issued := world.net;
      var components: nat :| 0 <= components;
      var amount := IssueAmount(n);
      var preparatory := if TokenTypeOf(n) == REISSUABLE then components else 1;
      r := Submit(n, preparatory, MintDeltas(n, color.value, amount), pending);
      EvolvesTransitive(start, issued, world.net);
      if r.Some? {
        NewColorStays(issued, world.net, seedHeight, color.value);
        Recolor(n, color.value, Joined(pending, r));
      }
    }

    method Recolor(n: Node, color: nat, ghost pending: seq<Change>)
      requires InOrder(world.net, Books(), lastCredited, pending) && NewColor(world.net, seedHeight, color)
      modifies this`colors
      ensures InOrder(world.net, Books(), lastCredited, pending)
      ensures |old(colors)| == NODE_COUNT && colors == old(colors)[n := Some(color)]
    {
      ghost var acc := Books();
      colors := colors[n := Some(color)];
      assert Books() == acc.(colors := colors);
    }

    // Sends one token to an address the target gives for it
    method TransferColor(sender: Node, target: Node, color: nat, ghost pending: seq<Change>) returns (r: Option<Change>)
      requires InOrder(world.net, Books(), lastCredited, pending)
      modifies world
      ensures Evolves(old(world.net), world.net)
      ensures InOrder(world.net, Books(), lastCredited, Joined(pending, r))
      ensures r.Some? ==> r.value.deltas == TransferDeltas(sender, target, Color(color), ROUND_SEND_AMOUNT_TOKEN)
    {
      ghost var start := world.net;
      var ok := world.Answers(target);
      InOrderStays(start, world.net, Books(), lastCredited, pending);
      if !ok {
        return None;
      }
      ghost var asked := world.net;
      r := Submit(sender, 0, TransferDeltas(sender, target, Color(color), ROUND_SEND_AMOUNT_TOKEN), pending);
      EvolvesTransitive(start, asked, world.net);
    }

    // Reissues the node's colour, or issues a new one where that is not possible
    method TopupColor(sender: Node, color: nat, ghost target: Node, ghost pending: seq<Change>)
      returns (r: Option<Change>)
      requires InOrder(world.net, Books(), lastCredited, pending) && colors[sender] == Some(color)
      modifies world, this`colors
      ensures Evolves(old(world.net), world.net)
      ensures InOrder(world.net, Books(), lastCredited, Joined(pending, r))
      ensures |colors| == |old(colors)| == NODE_COUNT && colors == old(colors)[sender := colors[sender]]
      ensures IsColorAct(sender, target, old(colors)[sender], colors[sender], r)
    {
      if TokenTypeOf(sender) == REISSUABLE {
        var components: nat :| 0 <= components;
        r := Submit(sender, components, MintDeltas(sender, color, TOKEN_TOPUP_AMOUNT), pending);
      } else {
        r := IssueColor(sender, pending);
      }
    }

    // The coloured action of a round: issue when the node has no colour yet, transfer when it
    // holds enough, otherwise top up
    method SendOrTopupColor(sender: Node, target: Node, ghost pending: seq<Change>) returns (r: Option<Change>)
      requires InOrder(world.net, Books(), lastCredited, pending)
      modifies world, this`colors
      ensures Evolves(old(world.net), world.net)
      ensures InOrder(world.net, Books(), lastCredited, Joined(pending, r))
      ensures |colors| == |old(colors)| == NODE_COUNT && colors == old(colors)[sender := colors[sender]]
      ensures IsColorAct(sender, target, old(colors)[sender], colors[sender], r)
    {
      if colors[sender].None? {
        r := IssueColor(sender, pending);
      } else {
        r := UseColor(sender, target, colors[sender].value, pending);
      }
    }

    method UseColor(sender: Node, target: Node, color: nat, ghost pending: seq<Change>) returns (r: Option<Change>)
      requires InOrder(world.net, Books(), lastCredited, pending) && colors[sender] == Some(color)
      modifies world, this`colors
      ensures Evolves(old(world.net), world.net)
      ensures InOrder(world.net, Books(), lastCredited, Joined(pending, r))
      ensures |colors| == |old(colors)| == NODE_COUNT && colors == old(colors)[sender := colors[sender]]
      ensures IsColorAct(sender, target, old(colors)[sender], colors[sender], r)
    {
      ghost var start := world.net;
      var balance := world.TryBalance(sender, Color(color));
      InOrderStays(start, world.net, Books(), lastCredited, pending);
      ghost var asked := world.net;
      if balance.None? {
        r := None;
      } else if balance.value >= ROUND_SEND_AMOUNT_TOKEN {
        r := TransferColor(sender, target, color, pending);
      } else {
        r := TopupColor(sender, color, target, pending);
      }
      EvolvesTransitive(start, asked, world.net);
    }

    // ---- the run ----

    // Funds the nodes that earn no coinbase, one transfer for each pair
    method FundUnfundedNodes() returns (changes: seq<Change>, ghost made: seq<Option<Change>>)
      requires InOrder(world.net, Books(), lastCredited, [])
      modifies world
      ensures InOrder(world.net, Books(), lastCredited, changes) && Evolves(old(world.net), world.net)
      ensures |made| == |FUNDING_PAIRS| && changes == Those(made) && AreFundings(made)
    {
      ghost var start := world.net;
      changes, made := [], [];
      for i := 0 to |FUNDING_PAIRS|
        invariant InOrder(world.net, Books(), lastCredited, changes) && Evolves(start, world.net)
        invariant |made| == i && changes == Those(made) && AreFundings(made)
      {
        ghost var before := world.net;
        var r := SendTpc(FUNDING_PAIRS[i].0, FUNDING_PAIRS[i].1, FUNDING_AMOUNT, changes);
        ThoseSnoc(made, r);
        FundingsSnoc(made, r);
        changes, made := Joined(changes, r), made + [r];
        EvolvesTransitive(start, before, world.net);
      }
    }

    // Every node issues its colour; only an issuance that succeeded gives it one
    method IssueColors() returns (changes: seq<Change>, ghost made: seq<Option<Change>>)
      requires InOrder(world.net, Books(), lastCredited, [])
      modifies world, this`colors
      ensures InOrder(world.net, Books(), lastCredited, changes) && Evolves(old(world.net), world.net)
      ensures |made| == NODE_COUNT && changes == Those(made) && AreMints(made, colors)
    {
      ghost var start := world.net;
      changes, made := [], [];
      for i := 0 to NODE_COUNT
        invariant InOrder(world.net, Books(), lastCredited, changes) && Evolves(start, world.net)
        invariant |made| == i && changes == Those(made) && AreMints(made, colors)
      {
        ghost var before, was := world.net, colors;
        var r := IssueColor(i, changes);
        ThoseSnoc(made, r);
        MintsSnoc(made, r, was, colors, i);
        changes, made := Joined(changes, r), made + [r];
        EvolvesTransitive(start, before, world.net);
      }
    }

    // What node i does in a round; each half may fail on its own
    method SendNodeRound(i: Node, round: nat, pending: seq<Change>)
      returns (tpc: Option<Change>, color: Option<Change>)
      requires 1 <= round && InOrder(world.net, Books(), lastCredited, pending)
      modifies world, this`colors
      ensures InOrder(world.net, Books(), lastCredited, Joined(Joined(pending, tpc), color))
      ensures Evolves(old(world.net), world.net)
      ensures tpc.Some? ==> tpc.value.deltas == RoundSend(i, round)
      ensures |colors| == |old(colors)| == NODE_COUNT && colors == old(colors)[i := colors[i]]
      ensures IsColorAct(i, RoundRobin.Target(i, round, NODE_COUNT), old(colors)[i], colors[i], color)
    {
      ghost var start := world.net;
      var target := RoundRobin.Target(i, round, NODE_COUNT);
      tpc := SendTpc(i, target, ROUND_SEND_AMOUNT_TPC, pending);
      ghost var sent := world.net;
      color := SendOrTopupColor(i, target, Joined(pending, tpc));
      EvolvesTransitive(start, sent, world.net);
    }

    /** One round: every node sends TPC to its round-robin target and acts on its colour.  The
        changes come in node order, TPC before colour. */
    method SendRound(round: nat)
      returns (changes: seq<Change>, ghost tpc: seq<Option<Change>>, ghost color: seq<Option<Change>>)
      requires 1 <= round && InOrder(world.net, Books(), lastCredited, [])
      modifies world, this`colors
      ensures InOrder(world.net, Books(), lastCredited, changes) && Evolves(old(world.net), world.net)
      ensures RoundMade(changes, round, tpc, color, old(colors), colors)
    {
      ghost var start := world.net;
      changes, tpc, color := [], [], [];
      for i := 0 to NODE_COUNT
        invariant InOrder(world.net, Books(), lastCredited, changes) && Evolves(start, world.net)
        invariant |tpc| == |color| == i && changes == InNodeOrder(tpc, color)
        invariant AreRoundSends(tpc, round) && AreColorActs(color, old(colors), colors, round)
      {
        ghost var before, was := world.net, colors;
        var t, c := SendNodeRound(i, round, changes);
        EvolvesTransitive(start, before, world.net);
        InNodeOrderSnoc(tpc, color, t, c);
        RoundSendsSnoc(tpc, t, i, round);
        ColorActsSnoc(color, c, old(colors), was, colors, i, round);
        changes := Joined(Joined(changes, t), c);
        tpc, color := tpc + [t], color + [c];
      }
    }

    // Waits for a block and credits the coinbase of every height not credited yet, through the
    // lowest height answered then: `actual`, answered by `lowest`
    method NextBlockWithCoinbase() returns (out: Outcome, ghost actual: nat, ghost lowest: Node)
      requires InOrder(world.net, Books(), lastCredited, [])
      modifies world, this`ledger, this`lastCredited
      ensures InOrder(world.net, Books(), lastCredited, []) && Evolves(old(world.net), world.net)
      ensures out.Raised? ==> lastCredited == old(lastCredited)
      ensures out.Done? ==> lastCredited == Max(old(lastCredited), actual)
      ensures out.Done? ==> HeightSample(old(world.net), world.net, lowest, Some(actual))
    {
      ghost var start := world.net;
      var next, first, before, seen := WaitForNextBlock();
      InOrderStays(start, world.net, Books(), lastCredited, []);
      if next.None? {
        return Raised(NoNextBlock), 0, 0;
      }
      actual, lowest := CreditCurrent(start);
      out := Done;
    }

    method CreditCurrent(ghost start: Net) returns (ghost actual: nat, ghost lowest: Node)
      requires InOrder(world.net, Books(), lastCredited, []) && Evolves(start, world.net)
      modifies world, this`ledger, this`lastCredited
      ensures InOrder(world.net, Books(), lastCredited, []) && Evolves(start, world.net)
      ensures lastCredited == Max(old(lastCredited), actual)
      ensures HeightSample(start, world.net, lowest, Some(actual))
    {
      ghost var arrived := world.net;
      var height;
      height, lowest := CurrentHeight();
      InOrderStays(arrived, world.net, Books(), lastCredited, []);
      ghost var polled := world.net;
      actual := height.value;
      CreditThrough(height.value, []);
      HeightSampleWidens(start, arrived, polled, world.net, lowest, height);
      EvolvesTransitive(start, arrived, polled);
      EvolvesTransitive(start, polled, world.net);
    }

    // Three blocks of coinbase, then funding and issuance; nothing else is applied
    method SetUp() returns (out: Outcome, ghost paid: seq<Option<Change>>, ghost minted: seq<Option<Change>>)
      requires InOrder(world.net, Books(), lastCredited, [])
      modifies world, this`ledger, this`lastCredited, this`applied, this`successes, this`colors
      ensures InOrder(world.net, Books(), lastCredited, [])
      ensures successes == old(successes)
      ensures out.Done? ==> SetUpMade(old(applied), applied, paid, minted, colors)
    {
      paid, minted := [], [];
      for i := 0 to 3
        invariant InOrder(world.net, Books(), lastCredited, []) && successes == old(successes)
        invariant applied == old(applied)
      {
        ghost var actual: nat, lowest: Node;
        out, actual, lowest := NextBlockWithCoinbase();
        if out.Raised? {
          return;
        }
      }
      out, paid := FundAndSettle();
      if out.Done? {
        ghost var funded := applied;
        out, minted := IssueAndSettle();
        if out.Done? {
          DrawnBoth(Those(paid), Those(minted), old(applied), funded, applied);
        }
      }
    }

    method FundAndSettle() returns (out: Outcome, ghost paid: seq<Option<Change>>)
      requires InOrder(world.net, Books(), lastCredited, [])
      modifies world, this`ledger, this`lastCredited, this`applied, this`successes
      ensures InOrder(world.net, Books(), lastCredited, []) && successes == old(successes)
      ensures |paid| == |FUNDING_PAIRS| && AreFundings(paid)
      ensures out.Done? ==> Drawn(Those(paid), old(applied), applied, [])
    {
      var funding: seq<Change>;
      funding, paid := FundUnfundedNodes();
      ghost var finals: nat, dropped: seq<Change>;
      out, finals, dropped := SettlePending(funding, false);
    }

    method IssueAndSettle() returns (out: Outcome, ghost minted: seq<Option<Change>>)
      requires InOrder(world.net, Books(), lastCredited, [])
      modifies world, this`ledger, this`lastCredited, this`applied, this`successes, this`colors
      ensures InOrder(world.net, Books(), lastCredited, []) && successes == old(successes)
      ensures |minted| == NODE_COUNT && AreMints(minted, colors)
      ensures out.Done? ==> Drawn(Those(minted), old(applied), applied, [])
    {
      var issuance: seq<Change>;
      issuance, minted := IssueColors();
      ghost var finals: nat, dropped: seq<Change>;
      out, finals, dropped := SettlePending(issuance, false);
    }

    // Sends a round and settles it
    method SendAndSettle(round: nat) returns (out: Outcome, ghost c: Comparison, ghost sent: seq<Change>)
      requires 1 <= round && InOrder(world.net, Books(), lastCredited, [])
      modifies world, this`ledger, this`lastCredited, this`applied, this`successes, this`mismatches, this`colors
      ensures InOrder(world.net, Books(), lastCredited, [])
      ensures mismatches == old(mismatches) + ReportOf(out, c)
      ensures out.Done? ==> Trusted(c)
      ensures CountedFrom(|old(applied)|, old(successes))
      ensures IsRound(sent, round) && (out.Done? ==> Drawn(sent, old(applied), applied, []))
    {
      ghost var tpc, color: seq<Option<Change>>;
      var pending: seq<Change>, found: seq<Mismatch>;
      pending, tpc, color := SendRound(round);
      sent := pending;
      ghost var passes: seq<Pass>;
      out, found, c, passes := SettleAndVerify(pending);
    }

    // Every change applied since then was counted as a success
    ghost predicate CountedFrom(n: nat, k: nat)
      reads `applied, `successes
    {
      n <= |applied| && successes == k + |applied| - n
    }

    // One round, sent and settled
    method Round(round: nat) returns (out: Outcome, ghost c: Comparison, ghost sent: seq<Change>)
      requires 1 <= round && InOrder(world.net, Books(), lastCredited, [])
      modifies world, this`ledger, this`lastCredited, this`applied, this`successes, this`mismatches, this`colors
      ensures InOrder(world.net, Books(), lastCredited, [])
      ensures mismatches == old(mismatches) + ReportOf(out, c)
      ensures out.Done? ==> Trusted(c)
      ensures CountedFrom(|old(applied)|, old(successes))
      ensures out.Done? ==> IsRound(sent, round) && Drawn(sent, old(applied), applied, [])
    {
      ghost var actual: nat, lowest: Node;
      out, actual, lowest := NextBlockWithCoinbase();
      c, sent := Comparison(world.net, world.net, 0, Books(), [], map[], map[]), [];
      Whole(mismatches, mismatches);
      if out.Done? {
        out, c, sent := SendAndSettle(round);
      }
    }

    // The rounds of a run, in order
    method RunRounds(rounds: nat)
      returns (out: Outcome, ghost compared: seq<Comparison>, ghost sent: seq<seq<Change>>)
      requires InOrder(world.net, Books(), lastCredited, []) && mismatches == []
      modifies world, this`ledger, this`lastCredited, this`applied, this`successes, this`mismatches, this`colors
      ensures AllTrusted(compared)
      ensures mismatches == AllReports(compared)
      ensures out.Done? ==> |compared| == rounds
      ensures CountedFrom(|old(applied)|, old(successes))
      ensures out.Done? ==> |sent| == rounds && AreRounds(sent) && FromRounds(sent, old(applied), applied)
    {
      compared, sent := [], [];
      for round := 0 to rounds
        invariant InOrder(world.net, Books(), lastCredited, [])
        invariant |compared| == |sent| == round
        invariant AllTrusted(compared) && AreRounds(sent)
        invariant mismatches == AllReports(compared)
        invariant CountedFrom(|old(applied)|, old(successes))
        invariant FromRounds(sent, old(applied), applied)
      {
        ghost var before := applied;
        ghost var c: Comparison, changes: seq<Change>;
        out, c, changes := Round(round + 1);
        if out.Raised? {
          return;
        }
        AllReportsSnoc(compared, c);
        RoundsSnoc(sent, changes, old(applied), before, applied);
        compared, sent := compared + [c], sent + [changes];
      }
      out := Done;
    }

    // The first changes applied are those of the set-up, and all later ones, which are exactly
    // those counted, were sent in the rounds
    ghost predicate IsStory(story: Story, rounds: nat)
      reads `applied, `successes
    {
      && story.setUp <= |applied| && successes == |applied| - story.setUp
      && SetUpMade([], applied[..story.setUp], story.paid, story.minted, story.colors)
      && |story.sent| == rounds && AreRounds(story.sent)
      && FromRounds(story.sent, applied[..story.setUp], applied)
    }

    /** The whole run.  It succeeds only if no round found a difference between the ledger and
        the wallets, and at least half of the round actions were applied, funding and issuance
        not counted.  When all its comparisons are clean it does not find a difference. */
    method Run(rounds: nat) returns (verdict: RunVerdict, ghost compared: seq<Comparison>, ghost story: Story)
      requires ValidNet(world.net) && colors == seq(NODE_COUNT, _ => None) && mismatches == [] && successes == 0
      modifies world, this
      ensures AllTrusted(compared)
      ensures mismatches == AllReports(compared) && (AllClean(compared) ==> mismatches == [])
      ensures !verdict.Stopped? ==> IsStory(story, rounds) && |compared| == rounds
      ensures verdict == Passed ==> mismatches == [] && successes >= Max(1, rounds * NODE_COUNT)
      ensures verdict == TooFewActions ==> successes < Max(1, rounds * NODE_COUNT)
      ensures verdict == BalancesDiffer ==> mismatches != []
    {
      compared, story := [], Story(0, [], [], [], []);
      var out := SeedLedger();
      if out.Done? {
        out, compared, story := RunFromSeed(rounds);
      }
      CleanReports(compared);
      if out.Raised? {
        verdict := Stopped(out.why);
      } else if successes < Max(1, rounds * NODE_COUNT) {
        verdict := TooFewActions;
      } else if mismatches != [] {
        verdict := BalancesDiffer;
      } else {
        verdict := Passed;
      }
    }

    // The set-up and the rounds
    method RunFromSeed(rounds: nat) returns (out: Outcome, ghost compared: seq<Comparison>, ghost story: Story)
      requires InOrder(world.net, Books(), lastCredited, [])
      requires mismatches == [] && successes == 0 && applied == []
      modifies world, this`ledger, this`lastCredited, this`applied, this`successes, this`mismatches, this`colors
      ensures AllTrusted(compared) && mismatches == AllReports(compared)
      ensures out.Done? ==> |compared| == rounds && IsStory(story, rounds)
    {
      compared, story := [], Story(0, [], [], [], []);
      ghost var paid, minted: seq<Option<Change>>;
      out, paid, minted := SetUp();
      if out.Done? {
        ghost var first, held := applied, colors;
        ghost var sent: seq<seq<Change>>;
        out, compared, sent := RunRounds(rounds);
        story := Story(|first|, paid, minted, held, sent);
        if out.Done? {
          assert applied[..|first|] == first;
        }
      }
    }
  }

  // What a run did: how many changes the set-up applied, what it tried to send then and which
  // colours it left, and what each round sent
  datatype Story = Story(setUp: nat, paid: seq<Option<Change>>, minted: seq<Option<Change>>,
                         colors: seq<Option<nat>>, sent: seq<seq<Change>>)

  // From origin to applied nothing came but fundings and issuances
  ghost predicate SetUpMade(origin: seq<Change>, applied: seq<Change>, paid: seq<Option<Change>>,
                            minted: seq<Option<Change>>, colors: seq<Option<nat>>)
  {
    && |paid| == |FUNDING_PAIRS| && AreFundings(paid)
    && |minted| == NODE_COUNT && AreMints(minted, colors)
    && Drawn(Those(paid) + Those(minted), origin, applied, [])
  }

  lemma DrawnBoth(s: seq<Change>, t: seq<Change>, origin: seq<Change>, mid: seq<Change>, applied: seq<Change>)
    requires Drawn(s, origin, mid, []) && Drawn(t, mid, applied, [])
    ensures Drawn(s + t, origin, applied, [])
  {
    forall k | |origin| <= k < |applied| ensures applied[k] in s + t {
      if k < |mid| {
        assert applied[k] == mid[k];
      }
    }
  }

  // The changes of one round: sends along the schedule, and one colour action of each node
  ghost predicate RoundMade(changes: seq<Change>, round: nat, tpc: seq<Option<Change>>, color: seq<Option<Change>>,
                            was: seq<Option<nat>>, now: seq<Option<nat>>)
    requires 1 <= round
  {
    && |tpc| == |color| == NODE_COUNT && changes == InNodeOrder(tpc, color)
    && AreRoundSends(tpc, round) && AreColorActs(color, was, now, round)
  }

  ghost predicate IsRound(changes: seq<Change>, round: nat)
    requires 1 <= round
  {
    exists tpc, color, was, now :: RoundMade(changes, round, tpc, color, was, now)
  }

  ghost predicate AreRounds(sent: seq<seq<Change>>)
  {
    forall r :: 0 <= r < |sent| ==> IsRound(sent[r], r + 1)
  }

  ghost predicate FromSome(sent: seq<seq<Change>>, c: Change)
  {
    exists r :: 0 <= r < |sent| && c in sent[r]
  }

  // From origin to applied nothing came but changes that were sent
  ghost predicate FromRounds(sent: seq<seq<Change>>, origin: seq<Change>, applied: seq<Change>)
  {
    origin <= applied && forall k :: |origin| <= k < |applied| ==> FromSome(sent, applied[k])
  }

  lemma RoundsSnoc(sent: seq<seq<Change>>, changes: seq<Change>, origin: seq<Change>, before: seq<Change>,
                   applied: seq<Change>)
    requires AreRounds(sent) && IsRound(changes, |sent| + 1)
    requires FromRounds(sent, origin, before) && Drawn(changes, before, applied, [])
    ensures AreRounds(sent + [changes]) && FromRounds(sent + [changes], origin, applied)
  {
    var all := sent + [changes];
    forall k | |origin| <= k < |applied| ensures FromSome(all, applied[k]) {
      if k < |before| {
        assert applied[k] == before[k];
        var r :| 0 <= r < |sent| && before[k] in sent[r];
        assert all[r] == sent[r];
      } else {
        assert all[|sent|] == changes;
      }
    }
  }

  // Nothing can hide or feign a difference in these comparisons
  ghost predicate AllClean(compared: seq<Comparison>)
    requires AllTrusted(compared)
  {
    forall i :: 0 <= i < |compared| ==> IsClean(compared[i])
  }

  ghost predicate IsClean(c: Comparison)
    requires Trusted(c)
  {
    AllTracked(c) && c.pending == [] && forall n: Node :: Steady(c.before, c.after, n)
  }

  /** A run whose comparisons all had every wallet transaction tracked, nothing pending and no
      node set back reports nothing at all. */
  lemma {:induction false} CleanReports(compared: seq<Comparison>)
    requires AllTrusted(compared)
    ensures AllClean(compared) ==> AllReports(compared) == []
  {
    if |compared| > 0 && AllClean(compared) {
      var last := compared[|compared| - 1];
      assert Trusted(last) && IsClean(last);
      CleanReports(compared[..|compared| - 1]);
      NoFalseMismatch(last);
    }
  }

  lemma AllReportsSnoc(compared: seq<Comparison>, c: Comparison)
    requires AllTrusted(compared)
    requires Trusted(c)
    ensures AllTrusted(compared + [c])
    ensures AllReports(compared + [c]) == AllReports(compared) + Report(c.height, c.acc.book, c.actual, c.Pairs())
  {
    assert (compared + [c])[..|compared|] == compared;
  }

  ghost predicate AllTrusted(compared: seq<Comparison>)
  {
    forall i :: 0 <= i < |compared| ==> Trusted(compared[i])
  }

  // What the comparisons of a run reported, in order
  ghost function AllReports(compared: seq<Comparison>): seq<Mismatch>
    requires AllTrusted(compared)
  {
    if |compared| == 0 then []
    else
      var c := compared[|compared| - 1];
      assert Trusted(c);
      AllReports(compared[..|compared| - 1]) + Report(c.height, c.acc.book, c.actual, c.Pairs())
  }

  // The changes of those operations that produced one, in order
  function Those(made: seq<Option<Change>>): seq<Change>
  {
    if |made| == 0 then [] else Joined(Those(made[..|made| - 1]), made[|made| - 1])
  }

  lemma ThoseSnoc(made: seq<Option<Change>>, r: Option<Change>)
    ensures Those(made + [r]) == Joined(Those(made), r)
  {
    assert (made + [r])[..|made|] == made;
  }

  // Operation i, where it succeeded, moves the funding amount between the nodes of pair i
  ghost predicate AreFundings(made: seq<Option<Change>>)
  {
    && |made| <= |FUNDING_PAIRS|
    && forall i :: 0 <= i < |made| && made[i].Some? ==>
         made[i].value.deltas == TransferDeltas(FUNDING_PAIRS[i].0, FUNDING_PAIRS[i].1, TPC, FUNDING_AMOUNT)
  }

  lemma FundingsSnoc(made: seq<Option<Change>>, r: Option<Change>)
    requires AreFundings(made) && |made| < |FUNDING_PAIRS|
    requires r.Some? ==>
               var p := FUNDING_PAIRS[|made|];
               r.value.deltas == TransferDeltas(p.0, p.1, TPC, FUNDING_AMOUNT)
    ensures AreFundings(made + [r])
  {
  }

  function IssueAmount(n: Node): int { if TokenTypeOf(n) == NFT then 1 else TOKEN_ISSUE_AMOUNT }

  // Operation i, where it succeeded, issues the colour node i now has
  ghost predicate AreMints(made: seq<Option<Change>>, colors: seq<Option<nat>>)
  {
    && |made| <= NODE_COUNT == |colors|
    && forall i: Node :: i < |made| && made[i].Some? ==>
         colors[i].Some? && made[i].value.deltas == MintDeltas(i, colors[i].value, IssueAmount(i))
  }

  lemma MintsSnoc(made: seq<Option<Change>>, r: Option<Change>, was: seq<Option<nat>>, colors: seq<Option<nat>>, i: Node)
    requires AreMints(made, was) && |made| == i
    requires r.None? ==> colors == was
    requires r.Some? ==>
               && |colors| == NODE_COUNT && colors[i].Some?
               && colors == was[i := colors[i]]
               && r.value.deltas == MintDeltas(i, colors[i].value, IssueAmount(i))
    ensures AreMints(made + [r], colors)
  {
  }

  // The changes of a round in node order, TPC before colour
  function InNodeOrder(tpc: seq<Option<Change>>, color: seq<Option<Change>>): seq<Change>
    requires |tpc| == |color|
  {
    if |tpc| == 0 then []
    else
      var last := |tpc| - 1;
      Joined(Joined(InNodeOrder(tpc[..last], color[..last]), tpc[last]), color[last])
  }

  lemma InNodeOrderSnoc(tpc: seq<Option<Change>>, color: seq<Option<Change>>, t: Option<Change>, c: Option<Change>)
    requires |tpc| == |color|
    ensures InNodeOrder(tpc + [t], color + [c]) == Joined(Joined(InNodeOrder(tpc, color), t), c)
  {
    assert (tpc + [t])[..|tpc|] == tpc && (color + [c])[..|tpc|] == color;
  }

  // The TPC send of node i in a round
  function RoundSend(i: Node, round: nat): seq<Delta>
    requires 1 <= round
  {
    TransferDeltas(i, RoundRobin.Target(i, round, NODE_COUNT), TPC, ROUND_SEND_AMOUNT_TPC)
  }

  // Each node's TPC change, where there is one, is its send of the round
  ghost predicate AreRoundSends(tpc: seq<Option<Change>>, round: nat)
    requires 1 <= round
  {
    |tpc| <= NODE_COUNT && forall i: Node :: i < |tpc| && tpc[i].Some? ==> tpc[i].value.deltas == RoundSend(i, round)
  }

  lemma RoundSendsSnoc(tpc: seq<Option<Change>>, t: Option<Change>, i: Node, round: nat)
    requires 1 <= round && |tpc| == i && AreRoundSends(tpc, round)
    requires t.Some? ==> t.value.deltas == RoundSend(i, round)
    ensures AreRoundSends(tpc + [t], round)
  {
  }

  // A colour action that was made: a transfer of the node's colour, or a top-up of it, or the
  // issuance of a new one, for a node that has none yet or cannot top up its own
  predicate IsColorAct(i: Node, target: Node, was: Option<nat>, now: Option<nat>, r: Option<Change>)
  {
    if r.None? then now == was
    else
      && now.Some?
      && (|| (now == was && r.value.deltas == TransferDeltas(i, target, Color(now.value), ROUND_SEND_AMOUNT_TOKEN))
          || (now == was && TokenTypeOf(i) == REISSUABLE
              && r.value.deltas == MintDeltas(i, now.value, TOKEN_TOPUP_AMOUNT))
          || ((was.None? || TokenTypeOf(i) != REISSUABLE)
              && r.value.deltas == MintDeltas(i, now.value, IssueAmount(i))))
  }

  // The colour actions of the first nodes of a round; the others still have their colours
  ghost predicate AreColorActs(color: seq<Option<Change>>, was: seq<Option<nat>>, now: seq<Option<nat>>, round: nat)
    requires 1 <= round
  {
    && |color| <= NODE_COUNT == |was| == |now|
    && forall i: Node ::
         if i < |color| then IsColorAct(i, RoundRobin.Target(i, round, NODE_COUNT), was[i], now[i], color[i])
         else now[i] == was[i]
  }

  lemma ColorActsSnoc(color: seq<Option<Change>>, r: Option<Change>, was: seq<Option<nat>>, mid: seq<Option<nat>>,
                      now: seq<Option<nat>>, i: Node, round: nat)
    requires 1 <= round && |color| == i && AreColorActs(color, was, mid, round)
    requires |now| == NODE_COUNT && now == mid[i := now[i]]
    requires IsColorAct(i, RoundRobin.Target(i, round, NODE_COUNT), mid[i], now[i], r)
    ensures AreColorActs(color + [r], was, now, round)
  {
  }

  function RoundSends(round: nat, upTo: nat): seq<Delta>
    requires 1 <= round && upTo <= NODE_COUNT
  {
    if upTo == 0 then [] else RoundSends(round, upTo - 1) + RoundSend(upTo - 1, round)
  }

  lemma {:induction false} RoundSendsNet(round: nat, upTo: nat, k: Node)
    requires 1 <= round && upTo <= NODE_COUNT
    ensures DeltaSum(RoundSends(round, upTo), k, TPC)
         == RoundRobin.NetTo(k, round, NODE_COUNT, ROUND_SEND_AMOUNT_TPC, upTo)
  {
    if upTo > 0 {
      RoundSendsNet(round, upTo - 1, k);
      var d := RoundSend(upTo - 1, round);
      DeltaSumConcat(RoundSends(round, upTo - 1), d, k, TPC);
      TwoDeltas(d[0], d[1], k, TPC);
    }
  }

  /** A round whose TPC sends all confirm changes no TPC balance, fees apart. */
  lemma FullRoundNetsToZero(round: nat, k: Node)
    requires 1 <= round
    ensures DeltaSum(RoundSends(round, NODE_COUNT), k, TPC) == 0
  {
    RoundSendsNet(round, NODE_COUNT, k);
    RoundRobin.RoundNetsToZero(k, round, NODE_COUNT, ROUND_SEND_AMOUNT_TPC);
  }

  lemma FreshIsNew(net: Net, acc: Account, last: nat, pending: seq<Change>, color: nat)
    requires InOrder(net, acc, last, pending)
    requires forall id :: id in net.effects ==> MovesNothing(net.effects[id].deltas, color)
    ensures NewColor(net, acc.seedHeight, color)
  {
  }

  // The first i transactions of a change are confirmed, and their fees come to `fee`
  ghost predicate Checked(net: Net, c: Change, i: nat, fee: int)
    requires net.Shape() && i <= |c.txids|
  {
    && Faithful(net.effects, c) && fee == FeesOf(net.effects, c.txids[..i])
    && forall id :: id in c.txids[..i] ==> Confirmed(net, id)
  }

  lemma StillChecked(a: Net, b: Net, c: Change, i: nat, fee: int)
    requires Evolves(a, b) && i <= |c.txids| && Checked(a, c, i, fee)
    ensures Checked(b, c, i, fee)
  {
    FaithfulStays(a, b, c);
    ChangeStays(a.effects, b.effects, c.txids[..i]);
    forall id | id in c.txids[..i]
      ensures Confirmed(b, id)
    {
      ConfirmedStays(a, b, id);
    }
  }

  lemma OneMoreChecked(net: Net, c: Change, i: nat, fee: int)
    requires ValidNet(net) && i < |c.txids| && Checked(net, c, i, fee) && net.height[c.node] <= |net.chain|
    requires c.txids[i] in Txs(net.chain[..net.height[c.node]])
    ensures Checked(net, c, i + 1, fee + net.effects[c.txids[i]].fee)
  {
    assert c.txids[..i + 1] == c.txids[..i] + [c.txids[i]];
    assert c.txids[..i + 1][..i] == c.txids[..i];
    assert Backed(net, net.height[c.node]);
  }
}
