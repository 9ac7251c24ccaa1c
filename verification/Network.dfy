/**
 The environment of the traffic generator: one growing chain, seven nodes that each sit
 somewhere on it, and a clock.  Every RPC first lets the environment move, so blocks,
 restarts and invalidations land between any two calls.

 Hypotheses about the environment, all of them in ValidNet and Evolves:
  - blocks are never replaced; a node sits on a prefix of the one chain;
  - the earner of a block holds it before any other node does;
  - earner nodes answer and never lose height; any other node may lose height, and each
    loss is counted in `cuts`;
  - time does not run backwards;
  - heights and reachability change at most `moves` more times (any number, but finite).
 */
module Network {
  import opened Options
  import opened Chain

  const RPC_READY_TIMEOUT_SECONDS: nat := 120
  const RPC_READY_POLL_INTERVAL_SECONDS: nat := 3

  datatype Net = Net(
    chain: seq<Block>, effects: Effects,
    height: seq<nat>, up: seq<bool>, cuts: seq<nat>, moves: nat, now: nat)
  {
    predicate Shape() {
      |height| == NODE_COUNT && |up| == NODE_COUNT && |cuts| == NODE_COUNT
    }

    // What a height poll of node n answers right now
    function Status(n: Node): Option<nat>
      requires Shape()
    {
      if up[n] then Some(height[n]) else None
    }
  }

  // Every block up to height v is held by the node that earned it
  predicate Backed(net: Net, v: nat)
    requires net.Shape()
  {
    v <= |net.chain| &&
    forall i :: 0 <= i < v ==> IsEarner(net.chain[i].earner) && net.height[net.chain[i].earner] > i
  }

  predicate ValidNet(net: Net) {
    && net.Shape()
    && (forall n :: 0 <= n < NODE_COUNT ==> Backed(net, net.height[n]))
    && net.up[0] && net.up[2] && net.up[4]
    && (forall id :: id in Txs(net.chain) ==> id in net.effects)
    && NoDup(Txs(net.chain))
  }

  predicate Evolves(a: Net, b: Net) {
    && a.Shape() && b.Shape()
    && a.chain <= b.chain
    && a.height[0] <= b.height[0] && a.height[2] <= b.height[2] && a.height[4] <= b.height[4]
    && (forall n :: 0 <= n < NODE_COUNT ==>
          a.cuts[n] <= b.cuts[n] && (a.cuts[n] == b.cuts[n] ==> a.height[n] <= b.height[n]))
    && (forall id :: id in a.effects ==> id in b.effects && b.effects[id] == a.effects[id])
    && a.now <= b.now
    && b.moves <= a.moves
    && (a.moves == b.moves ==> a.height == b.height && a.up == b.up)
  }

  lemma EvolvesTransitive(a: Net, b: Net, c: Net)
    requires Evolves(a, b) && Evolves(b, c)
    ensures Evolves(a, c)
  {
    forall n | 0 <= n < NODE_COUNT
      ensures a.cuts[n] <= c.cuts[n] && (a.cuts[n] == c.cuts[n] ==> a.height[n] <= c.height[n])
    {
      assert b.cuts[n] <= c.cuts[n];
    }
    forall id | id in a.effects
      ensures id in c.effects && c.effects[id] == a.effects[id]
    {
      assert id in b.effects;
    }
  }

  lemma BackedStays(a: Net, b: Net, v: nat)
    requires Evolves(a, b) && Backed(a, v)
    ensures Backed(b, v)
  {
    forall i | 0 <= i < v
      ensures IsEarner(b.chain[i].earner) && b.height[b.chain[i].earner] > i
    {
      assert a.chain[i] == b.chain[i];
    }
  }

  lemma BackedBelow(net: Net, v: nat, w: nat)
    requires net.Shape() && Backed(net, v) && w <= v
    ensures Backed(net, w)
  {
  }

  // What a node holding k blocks reports never depends on later events
  lemma BalanceStays(a: Net, b: Net, k: nat, n: Node, asset: Asset)
    requires ValidNet(a) && Evolves(a, b) && k <= |a.chain|
    ensures a.chain[..k] == b.chain[..k]
    ensures Balance(a.effects, a.chain[..k], n, asset) == Balance(b.effects, b.chain[..k], n, asset)
  {
    assert a.chain[..k] == b.chain[..k];
    forall id | id in Txs(a.chain[..k])
      ensures id in a.effects && id in b.effects && a.effects[id] == b.effects[id]
    {
      TxsMember(a.chain, k, id);
    }
    TxSumFrame(a.effects, b.effects, Txs(a.chain[..k]), n, asset);
  }

  // ---- samples: one answer taken at some moment between two states ----

  // n kept its height from a to b: it is an earner, or nothing was invalidated on it
  ghost predicate Steady(a: Net, b: Net, n: Node)
    requires a.Shape() && b.Shape()
  {
    IsEarner(n) || a.cuts[n] == b.cuts[n]
  }

  ghost predicate HeightSample(a: Net, b: Net, n: Node, v: Option<nat>)
    requires a.Shape() && b.Shape()
  {
    && (IsEarner(n) ==> v.Some?)
    && (v.Some? ==> Backed(b, v.value) && (Steady(a, b, n) ==> a.height[n] <= v.value <= b.height[n]))
    && (a.moves == b.moves ==> v == a.Status(n))
  }

  // `v` is the balance n reported while it sat at height k
  ghost predicate BalanceSample(a: Net, b: Net, n: Node, asset: Asset, k: nat, v: int)
    requires a.Shape() && b.Shape()
  {
    && Backed(b, k)
    && (Steady(a, b, n) ==> a.height[n] <= k <= b.height[n])
    && v == Balance(b.effects, b.chain[..k], n, asset)
  }

  lemma HeightSampleWidens(a: Net, b: Net, c: Net, d: Net, n: Node, v: Option<nat>)
    requires Evolves(a, b) && Evolves(b, c) && Evolves(c, d) && HeightSample(b, c, n, v)
    ensures HeightSample(a, d, n, v)
  {
    if v.Some? {
      BackedStays(c, d, v.value);
    }
    assert a.cuts[n] <= b.cuts[n] <= c.cuts[n] <= d.cuts[n];
  }

  lemma BalanceSampleWidens(a: Net, b: Net, c: Net, d: Net, n: Node, asset: Asset, k: nat, v: int)
    requires ValidNet(c)
    requires Evolves(a, b) && Evolves(b, c) && Evolves(c, d) && BalanceSample(b, c, n, asset, k, v)
    ensures BalanceSample(a, d, n, asset, k, v)
  {
    BackedStays(c, d, k);
    BalanceStays(c, d, k, n, asset);
    assert a.cuts[n] <= b.cuts[n] <= c.cuts[n] <= d.cuts[n];
  }

  // A height someone reported earlier is at most what the earners report later
  lemma BackedIsReported(a: Net, b: Net, c: Net, v: nat, h: nat, seen: seq<Option<nat>>)
    requires Evolves(a, b) && Evolves(b, c) && Backed(a, v)
    requires |seen| == NODE_COUNT
    requires forall n: Node :: HeightSample(b, c, n, seen[n])
    requires forall n: Node :: IsEarner(n) && seen[n].Some? ==> seen[n].value <= h
    ensures v <= h
  {
    if v > 0 {
      BackedStays(a, b, v);
      var e := b.chain[v - 1].earner;
      assert HeightSample(b, c, e, seen[e]);
    }
  }

  // ---- the reply of gettransaction ----

  datatype Category = Send | Receive | FeeEntry | Generate
  datatype Detail = Detail(category: Category, amount: int, fee: Option<int>)
  datatype TxReply = Unreachable | Missing | Seen(confirmations: int, details: seq<Detail>)

  // The fee sits either in an entry of its own or inside the send entry
  function ExtractFee(details: seq<Detail>): int
  {
    if |details| == 0 then 0
    else if details[0].category == FeeEntry then details[0].amount
    else if details[0].category == Send && details[0].fee.Some? then details[0].fee.value
    else ExtractFee(details[1..])
  }

  // An entry that tells the fee, in either of the two shapes
  predicate TellsFee(d: Detail) { d.category == FeeEntry || (d.category == Send && d.fee.Some?) }

  function ToldFee(d: Detail): int
    requires TellsFee(d)
  {
    if d.category == FeeEntry then d.amount else d.fee.value
  }

  // Some entry tells the fee, and all that do agree on it
  predicate TellsOnly(details: seq<Detail>, fee: int)
  {
    && (exists i :: 0 <= i < |details| && TellsFee(details[i]))
    && (forall i :: 0 <= i < |details| && TellsFee(details[i]) ==> ToldFee(details[i]) == fee)
  }

  /** The fee found is that of the first entry which tells one, wherever it stands among the
      others and in whichever shape, and 0 when no entry tells one. */
  lemma {:induction false} ExtractFeeIsFirstTold(details: seq<Detail>, k: nat)
    requires k <= |details| && (forall i :: 0 <= i < k ==> !TellsFee(details[i]))
    requires k < |details| ==> TellsFee(details[k])
    ensures ExtractFee(details) == if k < |details| then ToldFee(details[k]) else 0
  {
    if k > 0 {
      ExtractFeeIsFirstTold(details[1..], k - 1);
    }
  }

  lemma {:induction false} ExtractFeeFindsIt(details: seq<Detail>, fee: int)
    requires TellsOnly(details, fee)
    ensures ExtractFee(details) == fee
  {
    var k := 0;
    while !TellsFee(details[k])
      invariant k < |details| && forall i :: 0 <= i < k ==> !TellsFee(details[i])
      decreases |details| - k
    {
      var i :| 0 <= i < |details| && TellsFee(details[i]);
      k := k + 1;
    }
    ExtractFeeIsFirstTold(details, k);
  }

  // All of these transactions are in blocks that n has connected
  ghost predicate Shown(net: Net, n: Node, ids: seq<TxId>)
    requires net.Shape() && net.height[n] <= |net.chain|
  {
    forall id :: id in ids ==> id in Txs(net.chain[..net.height[n]])
  }

  lemma ShownStays(a: Net, b: Net, n: Node, id: TxId)
    requires Evolves(a, b) && ValidNet(a) && ValidNet(b) && Steady(a, b, n)
    requires id in Txs(a.chain[..a.height[n]])
    ensures id in Txs(b.chain[..b.height[n]])
  {
    assert Backed(a, a.height[n]) && Backed(b, b.height[n]);
    assert b.chain[..b.height[n]][..a.height[n]] == a.chain[..a.height[n]];
    TxsMember(b.chain[..b.height[n]], a.height[n], id);
  }

  /** `attentive` says that a wallet never loses sight of its own transaction once it is in a
      block the node has connected. */
  class World {
    var net: Net
    const attentive: bool

    constructor (net: Net, attentive: bool)
      requires ValidNet(net)
      ensures this.net == net && this.attentive == attentive
    {
      this.net, this.attentive := net, attentive;
    }

    // One point where the caller is suspended
    method Await()
      requires ValidNet(net)
      modifies this
      ensures ValidNet(net) && Evolves(old(net), net)
    {
      var next: Net := *;
      if ValidNet(next) && Evolves(net, next) {
        net := next;
      }
    }

    method Sleep(seconds: nat)
      requires ValidNet(net)
      modifies this
      ensures ValidNet(net) && Evolves(old(net), net) && old(net).now + seconds <= net.now
    {
      ghost var start := net;
      Await();
      ghost var before := net;
      net := net.(now := net.now + seconds);
      assert forall n | 0 <= n < NODE_COUNT :: Backed(before, before.height[n]) ==> Backed(net, net.height[n]);
    }

    // The retry loop around a call: true at a moment when n answers, false once it gave up
    method Reach(n: Node) returns (ok: bool)
      requires ValidNet(net)
      modifies this
      ensures ValidNet(net) && Evolves(old(net), net)
      ensures ok ==> net.up[n]
      ensures IsEarner(n) ==> ok
      ensures !ok ==> old(net).now + RPC_READY_TIMEOUT_SECONDS <= net.now
    {
      var deadline := net.now + RPC_READY_TIMEOUT_SECONDS;
      ghost var start := net;
      while true
        invariant ValidNet(net) && Evolves(start, net)
        decreases deadline - net.now
      {
        ghost var before := net;
        Await();
        EvolvesTransitive(start, before, net);
        if net.up[n] {
          return true;
        }
        if net.now >= deadline {
          return false;
        }
        ghost var polled := net;
        Sleep(RPC_READY_POLL_INTERVAL_SECONDS);
        EvolvesTransitive(start, polled, net);
      }
    }

    // getblockcount, once
    method Height(n: Node) returns (r: Option<nat>)
      requires ValidNet(net)
      modifies this
      ensures ValidNet(net) && Evolves(old(net), net)
      ensures HeightSample(old(net), net, n, r)
      ensures r == net.Status(n)
    {
      Await();
      r := net.Status(n);
      assert Backed(net, net.height[n]);
    }

    // getbalance [false, asset], retried; k is the height the node had when it answered
    method GetBalance(n: Node, asset: Asset) returns (r: Option<int>, ghost k: nat)
      requires ValidNet(net)
      modifies this
      ensures ValidNet(net) && Evolves(old(net), net)
      ensures IsEarner(n) ==> r.Some?
      ensures r.Some? ==> BalanceSample(old(net), net, n, asset, k, r.value)
    {
      var ok := Reach(n);
      k := net.height[n];
      assert Backed(net, k);
      if !ok {
        return None, k;
      }
      r := Some(Balance(net.effects, net.chain[..net.height[n]], n, asset));
    }

    // gettransaction on the wallet that owns the transaction.  The entries of a reply may be any
    // that tell no other fee than the transaction's, at least one of them telling it.  A wallet may have lost sight
    // of a transaction that is confirmed, unless it is attentive; it never reports one
    // confirmed that is not.
    method GetTransaction(n: Node, id: TxId) returns (r: TxReply)
      requires ValidNet(net) && id in net.effects && net.effects[id].owner == n
      modifies this
      ensures ValidNet(net) && Evolves(old(net), net)
      ensures r.Seen? && r.confirmations >= 1 ==>
                && id in Txs(net.chain[..net.height[n]])
                && TellsOnly(r.details, net.effects[id].fee) && ExtractFee(r.details) == net.effects[id].fee
      ensures Backed(net, net.height[n])
      ensures attentive && id in Txs(net.chain[..net.height[n]]) ==>
                r.Unreachable? || (r.Seen? && r.confirmations >= 1)
    {
      var ok := Reach(n);
      assert Backed(net, net.height[n]);
      var inBlock := id in Txs(net.chain[..net.height[n]]);
      var evicted: bool := *;
      var hidden: bool := *;
      var confirmations: int, details: seq<Detail> := *, *;
      var fee := net.effects[id].fee;
      if !ok {
        r := Unreachable;
      } else if evicted && !(attentive && inBlock) {
        r := Missing;
      } else if !inBlock || (hidden && !attentive) {
        r := Seen(if confirmations < 1 then confirmations else 0, details);
      } else {
        if !TellsOnly(details, fee) {
          details := [Detail(Send, 0, Some(fee))];
          assert TellsFee(details[0]);
        }
        ExtractFeeFindsIt(details, fee);
        r := Seen(if confirmations < 1 then 1 else confirmations, details);
      }
    }

    // The wallet of n, asked for the coinbase transaction of a height: the amount of its
    // "generate" entry, or nothing when that coinbase is not in this wallet
    method GetCoinbase(n: Node, height: nat) returns (r: Option<int>)
      requires ValidNet(net) && IsEarner(n) && 0 < height && Backed(net, height)
      modifies this
      ensures ValidNet(net) && Evolves(old(net), net)
      ensures height <= |net.chain|
      ensures r == if net.chain[height - 1].earner == n then Some(net.chain[height - 1].reward) else None
    {
      ghost var start := net;
      var ok := Reach(n);
      BackedStays(start, net, height);
      var b := net.chain[height - 1];
      r := if b.earner == n && height <= net.height[n] then Some(b.reward) else None;
    }

    // A call that builds and broadcasts a wallet transaction.  It may fail outright, and it
    // may fail after the transaction left the node; then nobody learns the id.
    method Broadcast(owner: Node, deltas: seq<Delta>) returns (r: Option<TxId>)
      requires ValidNet(net)
      modifies this
      ensures ValidNet(net) && Evolves(old(net), net)
      ensures r.Some? ==>
                && r.value !in old(net).effects && r.value in net.effects
                && r.value !in Txs(net.chain)
                && net.effects[r.value].owner == owner && net.effects[r.value].deltas == deltas
    {
      Await();
      var id: TxId :| 0 <= id;
      var fee: int := *;
      var timedOut: bool := *;
      if !net.up[owner] || id in net.effects || fee > 0 {
        return None;
      }
      assert id !in Txs(net.chain);
      ghost var before := net;
      net := net.(effects := net.effects[id := TxInfo(owner, fee, deltas)]);
      assert forall n | 0 <= n < NODE_COUNT :: Backed(before, before.height[n]) ==> Backed(net, net.height[n]);
      r := if timedOut then None else Some(id);
    }

    // A colour id no transaction known so far moves; the issuing call may also fail
    method FreshColor() returns (r: Option<nat>)
      requires ValidNet(net)
      modifies this
      ensures ValidNet(net) && Evolves(old(net), net)
      ensures r.Some? ==> forall id :: id in net.effects ==> MovesNothing(net.effects[id].deltas, r.value)
    {
      Await();
      var c: nat :| 0 <= c;
      r := if forall id :: id in net.effects ==> MovesNothing(net.effects[id].deltas, c) then Some(c) else None;
    }

    // A call that only needs n to answer, made once
    method Answers(n: Node) returns (ok: bool)
      requires ValidNet(net)
      modifies this
      ensures ValidNet(net) && Evolves(old(net), net)
    {
      Await();
      ok := net.up[n];
    }

    // getbalance [false, asset], made once
    method TryBalance(n: Node, asset: Asset) returns (r: Option<int>)
      requires ValidNet(net)
      modifies this
      ensures ValidNet(net) && Evolves(old(net), net)
    {
      Await();
      assert Backed(net, net.height[n]);
      r := if net.up[n] then Some(Balance(net.effects, net.chain[..net.height[n]], n, asset)) else None;
    }
  }
}
