/** What the ledger holds in total: nothing appears except coinbase and issuance, and
    nothing is lost except fees. */
module Conservation {
  import opened Sequences
  import opened Chain
  import opened Network
  import opened Ledger
  import opened Settlement

  function Total(book: Book, a: Asset): int
  {
    Get(book, 0, a) + Get(book, 1, a) + Get(book, 2, a) + Get(book, 3, a)
    + Get(book, 4, a) + Get(book, 5, a) + Get(book, 6, a)
  }

  function Rewards(blocks: seq<Block>): int
  {
    if |blocks| == 0 then 0 else Rewards(blocks[..|blocks| - 1]) + blocks[|blocks| - 1].reward
  }

  function FeesPaid(effects: Effects, applied: seq<Change>): int
  {
    if |applied| == 0 then 0
    else FeesPaid(effects, applied[..|applied| - 1]) + FeesOf(effects, applied[|applied| - 1].txids)
  }

  // What the issuances among the changes brought into being; a transfer brings nothing
  function Issued(applied: seq<Change>, color: nat): int
  {
    if |applied| == 0 then 0
    else
      var d := applied[|applied| - 1].deltas;
      Issued(applied[..|applied| - 1], color)
      + (if |d| == 1 && d[0].asset == Color(color) then d[0].amount else 0)
  }

  function CoinbaseTotal(blocks: seq<Block>): int
  {
    Coinbase(blocks, 0) + Coinbase(blocks, 1) + Coinbase(blocks, 2) + Coinbase(blocks, 3)
    + Coinbase(blocks, 4) + Coinbase(blocks, 5) + Coinbase(blocks, 6)
  }

  function AppliedTotal(effects: Effects, applied: seq<Change>, a: Asset): int
  {
    AppliedSum(effects, applied, 0, a) + AppliedSum(effects, applied, 1, a) + AppliedSum(effects, applied, 2, a)
    + AppliedSum(effects, applied, 3, a) + AppliedSum(effects, applied, 4, a)
    + AppliedSum(effects, applied, 5, a) + AppliedSum(effects, applied, 6, a)
  }

  function ChangeTotal(effects: Effects, c: Change, a: Asset): int
  {
    ChangeSum(effects, c, 0, a) + ChangeSum(effects, c, 1, a) + ChangeSum(effects, c, 2, a)
    + ChangeSum(effects, c, 3, a) + ChangeSum(effects, c, 4, a) + ChangeSum(effects, c, 5, a)
    + ChangeSum(effects, c, 6, a)
  }

  lemma {:induction false} EveryRewardHasAnEarner(blocks: seq<Block>)
    ensures CoinbaseTotal(blocks) == Rewards(blocks)
  {
    if |blocks| > 0 {
      EveryRewardHasAnEarner(blocks[..|blocks| - 1]);
    }
  }

  lemma DeltasOfMade(d: seq<Delta>, n: Node, a: Asset)
    requires Made(d)
    ensures DeltaSum(d, n, a)
         == (if d[0].node == n && d[0].asset == a then d[0].amount else 0)
            + (if |d| == 2 && d[1].node == n && d[1].asset == a then d[1].amount else 0)
  {
    if |d| == 2 {
      assert d == [d[0], d[1]];
      TwoDeltas(d[0], d[1], n, a);
    } else {
      assert d == [d[0]];
      TwoDeltas(d[0], d[0], n, a);
    }
  }

  // x at one node only, and only if b holds
  function At(k: Node, b: bool, x: int, n: Node): int
  {
    if k == n && b then x else 0
  }

  lemma Spread(k: Node, b: bool, x: int)
    ensures At(k, b, x, 0) + At(k, b, x, 1) + At(k, b, x, 2) + At(k, b, x, 3) + At(k, b, x, 4) + At(k, b, x, 5)
            + At(k, b, x, 6) == if b then x else 0
  {
  }

  lemma ChangeAtNode(effects: Effects, c: Change, n: Node, a: Asset)
    requires Made(c.deltas)
    ensures var d, e := c.deltas[0], c.deltas[|c.deltas| - 1];
            ChangeSum(effects, c, n, a) == At(c.node, a == TPC, FeesOf(effects, c.txids), n)
              + At(d.node, d.asset == a, d.amount, n) + At(e.node, |c.deltas| == 2 && e.asset == a, e.amount, n)
  {
    DeltasOfMade(c.deltas, n, a);
  }

  // A change adds its fee to the total of TPC, and what it issues to that of its colour
  lemma OneChange(effects: Effects, c: Change, a: Asset)
    requires Made(c.deltas)
    ensures ChangeTotal(effects, c, a)
         == (if a == TPC then FeesOf(effects, c.txids) else 0)
            + (if |c.deltas| == 1 && c.deltas[0].asset == a then c.deltas[0].amount else 0)
  {
    var d, e := c.deltas[0], c.deltas[|c.deltas| - 1];
    ChangeAtNode(effects, c, 0, a);
    ChangeAtNode(effects, c, 1, a);
    ChangeAtNode(effects, c, 2, a);
    ChangeAtNode(effects, c, 3, a);
    ChangeAtNode(effects, c, 4, a);
    ChangeAtNode(effects, c, 5, a);
    ChangeAtNode(effects, c, 6, a);
    SpreadThree(c.node, a == TPC, FeesOf(effects, c.txids), d.node, d.asset == a, d.amount,
                e.node, |c.deltas| == 2 && e.asset == a, e.amount);
  }

  function At3(k: Node, b: bool, x: int, k': Node, b': bool, x': int, k'': Node, b'': bool, x'': int, n: Node): int
  {
    At(k, b, x, n) + At(k', b', x', n) + At(k'', b'', x'', n)
  }

  lemma SpreadThree(k: Node, b: bool, x: int, k': Node, b': bool, x': int, k'': Node, b'': bool, x'': int)
    ensures At3(k, b, x, k', b', x', k'', b'', x'', 0) + At3(k, b, x, k', b', x', k'', b'', x'', 1)
            + At3(k, b, x, k', b', x', k'', b'', x'', 2) + At3(k, b, x, k', b', x', k'', b'', x'', 3)
            + At3(k, b, x, k', b', x', k'', b'', x'', 4) + At3(k, b, x, k', b', x', k'', b'', x'', 5)
            + At3(k, b, x, k', b', x', k'', b'', x'', 6)
         == (if b then x else 0) + (if b' then x' else 0) + (if b'' then x'' else 0)
  {
    Spread(k, b, x);
    Spread(k', b', x');
    Spread(k'', b'', x'');
  }

  lemma {:induction false} AllChanges(effects: Effects, applied: seq<Change>, a: Asset)
    requires forall c :: c in applied ==> Made(c.deltas)
    ensures AppliedTotal(effects, applied, a)
         == if a == TPC then FeesPaid(effects, applied) else Issued(applied, a.id)
  {
    if |applied| > 0 {
      var c := applied[|applied| - 1];
      assert c in applied;
      AllChanges(effects, applied[..|applied| - 1], a);
      OneChange(effects, c, a);
      assert AppliedTotal(effects, applied, a)
          == AppliedTotal(effects, applied[..|applied| - 1], a) + ChangeTotal(effects, c, a);
    }
  }

  /** At every moment of a run: the ledger's TPC is the seeded TPC, plus the rewards of the
      heights credited, plus the fees (negative) of the applied changes; the total of a colour
      is the seeded total plus what the applied changes issued. */
  lemma LedgerConserves(net: Net, seedHeight: nat, seeded: Book, last: nat, book: Book, applied: seq<Change>, a: Asset)
    requires net.Shape() && Books(net, seedHeight, seeded, last, book, applied)
    ensures Total(book, a) == Total(seeded, a)
              + if a == TPC then Rewards(net.chain[seedHeight..last]) + FeesPaid(net.effects, applied)
                else Issued(applied, a.id)
  {
    forall c | c in applied
      ensures Made(c.deltas)
    {
      assert Faithful(net.effects, c);
    }
    AllChanges(net.effects, applied, a);
    EveryRewardHasAnEarner(net.chain[seedHeight..last]);
    SumOfEntries(net, seedHeight, seeded, last, book, applied, a);
  }

  /** The seed holds no colour, so at every moment of a run the total of a colour is exactly what
      the applied changes issued. */
  lemma ColorTotalIsIssued(net: Net, acc: Account, last: nat, pending: seq<Change>, color: nat)
    requires InOrder(net, acc, last, pending)
    ensures Total(acc.book, Color(color)) == Issued(acc.applied, color)
  {
    LedgerConserves(net, acc.seedHeight, acc.seeded, last, acc.book, acc.applied, Color(color));
    assert forall n: Node :: (n, Color(color)) !in acc.seeded;
    assert Total(acc.seeded, Color(color)) == 0;
  }

  lemma SumOfEntries(net: Net, seedHeight: nat, seeded: Book, last: nat, book: Book, applied: seq<Change>, a: Asset)
    requires net.Shape() && Books(net, seedHeight, seeded, last, book, applied)
    ensures Total(book, a) == Total(seeded, a) + AppliedTotal(net.effects, applied, a)
              + if a == TPC then CoinbaseTotal(net.chain[seedHeight..last]) else 0
  {
  }

  // ---- with every block paying a subsidy plus its fees ----

  function OnlyFees(effects: Effects): Effects
  {
    map id | id in effects :: TxInfo(0, effects[id].fee, [])
  }

  lemma {:induction false} FeesAsMoves(effects: Effects, ids: seq<TxId>)
    ensures FeesOf(effects, ids) == TxSum(OnlyFees(effects), ids, 0, TPC)
  {
    if |ids| > 0 {
      FeesAsMoves(effects, ids[..|ids| - 1]);
    }
  }

  lemma FeesConcat(effects: Effects, s: seq<TxId>, t: seq<TxId>)
    ensures FeesOf(effects, s + t) == FeesOf(effects, s) + FeesOf(effects, t)
  {
    FeesAsMoves(effects, s + t);
    FeesAsMoves(effects, s);
    FeesAsMoves(effects, t);
    TxSumConcat(OnlyFees(effects), s, t, 0, TPC);
  }

  lemma {:induction false} FeesPaidAreFees(effects: Effects, applied: seq<Change>)
    ensures FeesPaid(effects, applied) == FeesOf(effects, TxidsOf(applied))
  {
    if |applied| > 0 {
      FeesPaidAreFees(effects, applied[..|applied| - 1]);
      FeesConcat(effects, TxidsOf(applied[..|applied| - 1]), applied[|applied| - 1].txids);
    }
  }

  lemma OneMore(x: int, n: nat)
    ensures x * (n + 1) == x * n + x
  {
  }

  lemma {:induction false} RewardsAreSubsidies(effects: Effects, blocks: seq<Block>, subsidy: int)
    requires forall i :: 0 <= i < |blocks| ==> blocks[i].reward == subsidy - FeesOf(effects, blocks[i].txs)
    ensures Rewards(blocks) == subsidy * |blocks| - FeesOf(effects, Txs(blocks))
  {
    if |blocks| > 0 {
      var init := blocks[..|blocks| - 1];
      RewardsAreSubsidies(effects, init, subsidy);
      FeesConcat(effects, Txs(init), blocks[|blocks| - 1].txs);
      OneMore(subsidy, |init|);
    }
  }

  /** When each block pays the subsidy and its fees, and the applied changes are exactly the
      transactions of the credited blocks, the ledger grows by the subsidy per height: the
      fees the wallets pay are the fees the earners receive. */
  lemma OnlySubsidyIsNew(net: Net, seedHeight: nat, seeded: Book, last: nat, book: Book, applied: seq<Change>,
                         subsidy: int)
    requires ValidNet(net) && Books(net, seedHeight, seeded, last, book, applied) && Single(Ids(applied))
    requires forall i :: seedHeight <= i < last ==>
               net.chain[i].reward == subsidy - FeesOf(net.effects, net.chain[i].txs)
    requires forall id :: id in TxidsOf(applied) <==> id in Txs(net.chain[seedHeight..last])
    ensures Total(book, TPC) == Total(seeded, TPC) + subsidy * (last - seedHeight)
  {
    var blocks := net.chain[seedHeight..last];
    LedgerConserves(net, seedHeight, seeded, last, book, applied, TPC);
    RewardsAreSubsidies(net.effects, blocks, subsidy);
    FeesPaidAreFees(net.effects, applied);
    SameFees(net, TxidsOf(applied), seedHeight, last);
  }

  lemma SameFees(net: Net, ids: seq<TxId>, lo: nat, hi: nat)
    requires ValidNet(net) && lo <= hi <= |net.chain| && Single(multiset(ids))
    requires forall id :: id in ids <==> id in Txs(net.chain[lo..hi])
    ensures FeesOf(net.effects, ids) == FeesOf(net.effects, Txs(net.chain[lo..hi]))
  {
    var txs := Txs(net.chain[lo..hi]);
    NoDupWindow(net, lo, hi);
    CountsNoDup(ids);
    NoDupSameElements(ids, txs);
    FeesAsMoves(net.effects, ids);
    FeesAsMoves(net.effects, txs);
    TxSumOrder(OnlyFees(net.effects), ids, txs, 0, TPC);
  }
}
