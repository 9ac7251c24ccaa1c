/**
 The chain the seven wallets follow, as plain values: blocks, the effect of a wallet
 transaction, and the balance a wallet reports at a height.  Amounts are integers.
 */
module Chain {

  // core-1a, core-1b, core-2a, core-2b, core-3a, core-3b, core-7, in that order
  const NODE_COUNT: nat := 7

  type Node = n: nat | n < 7 witness 0
  type TxId = nat

  datatype Asset = TPC | Color(id: nat)

  // `amount` of `asset` added to the wallet of `node`
  datatype Delta = Delta(node: Node, asset: Asset, amount: int)

  // A wallet transaction: the wallet that owns it pays `fee` (zero or negative) in TPC
  datatype TxInfo = TxInfo(owner: Node, fee: int, deltas: seq<Delta>)

  type Effects = map<TxId, TxInfo>

  // The block at height h is element h - 1 of a sequence of blocks
  datatype Block = Block(earner: Node, reward: int, txs: seq<TxId>)

  function AllNodes(): (r: seq<Node>)
    ensures forall n: Node :: n in r
  {
    [0, 1, 2, 3, 4, 5, 6]
  }

  predicate IsEarner(n: Node) { n == 0 || n == 2 || n == 4 }

  // ---- sums ----

  function DeltaSum(deltas: seq<Delta>, n: Node, a: Asset): int
  {
    if |deltas| == 0 then 0
    else
      var d := deltas[|deltas| - 1];
      DeltaSum(deltas[..|deltas| - 1], n, a) + (if d.node == n && d.asset == a then d.amount else 0)
  }

  // What one transaction moves in the wallet of n
  function Move(effects: Effects, id: TxId, n: Node, a: Asset): int
  {
    if id !in effects then 0
    else
      (if effects[id].owner == n && a == TPC then effects[id].fee else 0) + DeltaSum(effects[id].deltas, n, a)
  }

  function TxSum(effects: Effects, ids: seq<TxId>, n: Node, a: Asset): int
  {
    if |ids| == 0 then 0
    else TxSum(effects, ids[..|ids| - 1], n, a) + Move(effects, ids[|ids| - 1], n, a)
  }

  function Txs(blocks: seq<Block>): seq<TxId>
  {
    if |blocks| == 0 then [] else Txs(blocks[..|blocks| - 1]) + blocks[|blocks| - 1].txs
  }

  function Coinbase(blocks: seq<Block>, n: Node): int
  {
    if |blocks| == 0 then 0
    else
      var b := blocks[|blocks| - 1];
      Coinbase(blocks[..|blocks| - 1], n) + (if b.earner == n then b.reward else 0)
  }

  // The coinbase part of an asset: only TPC is ever mined
  function Mined(blocks: seq<Block>, n: Node, a: Asset): int
  {
    if a == TPC then Coinbase(blocks, n) else 0
  }

  // What getbalance answers on a node that has connected exactly `blocks`
  function Balance(effects: Effects, blocks: seq<Block>, n: Node, a: Asset): int
  {
    Mined(blocks, n, a) + TxSum(effects, Txs(blocks), n, a)
  }

  // The transactions of ids that are outside `seen`, in order
  function Outside(ids: seq<TxId>, seen: seq<TxId>): (r: seq<TxId>)
    ensures forall x :: x in r ==> x in ids && x !in seen
    ensures forall x :: x in ids && x !in seen ==> x in r
  {
    if |ids| == 0 then []
    else
      var x := ids[|ids| - 1];
      Outside(ids[..|ids| - 1], seen) + (if x in seen then [] else [x])
  }

  predicate NoDup(ids: seq<TxId>)
  {
    forall i, j :: 0 <= i < j < |ids| ==> ids[i] != ids[j]
  }

  predicate MovesNothing(deltas: seq<Delta>, color: nat)
  {
    forall i :: 0 <= i < |deltas| ==> deltas[i].asset != Color(color)
  }

  // ---- lemmas about the sums ----

  lemma {:induction false} DeltaSumConcat(d: seq<Delta>, e: seq<Delta>, n: Node, a: Asset)
    ensures DeltaSum(d + e, n, a) == DeltaSum(d, n, a) + DeltaSum(e, n, a)
  {
    if |e| == 0 {
      assert d + e == d;
    } else {
      assert (d + e)[..|d + e| - 1] == d + e[..|e| - 1];
      DeltaSumConcat(d, e[..|e| - 1], n, a);
    }
  }

  lemma TwoDeltas(d: Delta, e: Delta, n: Node, a: Asset)
    ensures DeltaSum([d], n, a) == if d.node == n && d.asset == a then d.amount else 0
    ensures DeltaSum([d, e], n, a)
         == (if d.node == n && d.asset == a then d.amount else 0) + (if e.node == n && e.asset == a then e.amount else 0)
  {
    assert [d, e][..1] == [d] && [d][..0] == [];
  }

  lemma {:induction false} TxSumConcat(effects: Effects, s: seq<TxId>, t: seq<TxId>, n: Node, a: Asset)
    ensures TxSum(effects, s + t, n, a) == TxSum(effects, s, n, a) + TxSum(effects, t, n, a)
  {
    if |t| == 0 {
      assert s + t == s;
    } else {
      assert (s + t)[..|s + t| - 1] == s + t[..|t| - 1];
      TxSumConcat(effects, s, t[..|t| - 1], n, a);
    }
  }

  lemma {:induction false} TxsSplit(blocks: seq<Block>, k: nat)
    requires k <= |blocks|
    ensures Txs(blocks) == Txs(blocks[..k]) + Txs(blocks[k..])
  {
    if k == |blocks| {
      assert blocks[..k] == blocks;
    } else {
      var init := blocks[..|blocks| - 1];
      TxsSplit(init, k);
      assert init[..k] == blocks[..k];
      assert blocks[k..][..|blocks| - k - 1] == init[k..];
    }
  }

  lemma {:induction false} CoinbaseSplit(blocks: seq<Block>, k: nat, n: Node)
    requires k <= |blocks|
    ensures Coinbase(blocks, n) == Coinbase(blocks[..k], n) + Coinbase(blocks[k..], n)
  {
    if k == |blocks| {
      assert blocks[..k] == blocks;
    } else {
      var init := blocks[..|blocks| - 1];
      CoinbaseSplit(init, k, n);
      assert init[..k] == blocks[..k];
      assert blocks[k..][..|blocks| - k - 1] == init[k..];
    }
  }

  lemma {:induction false} CoinbaseNone(blocks: seq<Block>, n: Node)
    requires forall i :: 0 <= i < |blocks| ==> blocks[i].earner != n
    ensures Coinbase(blocks, n) == 0
  {
    if |blocks| > 0 {
      CoinbaseNone(blocks[..|blocks| - 1], n);
    }
  }

  // A balance moves by exactly what the blocks in between mined and moved
  lemma BalanceSplit(effects: Effects, blocks: seq<Block>, k: nat, n: Node, a: Asset)
    requires k <= |blocks|
    ensures Balance(effects, blocks, n, a)
         == Balance(effects, blocks[..k], n, a) + Mined(blocks[k..], n, a) + TxSum(effects, Txs(blocks[k..]), n, a)
  {
    TxsSplit(blocks, k);
    CoinbaseSplit(blocks, k, n);
    TxSumConcat(effects, Txs(blocks[..k]), Txs(blocks[k..]), n, a);
  }

  // A sum does not change when the effects of other transactions become known
  lemma {:induction false} TxSumFrame(e: Effects, f: Effects, ids: seq<TxId>, n: Node, a: Asset)
    requires forall id :: id in ids ==> id in e && id in f && e[id] == f[id]
    ensures TxSum(e, ids, n, a) == TxSum(f, ids, n, a)
  {
    if |ids| > 0 {
      TxSumFrame(e, f, ids[..|ids| - 1], n, a);
      assert ids[|ids| - 1] in ids;
    }
  }

  lemma TxsMember(blocks: seq<Block>, k: nat, id: TxId)
    requires k <= |blocks| && id in Txs(blocks[..k])
    ensures id in Txs(blocks)
  {
    TxsSplit(blocks, k);
  }

  lemma RemoveOne(effects: Effects, ids: seq<TxId>, j: nat, n: Node, a: Asset)
    requires j < |ids|
    ensures TxSum(effects, ids, n, a) == TxSum(effects, ids[..j] + ids[j + 1..], n, a) + Move(effects, ids[j], n, a)
  {
    assert ids == ids[..j + 1] + ids[j + 1..];
    TxSumConcat(effects, ids[..j + 1], ids[j + 1..], n, a);
    TxSumConcat(effects, ids[..j], ids[j + 1..], n, a);
    assert ids[..j + 1][..j] == ids[..j];
  }

  lemma WithoutOne(t: seq<TxId>, j: nat)
    requires j < |t|
    ensures multiset(t[..j] + t[j + 1..]) == multiset(t) - multiset{t[j]}
  {
    assert t == t[..j] + ([t[j]] + t[j + 1..]);
    assert multiset(t) == multiset(t[..j]) + multiset([t[j]] + t[j + 1..]);
  }

  // The order in which transactions are summed does not matter
  lemma {:induction false} TxSumOrder(effects: Effects, s: seq<TxId>, t: seq<TxId>, n: Node, a: Asset)
    requires multiset(s) == multiset(t)
    ensures TxSum(effects, s, n, a) == TxSum(effects, t, n, a)
    decreases |s|
  {
    if |s| == 0 {
      assert |multiset(t)| == 0;
    } else {
      var j := LastElsewhere(s, t);
      TxSumOrder(effects, s[..|s| - 1], t[..j] + t[j + 1..], n, a);
      RemoveOne(effects, t, j, n, a);
    }
  }

  // Where the last element of s is in t; without it the two still have the same elements
  lemma LastElsewhere(s: seq<TxId>, t: seq<TxId>) returns (j: nat)
    requires |s| > 0 && multiset(s) == multiset(t)
    ensures j < |t| && t[j] == s[|s| - 1]
    ensures multiset(s[..|s| - 1]) == multiset(t[..j] + t[j + 1..])
  {
    var x := s[|s| - 1];
    assert x in multiset(t);
    j :| 0 <= j < |t| && t[j] == x;
    WithoutOne(s, |s| - 1);
    WithoutOne(t, j);
    assert s[..|s| - 1] + s[|s|..] == s[..|s| - 1];
  }

  lemma {:induction false} NoDupCounts(s: seq<TxId>, x: TxId)
    requires NoDup(s)
    ensures multiset(s)[x] == if x in s then 1 else 0
  {
    if |s| > 0 {
      var init := s[..|s| - 1];
      assert s == init + [s[|s| - 1]];
      NoDupCounts(init, x);
    }
  }

  lemma NoDupSameElements(s: seq<TxId>, t: seq<TxId>)
    requires NoDup(s) && NoDup(t)
    requires forall x :: x in s <==> x in t
    ensures multiset(s) == multiset(t)
  {
    forall x ensures multiset(s)[x] == multiset(t)[x] {
      NoDupCounts(s, x);
      NoDupCounts(t, x);
    }
  }

  lemma {:induction false} OutsideCounts(ids: seq<TxId>, seen: seq<TxId>, x: TxId)
    ensures multiset(Outside(ids, seen))[x] == if x in seen then 0 else multiset(ids)[x]
  {
    if |ids| > 0 {
      var init := ids[..|ids| - 1];
      assert ids == init + [ids[|ids| - 1]];
      OutsideCounts(init, seen, x);
    }
  }

  lemma {:induction false} OutsideNothing(ids: seq<TxId>, seen: seq<TxId>)
    requires forall x :: x in ids ==> x in seen
    ensures Outside(ids, seen) == []
  {
    if |ids| > 0 {
      assert ids[|ids| - 1] in ids;
      OutsideNothing(ids[..|ids| - 1], seen);
    }
  }

  // Whatever part of ids `seen` accounts for, the rest is Outside(ids, seen)
  lemma SplitBySeen(effects: Effects, ids: seq<TxId>, seen: seq<TxId>, n: Node, a: Asset)
    requires NoDup(ids) && NoDup(seen)
    requires forall x :: x in seen ==> x in ids
    ensures TxSum(effects, ids, n, a) == TxSum(effects, seen, n, a) + TxSum(effects, Outside(ids, seen), n, a)
  {
    var rest := Outside(ids, seen);
    forall x ensures multiset(ids)[x] == multiset(seen + rest)[x] {
      NoDupCounts(ids, x);
      NoDupCounts(seen, x);
      OutsideCounts(ids, seen, x);
    }
    assert multiset(ids) == multiset(seen + rest);
    TxSumOrder(effects, ids, seen + rest, n, a);
    TxSumConcat(effects, seen, rest, n, a);
  }
}
