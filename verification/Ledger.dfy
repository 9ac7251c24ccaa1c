/**
 The shadow ledger as a value, and how it relates to the wallets: what it contains, when
 it may change, and by exactly how much it can differ from a wallet.
 */
module Ledger {
  import opened Sequences
  import opened Chain
  import opened Network

  type Book = map<(Node, Asset), int>

  function Get(book: Book, n: Node, a: Asset): int
  {
    if (n, a) in book then book[(n, a)] else 0
  }

  function Add(book: Book, n: Node, a: Asset, amount: int): (r: Book)
    ensures forall m: Node, b: Asset :: Get(r, m, b) == Get(book, m, b) + (if m == n && b == a then amount else 0)
  {
    book[(n, a) := Get(book, n, a) + amount]
  }

  // A ledger change waiting for all of its transactions to confirm
  datatype Change = Change(node: Node, txids: seq<TxId>, deltas: seq<Delta>)

  function TxidsOf(changes: seq<Change>): seq<TxId>
  {
    if |changes| == 0 then [] else TxidsOf(changes[..|changes| - 1]) + changes[|changes| - 1].txids
  }

  function FeesOf(effects: Effects, ids: seq<TxId>): int
  {
    if |ids| == 0 then 0
    else
      var id := ids[|ids| - 1];
      FeesOf(effects, ids[..|ids| - 1]) + (if id in effects then effects[id].fee else 0)
  }

  function DeltasOf(effects: Effects, ids: seq<TxId>): seq<Delta>
  {
    if |ids| == 0 then []
    else
      var id := ids[|ids| - 1];
      DeltasOf(effects, ids[..|ids| - 1]) + (if id in effects then effects[id].deltas else [])
  }

  // A transfer between two wallets, or an issuance into one
  predicate Made(deltas: seq<Delta>)
  {
    || (|deltas| == 2 && deltas[0].asset == deltas[1].asset && deltas[0].amount == -deltas[1].amount)
    || (|deltas| == 1 && deltas[0].asset != TPC)
  }

  // The change says what its transactions do
  predicate Faithful(effects: Effects, c: Change)
  {
    && (forall id :: id in c.txids ==> id in effects && effects[id].owner == c.node)
    && c.deltas == DeltasOf(effects, c.txids)
    && Made(c.deltas)
  }

  // What applying a change adds to one ledger entry
  function ChangeSum(effects: Effects, c: Change, n: Node, a: Asset): int
  {
    (if c.node == n && a == TPC then FeesOf(effects, c.txids) else 0) + DeltaSum(c.deltas, n, a)
  }

  function AppliedSum(effects: Effects, applied: seq<Change>, n: Node, a: Asset): int
  {
    if |applied| == 0 then 0
    else
      AppliedSum(effects, applied[..|applied| - 1], n, a) + ChangeSum(effects, applied[|applied| - 1], n, a)
  }

  ghost predicate Confirmed(net: Net, id: TxId)
    requires net.Shape()
  {
    exists k: nat :: Backed(net, k) && id in Txs(net.chain[..k])
  }

  // The ledger is the seed, plus the coinbase of heights seedHeight + 1 .. last once each,
  // plus the fees and deltas of the applied changes once each, all of them confirmed.
  ghost predicate Books(net: Net, seedHeight: nat, seeded: Book, last: nat, book: Book, applied: seq<Change>)
    requires net.Shape()
  {
    && seedHeight <= last && Backed(net, last)
    && (forall n: Node, a: Asset {:trigger Get(book, n, a)} ::
          Get(book, n, a) == Get(seeded, n, a) + Mined(net.chain[seedHeight..last], n, a)
                             + AppliedSum(net.effects, applied, n, a))
    && (forall c :: c in applied ==> Faithful(net.effects, c))
    && (forall id :: id in TxidsOf(applied) ==> Confirmed(net, id) && id !in Txs(net.chain[..seedHeight]))
  }

  // Changes still waiting: faithful, and sent after the seed was taken
  ghost predicate Waiting(net: Net, seedHeight: nat, pending: seq<Change>)
  {
    && seedHeight <= |net.chain|
    && (forall c :: c in pending ==> Faithful(net.effects, c))
    && (forall id :: id in TxidsOf(pending) ==> id !in Txs(net.chain[..seedHeight]))
  }

  // No transaction belongs to two changes
  ghost predicate Single(ids: multiset<TxId>)
  {
    forall id :: ids[id] <= 1
  }

  ghost function Ids(changes: seq<Change>): multiset<TxId>
  {
    multiset(TxidsOf(changes))
  }

  // What one pass decides about a pending change
  datatype Verdict = Settled | Kept | Dropped

  // The changes of a list that met one verdict, in order
  function Picked(changes: seq<Change>, verdicts: seq<Verdict>, v: Verdict): seq<Change>
    requires |changes| == |verdicts|
  {
    if |changes| == 0 then []
    else
      var last := |changes| - 1;
      Picked(changes[..last], verdicts[..last], v) + (if verdicts[last] == v then [changes[last]] else [])
  }

  lemma PickedSnoc(changes: seq<Change>, verdicts: seq<Verdict>, c: Change, w: Verdict, v: Verdict)
    requires |changes| == |verdicts|
    ensures Picked(changes + [c], verdicts + [w], v) == Picked(changes, verdicts, v) + if w == v then [c] else []
  {
    assert (changes + [c])[..|changes|] == changes && (verdicts + [w])[..|changes|] == verdicts;
  }

  // How far a pass over `pending` has come: the verdicts given, what they kept, and what
  // they added to the changes applied before
  ghost predicate Decided(pending: seq<Change>, verdicts: seq<Verdict>, still: seq<Change>,
                          before: seq<Change>, applied: seq<Change>, final: bool)
  {
    && |verdicts| <= |pending|
    && still == Picked(pending[..|verdicts|], verdicts, Kept)
    && applied == before + Picked(pending[..|verdicts|], verdicts, Settled)
    && (if final then Kept !in verdicts else Dropped !in verdicts)
  }

  lemma DecideOne(pending: seq<Change>, verdicts: seq<Verdict>, still: seq<Change>,
                  before: seq<Change>, applied: seq<Change>, final: bool, w: Verdict)
    requires Decided(pending, verdicts, still, before, applied, final) && |verdicts| < |pending|
    requires w != if final then Kept else Dropped
    ensures var c := pending[|verdicts|];
            Decided(pending, verdicts + [w], still + if w == Kept then [c] else [],
                    before, applied + if w == Settled then [c] else [], final)
  {
    var i := |verdicts|;
    ElementApart([], pending, i);
    PickedSnoc(pending[..i], verdicts, pending[i], w, Kept);
    PickedSnoc(pending[..i], verdicts, pending[i], w, Settled);
  }

  lemma PickedCount(changes: seq<Change>, verdicts: seq<Verdict>, v: Verdict, x: Change)
    requires 0 < |changes| == |verdicts|
    ensures multiset(Picked(changes, verdicts, v))[x]
         == multiset(Picked(changes[..|changes| - 1], verdicts[..|changes| - 1], v))[x]
            + if verdicts[|changes| - 1] == v && changes[|changes| - 1] == x then 1 else 0
  {
    var last := |changes| - 1;
    CountSnoc(Picked(changes[..last], verdicts[..last], v), changes[last], verdicts[last] == v, x);
  }

  // Every change meets exactly one verdict: none is lost and none is settled twice
  lemma {:induction false} PickedPartition(changes: seq<Change>, verdicts: seq<Verdict>, x: Change)
    requires |changes| == |verdicts|
    ensures multiset(changes)[x]
         == multiset(Picked(changes, verdicts, Settled))[x] + multiset(Picked(changes, verdicts, Kept))[x]
            + multiset(Picked(changes, verdicts, Dropped))[x]
  {
    if |changes| > 0 {
      var last := |changes| - 1;
      PickedPartition(changes[..last], verdicts[..last], x);
      CountLast(changes, x);
      PickedCount(changes, verdicts, Settled, x);
      PickedCount(changes, verdicts, Kept, x);
      PickedCount(changes, verdicts, Dropped, x);
    }
  }

  // Every change decided about is kept, applied, or dropped by a final pass
  lemma DecidedCovers(pending: seq<Change>, verdicts: seq<Verdict>, still: seq<Change>,
                      before: seq<Change>, applied: seq<Change>, final: bool, c: Change)
    requires |verdicts| == |pending| && Decided(pending, verdicts, still, before, applied, final)
    ensures c in before ==> c in applied
    ensures c in pending ==> c in still || c in applied || (final && c in Picked(pending, verdicts, Dropped))
    ensures final ==> still == []
  {
    assert pending[..|verdicts|] == pending;
    PickedPartition(pending, verdicts, c);
    if final {
      PickedNone(pending, verdicts, Kept);
    } else {
      PickedNone(pending, verdicts, Dropped);
    }
  }

  // Since `origin` nothing was applied, and nothing is pending, but changes of `source`
  ghost predicate Drawn(source: seq<Change>, origin: seq<Change>, applied: seq<Change>, pending: seq<Change>)
  {
    && origin <= applied
    && (forall k :: |origin| <= k < |applied| ==> applied[k] in source)
    && (forall c :: c in pending ==> c in source)
  }

  lemma DrawnThen(source: seq<Change>, origin: seq<Change>, mid: seq<Change>, pending: seq<Change>,
                  applied: seq<Change>, still: seq<Change>)
    requires Drawn(source, origin, mid, pending) && Drawn(pending, mid, applied, still)
    ensures Drawn(source, origin, applied, still)
  {
    forall k | |origin| <= k < |applied| ensures applied[k] in source {
      if k < |mid| {
        assert applied[k] == mid[k];
      }
    }
  }

  lemma {:induction false} PickedIn(changes: seq<Change>, verdicts: seq<Verdict>, v: Verdict)
    requires |changes| == |verdicts|
    ensures forall c :: c in Picked(changes, verdicts, v) ==> c in changes
  {
    if |changes| > 0 {
      PickedIn(changes[..|changes| - 1], verdicts[..|changes| - 1], v);
    }
  }

  lemma DecidedDraws(pending: seq<Change>, verdicts: seq<Verdict>, still: seq<Change>,
                     before: seq<Change>, applied: seq<Change>, final: bool)
    requires |verdicts| == |pending| && Decided(pending, verdicts, still, before, applied, final)
    ensures Drawn(pending, before, applied, still)
  {
    assert pending[..|verdicts|] == pending;
    PickedIn(pending, verdicts, Kept);
    PickedIn(pending, verdicts, Settled);
  }

  // The changes handed in are all accounted for: applied, still pending, or dropped; and
  // since `origin` no others were applied
  ghost predicate Covers(submitted: seq<Change>, origin: seq<Change>, applied: seq<Change>,
                         pending: seq<Change>, dropped: seq<Change>)
  {
    && (forall c :: c in submitted ==> c in applied || c in pending || c in dropped)
    && Drawn(submitted, origin, applied, pending)
  }

  lemma CoversStep(submitted: seq<Change>, origin: seq<Change>, pending: seq<Change>, verdicts: seq<Verdict>,
                   still: seq<Change>, before: seq<Change>, applied: seq<Change>, final: bool, dropped: seq<Change>)
    requires |verdicts| == |pending| && Decided(pending, verdicts, still, before, applied, final)
    requires Covers(submitted, origin, before, pending, dropped)
    ensures Covers(submitted, origin, applied, still, dropped + if final then Picked(pending, verdicts, Dropped) else [])
    ensures final ==> still == []
  {
    DecidedDraws(pending, verdicts, still, before, applied, final);
    DrawnThen(submitted, origin, before, pending, applied, still);
    forall c | c in submitted
      ensures c in applied || c in still || c in dropped || (final && c in Picked(pending, verdicts, Dropped))
    {
      DecidedCovers(pending, verdicts, still, before, applied, final, c);
    }
    if final {
      PickedNone(pending, verdicts, Kept);
      assert pending[..|verdicts|] == pending;
    }
  }

  lemma {:induction false} PickedNone(changes: seq<Change>, verdicts: seq<Verdict>, v: Verdict)
    requires |changes| == |verdicts| && v !in verdicts
    ensures Picked(changes, verdicts, v) == []
  {
    if |changes| > 0 {
      var last := |changes| - 1;
      assert verdicts[last] in verdicts;
      PickedNone(changes[..last], verdicts[..last], v);
    }
  }

  // The transactions of one operation: they move `deltas` together, and none was known before
  ghost predicate Sent(before: Effects, after: Effects, owner: Node, ids: seq<TxId>, deltas: seq<Delta>)
  {
    && NoDup(ids)
    && (forall id :: id in ids ==> id in after && id !in before && after[id].owner == owner)
    && DeltasOf(after, ids) == deltas
  }

  lemma SentOneMore(e0: Effects, e1: Effects, e2: Effects, owner: Node, ids: seq<TxId>, deltas: seq<Delta>,
                    id: TxId, more: seq<Delta>)
    requires Sent(e0, e1, owner, ids, deltas)
    requires forall x :: x in e0 ==> x in e1
    requires forall x :: x in e1 ==> x in e2 && e2[x] == e1[x]
    requires id !in e1 && id in e2 && e2[id].owner == owner && e2[id].deltas == more
    ensures Sent(e0, e2, owner, ids + [id], deltas + more)
  {
    ChangeStays(e1, e2, ids);
    assert (ids + [id])[..|ids|] == ids;
  }

  // ---- sums over changes ----

  lemma {:induction false} TxidsOfConcat(s: seq<Change>, t: seq<Change>)
    ensures TxidsOf(s + t) == TxidsOf(s) + TxidsOf(t)
    ensures Ids(s + t) == Ids(s) + Ids(t)
  {
    if |t| == 0 {
      assert s + t == s;
    } else {
      assert (s + t)[..|s + t| - 1] == s + t[..|t| - 1];
      TxidsOfConcat(s, t[..|t| - 1]);
    }
  }

  lemma TxidsOfOne(c: Change)
    ensures TxidsOf([c]) == c.txids
  {
    assert [c][..0] == [];
  }

  lemma TxidsOfSnoc(s: seq<Change>, c: Change)
    ensures TxidsOf(s + [c]) == TxidsOf(s) + c.txids
    ensures Ids(s + [c]) == Ids(s) + multiset(c.txids)
  {
    TxidsOfConcat(s, [c]);
    TxidsOfOne(c);
  }

  lemma CountsNoDup(s: seq<TxId>)
    requires Single(multiset(s))
    ensures NoDup(s)
  {
    forall i, j | 0 <= i < j < |s|
      ensures s[i] != s[j]
    {
      assert s == s[..j] + s[j..];
      assert s[i] in s[..j] && s[j] in s[j..];
      assert multiset(s)[s[j]] == multiset(s[..j])[s[j]] + multiset(s[j..])[s[j]];
    }
  }

  // A faithful change adds to the ledger what its transactions add to the wallets
  lemma {:induction false} ChangeIsItsTxs(effects: Effects, node: Node, ids: seq<TxId>, n: Node, a: Asset)
    requires forall id :: id in ids ==> id in effects && effects[id].owner == node
    ensures (if node == n && a == TPC then FeesOf(effects, ids) else 0) + DeltaSum(DeltasOf(effects, ids), n, a)
         == TxSum(effects, ids, n, a)
  {
    if |ids| > 0 {
      var id := ids[|ids| - 1];
      assert id in ids;
      ChangeIsItsTxs(effects, node, ids[..|ids| - 1], n, a);
      DeltaSumConcat(DeltasOf(effects, ids[..|ids| - 1]), effects[id].deltas, n, a);
    }
  }

  lemma {:induction false} AppliedIsItsTxs(effects: Effects, applied: seq<Change>, n: Node, a: Asset)
    requires forall c :: c in applied ==> Faithful(effects, c)
    ensures AppliedSum(effects, applied, n, a) == TxSum(effects, TxidsOf(applied), n, a)
  {
    if |applied| > 0 {
      var init, c := applied[..|applied| - 1], applied[|applied| - 1];
      assert c in applied;
      AppliedIsItsTxs(effects, init, n, a);
      ChangeIsItsTxs(effects, c.node, c.txids, n, a);
      TxSumConcat(effects, TxidsOf(init), c.txids, n, a);
    }
  }

  // ---- the environment moving does not disturb the books ----

  lemma {:induction false} ChangeStays(e: Effects, f: Effects, ids: seq<TxId>)
    requires forall id :: id in ids ==> id in e && id in f && e[id] == f[id]
    ensures FeesOf(e, ids) == FeesOf(f, ids) && DeltasOf(e, ids) == DeltasOf(f, ids)
  {
    if |ids| > 0 {
      assert ids[|ids| - 1] in ids;
      ChangeStays(e, f, ids[..|ids| - 1]);
    }
  }

  lemma FaithfulStays(a: Net, b: Net, c: Change)
    requires Evolves(a, b) && Faithful(a.effects, c)
    ensures Faithful(b.effects, c)
    ensures forall n: Node, asset: Asset :: ChangeSum(b.effects, c, n, asset) == ChangeSum(a.effects, c, n, asset)
  {
    ChangeStays(a.effects, b.effects, c.txids);
  }

  lemma {:induction false} AppliedStays(a: Net, b: Net, applied: seq<Change>, n: Node, asset: Asset)
    requires Evolves(a, b)
    requires forall c :: c in applied ==> Faithful(a.effects, c)
    ensures AppliedSum(b.effects, applied, n, asset) == AppliedSum(a.effects, applied, n, asset)
  {
    if |applied| > 0 {
      assert applied[|applied| - 1] in applied;
      AppliedStays(a, b, applied[..|applied| - 1], n, asset);
      FaithfulStays(a, b, applied[|applied| - 1]);
    }
  }

  lemma ConfirmedStays(a: Net, b: Net, id: TxId)
    requires Evolves(a, b) && Confirmed(a, id)
    ensures Confirmed(b, id)
  {
    var k: nat :| Backed(a, k) && id in Txs(a.chain[..k]);
    BackedStays(a, b, k);
    assert b.chain[..k] == a.chain[..k];
  }

  lemma BooksStay(a: Net, b: Net, seedHeight: nat, seeded: Book, last: nat, book: Book, applied: seq<Change>)
    requires Evolves(a, b) && Books(a, seedHeight, seeded, last, book, applied)
    ensures Books(b, seedHeight, seeded, last, book, applied)
  {
    BackedStays(a, b, last);
    assert b.chain[seedHeight..last] == a.chain[seedHeight..last];
    assert b.chain[..seedHeight] == a.chain[..seedHeight];
    forall n: Node, asset: Asset
      ensures AppliedSum(b.effects, applied, n, asset) == AppliedSum(a.effects, applied, n, asset)
    {
      AppliedStays(a, b, applied, n, asset);
    }
    forall c | c in applied
      ensures Faithful(b.effects, c)
    {
      FaithfulStays(a, b, c);
    }
    forall id | id in TxidsOf(applied)
      ensures Confirmed(b, id)
    {
      ConfirmedStays(a, b, id);
    }
  }

  lemma WaitingStays(a: Net, b: Net, seedHeight: nat, pending: seq<Change>)
    requires Evolves(a, b) && Waiting(a, seedHeight, pending)
    ensures Waiting(b, seedHeight, pending)
  {
    assert b.chain[..seedHeight] == a.chain[..seedHeight];
    forall c | c in pending
      ensures Faithful(b.effects, c)
    {
      FaithfulStays(a, b, c);
    }
  }

  // ---- the two ways the books change ----

  // Crediting the next height keeps the books
  lemma BooksCredit(net: Net, seedHeight: nat, seeded: Book, last: nat, height: nat, book: Book, applied: seq<Change>)
    requires net.Shape() && Books(net, seedHeight, seeded, last, book, applied)
    requires height == last + 1 && Backed(net, height)
    ensures var b := net.chain[last];
            Books(net, seedHeight, seeded, height, Add(book, b.earner, TPC, b.reward), applied)
  {
    var b := net.chain[last];
    forall n: Node, a: Asset
      ensures Mined(net.chain[seedHeight..last + 1], n, a)
           == Mined(net.chain[seedHeight..last], n, a) + (if n == b.earner && a == TPC then b.reward else 0)
    {
      var s := net.chain[seedHeight..last + 1];
      assert s[..|s| - 1] == net.chain[seedHeight..last];
    }
  }

  // Applying one confirmed change keeps the books
  lemma BooksApply(net: Net, seedHeight: nat, seeded: Book, last: nat, book: Book, applied: seq<Change>,
                   c: Change, next: Book)
    requires net.Shape() && Books(net, seedHeight, seeded, last, book, applied)
    requires Faithful(net.effects, c)
    requires forall id :: id in c.txids ==> Confirmed(net, id) && id !in Txs(net.chain[..seedHeight])
    requires forall n: Node, a: Asset :: Get(next, n, a) == Get(book, n, a) + ChangeSum(net.effects, c, n, a)
    ensures Books(net, seedHeight, seeded, last, next, applied + [c])
  {
    assert (applied + [c])[..|applied|] == applied;
    TxidsOfSnoc(applied, c);
  }

  // ---- the exact difference between a wallet and the ledger ----

  /** The wallet differs from the ledger by what the seed missed, plus the effect of every
      wallet transaction in blocks seedHeight + 1 .. last that no applied change covers. */
  lemma LedgerGap(net: Net, seedHeight: nat, seeded: Book, last: nat, book: Book, applied: seq<Change>,
                  n: Node, a: Asset)
    requires ValidNet(net) && Books(net, seedHeight, seeded, last, book, applied)
    requires Single(Ids(applied))
    requires forall id :: id in TxidsOf(applied) ==> id in Txs(net.chain[..last])
    ensures Balance(net.effects, net.chain[..last], n, a) - Get(book, n, a)
         == Balance(net.effects, net.chain[..seedHeight], n, a) - Get(seeded, n, a)
            + TxSum(net.effects, Outside(Txs(net.chain[seedHeight..last]), TxidsOf(applied)), n, a)
  {
    var upTo := net.chain[..last];
    assert upTo[..seedHeight] == net.chain[..seedHeight];
    assert upTo[seedHeight..] == net.chain[seedHeight..last];
    BalanceSplit(net.effects, upTo, seedHeight, n, a);
    TxsSplit(upTo, seedHeight);
    NoDupWindow(net, seedHeight, last);
    CountsNoDup(TxidsOf(applied));
    SplitBySeen(net.effects, Txs(net.chain[seedHeight..last]), TxidsOf(applied), n, a);
    AppliedIsItsTxs(net.effects, applied, n, a);
  }

  lemma NoDupWindow(net: Net, lo: nat, hi: nat)
    requires ValidNet(net) && lo <= hi <= |net.chain|
    ensures NoDup(Txs(net.chain[lo..hi]))
  {
    var upTo := net.chain[..hi];
    TxsSplit(net.chain, hi);
    TxsSplit(upTo, lo);
    assert upTo[lo..] == net.chain[lo..hi];
    var all, head, mid := Txs(net.chain), Txs(upTo[..lo]), Txs(net.chain[lo..hi]);
    forall i, j | 0 <= i < j < |mid|
      ensures mid[i] != mid[j]
    {
      assert mid[i] == all[|head| + i] && mid[j] == all[|head| + j];
    }
  }
}
