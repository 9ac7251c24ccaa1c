/**
 What one trusted comparison of the settle loop establishes, stated on values, and the
 theorems about it: which differences are reported, and when there are none.
 */
module Settlement {
  import opened Options
  import opened Sequences
  import opened Chain
  import opened Network
  import opened Ledger

  datatype Mismatch = Mismatch(height: nat, node: Node, asset: Asset, expected: int, actual: int)

  // 1e-6 of a TPC, in its smallest unit; tokens are compared exactly
  const TPC_TOLERANCE := 100

  predicate Differ(a: Asset, x: int, y: int)
  {
    var tolerance := if a == TPC then TPC_TOLERANCE else 0;
    x - y > tolerance || y - x > tolerance
  }

  // The pairs compared, in order: for each node TPC and then every current colour
  function PairsOf(n: Node, assets: seq<Asset>): (r: seq<(Node, Asset)>)
    ensures forall m: Node, a: Asset :: (m, a) in r <==> m == n && a in assets
  {
    if |assets| == 0 then [] else PairsOf(n, assets[..|assets| - 1]) + [(n, assets[|assets| - 1])]
  }

  function Compared(nodes: seq<Node>, assets: seq<Asset>): (r: seq<(Node, Asset)>)
    ensures forall m: Node, a: Asset :: (m, a) in r <==> m in nodes && a in assets
  {
    if |nodes| == 0 then []
    else
      var last := |nodes| - 1;
      assert nodes == nodes[..last] + [nodes[last]];
      Compared(nodes[..last], assets) + PairsOf(nodes[last], assets)
  }

  function Report(height: nat, book: Book, actual: map<(Node, Asset), int>, pairs: seq<(Node, Asset)>): seq<Mismatch>
    requires forall p :: p in pairs ==> p in actual
  {
    if |pairs| == 0 then []
    else
      var p := pairs[|pairs| - 1];
      var expected := Get(book, p.0, p.1);
      Report(height, book, actual, pairs[..|pairs| - 1])
      + (if Differ(p.1, expected, actual[p]) then [Mismatch(height, p.0, p.1, expected, actual[p])] else [])
  }

  // A pair is reported exactly when ledger and wallet differ by more than the tolerance, with
  // both values as read
  lemma {:induction false} ReportExact(height: nat, book: Book, actual: map<(Node, Asset), int>,
                                       pairs: seq<(Node, Asset)>, m: Mismatch)
    requires forall p :: p in pairs ==> p in actual
    ensures m in Report(height, book, actual, pairs) <==>
              && (m.node, m.asset) in pairs
              && m == Mismatch(height, m.node, m.asset, Get(book, m.node, m.asset), actual[(m.node, m.asset)])
              && Differ(m.asset, m.expected, m.actual)
  {
    if |pairs| > 0 {
      var init := pairs[..|pairs| - 1];
      assert pairs == init + [pairs[|pairs| - 1]];
      ReportExact(height, book, actual, init, m);
    }
  }

  // Where the seeded TPC balance of each node was read, and what it contains
  ghost predicate SeedFacts(net: Net, seedHeight: nat, seeded: Book, seedAt: seq<nat>)
    requires net.Shape()
  {
    && |seedAt| == NODE_COUNT && seedHeight <= |net.chain|
    && (forall p :: p in seeded ==> p.1 == TPC)
    && (forall n: Node ::
          && seedAt[n] <= seedHeight
          && Get(seeded, n, TPC) == Balance(net.effects, net.chain[..seedAt[n]], n, TPC)
          && Coinbase(net.chain[seedAt[n]..seedHeight], n) == 0)
  }

  // No transaction up to the seed height moves this colour
  ghost predicate NewColor(net: Net, seedHeight: nat, color: nat)
    requires seedHeight <= |net.chain|
  {
    forall id :: id in Txs(net.chain[..seedHeight]) && id in net.effects ==> MovesNothing(net.effects[id].deltas, color)
  }

  // The generator's books at one moment, with what is known about how they started
  datatype Account = Account(
    seedHeight: nat, seeded: Book, seedAt: seq<nat>,
    book: Book, applied: seq<Change>, colors: seq<Option<nat>>)

  // The books are right through height `last`, and `pending` may still be applied to them
  ghost predicate InOrder(net: Net, acc: Account, last: nat, pending: seq<Change>)
  {
    && ValidNet(net)
    && Started(net, acc.seedHeight, acc.seeded, acc.seedAt, acc.colors)
    && Books(net, acc.seedHeight, acc.seeded, last, acc.book, acc.applied)
    && Waiting(net, acc.seedHeight, pending)
    && Single(Ids(acc.applied) + Ids(pending))
  }

  // What is known about the start of the run
  ghost predicate Started(net: Net, seedHeight: nat, seeded: Book, seedAt: seq<nat>, colors: seq<Option<nat>>)
    requires net.Shape()
  {
    && SeedFacts(net, seedHeight, seeded, seedAt)
    && |colors| == NODE_COUNT
    && (forall n: Node :: colors[n].Some? ==> NewColor(net, seedHeight, colors[n].value))
  }

  // TPC and every current colour
  function Assets(colors: seq<Option<nat>>): (r: seq<Asset>)
    ensures TPC in r
    ensures forall a :: a in r && a != TPC ==> exists i :: 0 <= i < |colors| && colors[i] == Some(a.id)
  {
    if |colors| == 0 then [TPC]
    else
      var c := colors[|colors| - 1];
      var init := Assets(colors[..|colors| - 1]);
      assert forall i :: 0 <= i < |colors| - 1 ==> colors[..|colors| - 1][i] == colors[i];
      if c.Some? then
        assert colors[|colors| - 1] == Some(c.value);
        init + [Color(c.value)]
      else init
  }

  /** One comparison: the heights were sampled from `before` on, and the last poll, which
      found every node at `height`, ended in `after`. */
  datatype Comparison = Comparison(
    before: Net, after: Net, height: nat, acc: Account, pending: seq<Change>,
    actual: map<(Node, Asset), int>, readAt: map<(Node, Asset), nat>)
  {
    function Pairs(): seq<(Node, Asset)> {
      Compared(AllNodes(), Assets(acc.colors))
    }
  }

  ghost predicate Trusted(c: Comparison)
  {
    && InOrder(c.after, c.acc, c.height, c.pending) && c.before.Shape()
    && (forall id :: id in TxidsOf(c.acc.applied) ==> id in Txs(c.after.chain[..c.height]))
    && (forall p :: p in c.Pairs() ==> p in c.actual && p in c.readAt)
    && (forall p :: p in c.Pairs() ==>
          && c.readAt[p] <= c.height
          && (Steady(c.before, c.after, p.0) ==> c.readAt[p] == c.height)
          && c.actual[p] == Balance(c.after.effects, c.after.chain[..c.readAt[p]], p.0, p.1))
  }

  // The wallet transactions up to the compared height that no ledger entry accounts for:
  // those the seed of n missed, and those of later blocks that no applied change covers
  ghost function Unaccounted(c: Comparison, n: Node, a: Asset): seq<TxId>
    requires Trusted(c)
  {
    (if a == TPC then Txs(c.after.chain[c.acc.seedAt[n]..c.acc.seedHeight]) else [])
    + Outside(Txs(c.after.chain[c.acc.seedHeight..c.height]), TxidsOf(c.acc.applied))
  }

  // ---- how the facts survive later events ----

  lemma SeedFactsStay(a: Net, b: Net, seedHeight: nat, seeded: Book, seedAt: seq<nat>)
    requires ValidNet(a) && Evolves(a, b) && SeedFacts(a, seedHeight, seeded, seedAt)
    ensures SeedFacts(b, seedHeight, seeded, seedAt)
  {
    forall n: Node
      ensures Get(seeded, n, TPC) == Balance(b.effects, b.chain[..seedAt[n]], n, TPC)
      ensures Coinbase(b.chain[seedAt[n]..seedHeight], n) == 0
    {
      BalanceStays(a, b, seedAt[n], n, TPC);
      assert b.chain[seedAt[n]..seedHeight] == a.chain[seedAt[n]..seedHeight];
    }
  }

  lemma NewColorStays(a: Net, b: Net, seedHeight: nat, color: nat)
    requires ValidNet(a) && Evolves(a, b) && seedHeight <= |a.chain| && NewColor(a, seedHeight, color)
    ensures NewColor(b, seedHeight, color)
  {
    assert b.chain[..seedHeight] == a.chain[..seedHeight];
    forall id | id in Txs(b.chain[..seedHeight])
      ensures id in a.effects
    {
      TxsMember(a.chain, seedHeight, id);
    }
  }

  lemma StartedStays(a: Net, b: Net, seedHeight: nat, seeded: Book, seedAt: seq<nat>, colors: seq<Option<nat>>)
    requires ValidNet(a) && Evolves(a, b) && Started(a, seedHeight, seeded, seedAt, colors)
    ensures Started(b, seedHeight, seeded, seedAt, colors)
  {
    SeedFactsStay(a, b, seedHeight, seeded, seedAt);
    forall n: Node | colors[n].Some?
      ensures NewColor(b, seedHeight, colors[n].value)
    {
      NewColorStays(a, b, seedHeight, colors[n].value);
    }
  }

  lemma InOrderStays(a: Net, b: Net, acc: Account, last: nat, pending: seq<Change>)
    requires InOrder(a, acc, last, pending) && Evolves(a, b) && ValidNet(b)
    ensures InOrder(b, acc, last, pending)
  {
    StartedStays(a, b, acc.seedHeight, acc.seeded, acc.seedAt, acc.colors);
    BooksStay(a, b, acc.seedHeight, acc.seeded, last, acc.book, acc.applied);
    WaitingStays(a, b, acc.seedHeight, pending);
  }

  // The account after the coinbase of a block was credited
  function Credited(acc: Account, block: Block): Account
  {
    acc.(book := Add(acc.book, block.earner, TPC, block.reward))
  }

  // Crediting the block at the next height
  lemma CreditKeepsOrder(a: Net, b: Net, acc: Account, last: nat, height: nat, pending: seq<Change>)
    requires height == last + 1 && InOrder(a, acc, last, pending)
    requires Evolves(a, b) && ValidNet(b) && Backed(b, height)
    ensures InOrder(b, Credited(acc, b.chain[last]), height, pending)
  {
    InOrderStays(a, b, acc, last, pending);
    CreditNow(b, acc, last, height, pending);
  }

  lemma CreditNow(net: Net, acc: Account, last: nat, height: nat, pending: seq<Change>)
    requires height == last + 1 && InOrder(net, acc, last, pending) && Backed(net, height)
    ensures InOrder(net, Credited(acc, net.chain[last]), height, pending)
  {
    BooksCredit(net, acc.seedHeight, acc.seeded, last, height, acc.book, acc.applied);
    NewBook(net, acc, last, height, pending, Credited(acc, net.chain[last]).book);
  }

  lemma NewBook(net: Net, acc: Account, last: nat, height: nat, pending: seq<Change>, book: Book)
    requires InOrder(net, acc, last, pending)
    requires Books(net, acc.seedHeight, acc.seeded, height, book, acc.applied)
    ensures InOrder(net, acc.(book := book), height, pending)
  {
  }

  lemma SingleWithout(a: multiset<TxId>, b: multiset<TxId>, c: multiset<TxId>)
    requires Single(a + b) && c <= b
    ensures Single(a + c)
  {
    forall id ensures (a + c)[id] <= 1 {
      assert (a + b)[id] <= 1;
    }
  }

  lemma IdsAround(s: seq<Change>, c: Change, t: seq<Change>)
    ensures Ids(s + [c] + t) == Ids(s + t) + multiset(c.txids)
    ensures TxidsOf(s + [c] + t) == TxidsOf(s) + c.txids + TxidsOf(t)
    ensures TxidsOf(s + t) == TxidsOf(s) + TxidsOf(t)
  {
    TxidsOfSnoc(s, c);
    TxidsOfConcat(s + [c], t);
    TxidsOfConcat(s, t);
  }

  // A change whose transactions were not known before may join the pending ones
  lemma SubmitKeepsOrder(a: Net, b: Net, acc: Account, last: nat, pending: seq<Change>, c: Change)
    requires InOrder(a, acc, last, pending) && Evolves(a, b) && ValidNet(b)
    requires Faithful(b.effects, c) && NoDup(c.txids)
    requires forall id :: id in c.txids ==> id !in a.effects
    ensures InOrder(b, acc, last, pending + [c])
  {
    InOrderStays(a, b, acc, last, pending);
    TxidsOfSnoc(pending, c);
    SubmitIsNew(a, acc, last, pending, c);
    SubmitWaits(a, b, acc, last, pending, c);
  }

  lemma SubmitWaits(a: Net, b: Net, acc: Account, last: nat, pending: seq<Change>, c: Change)
    requires InOrder(a, acc, last, pending) && Evolves(a, b)
    requires Waiting(b, acc.seedHeight, pending) && Faithful(b.effects, c)
    requires forall id :: id in c.txids ==> id !in a.effects
    ensures Waiting(b, acc.seedHeight, pending + [c])
  {
    TxidsOfSnoc(pending, c);
    assert b.chain[..acc.seedHeight] == a.chain[..acc.seedHeight];
    forall id | id in c.txids
      ensures id !in Txs(b.chain[..acc.seedHeight])
    {
      if id in Txs(a.chain[..acc.seedHeight]) {
        TxsMember(a.chain, acc.seedHeight, id);
      }
    }
  }

  lemma {:induction false} KnownIds(effects: Effects, changes: seq<Change>, id: TxId)
    requires forall c :: c in changes ==> Faithful(effects, c)
    requires id in TxidsOf(changes)
    ensures id in effects
  {
    var last := |changes| - 1;
    if id in changes[last].txids {
      assert changes[last] in changes;
    } else {
      KnownIds(effects, changes[..last], id);
    }
  }

  lemma SubmitIsNew(net: Net, acc: Account, last: nat, pending: seq<Change>, c: Change)
    requires InOrder(net, acc, last, pending) && NoDup(c.txids)
    requires forall id :: id in c.txids ==> id !in net.effects
    ensures Single(Ids(acc.applied) + Ids(pending + [c]))
  {
    TxidsOfSnoc(pending, c);
    forall id
      ensures (Ids(acc.applied) + Ids(pending) + multiset(c.txids))[id] <= 1
    {
      NoDupCounts(c.txids, id);
      assert (Ids(acc.applied) + Ids(pending))[id] <= 1;
      if id in c.txids {
        if id in TxidsOf(acc.applied) {
          KnownIds(net.effects, acc.applied, id);
        }
        if id in TxidsOf(pending) {
          KnownIds(net.effects, pending, id);
        }
      }
    }
    assert Ids(acc.applied) + Ids(pending + [c]) == Ids(acc.applied) + Ids(pending) + multiset(c.txids);
  }

  // Forgetting one of the pending changes
  lemma DropKeepsOrder(net: Net, acc: Account, last: nat, s: seq<Change>, c: Change, t: seq<Change>)
    requires InOrder(net, acc, last, s + [c] + t)
    ensures InOrder(net, acc, last, s + t)
  {
    assert Waiting(net, acc.seedHeight, s + t) by {
      IdsAround(s, c, t);
      forall x | x in s + t ensures x in s + [c] + t {}
    }
    assert Single(Ids(acc.applied) + Ids(s + t)) by {
      IdsAround(s, c, t);
      SingleWithout(Ids(acc.applied), Ids(s + [c] + t), Ids(s + t));
    }
  }

  lemma KeepOrderWithout(net: Net, acc: Account, last: nat, pending: seq<Change>)
    requires InOrder(net, acc, last, pending)
    ensures InOrder(net, acc, last, [])
  {
    SingleWithout(Ids(acc.applied), Ids(pending), Ids([]));
  }

  // Applying one of the pending changes once all its transactions are confirmed
  lemma ApplyKeepsOrder(net: Net, acc: Account, last: nat, s: seq<Change>, c: Change, t: seq<Change>, book: Book)
    requires InOrder(net, acc, last, s + [c] + t)
    requires forall id :: id in c.txids ==> Confirmed(net, id)
    requires forall n: Node, a: Asset :: Get(book, n, a) == Get(acc.book, n, a) + ChangeSum(net.effects, c, n, a)
    ensures InOrder(net, acc.(book := book, applied := acc.applied + [c]), last, s + t)
  {
    assert c in s + [c] + t;
    assert Books(net, acc.seedHeight, acc.seeded, last, book, acc.applied + [c]) by {
      IdsAround(s, c, t);
      BooksApply(net, acc.seedHeight, acc.seeded, last, acc.book, acc.applied, c, book);
    }
    assert Waiting(net, acc.seedHeight, s + t) by {
      DropKeepsOrder(net, acc, last, s, c, t);
    }
    assert Single(Ids(acc.applied + [c]) + Ids(s + t)) by {
      IdsAround(s, c, t);
      TxidsOfSnoc(acc.applied, c);
      assert Ids(acc.applied + [c]) + Ids(s + t) == Ids(acc.applied) + Ids(s + [c] + t);
    }
  }

  // ---- the seed ----

  lemma {:induction false} NothingMoved(effects: Effects, ids: seq<TxId>, n: Node, color: nat)
    requires forall id :: id in ids && id in effects ==> MovesNothing(effects[id].deltas, color)
    ensures TxSum(effects, ids, n, Color(color)) == 0
  {
    if |ids| > 0 {
      var id := ids[|ids| - 1];
      assert id in ids;
      NothingMoved(effects, ids[..|ids| - 1], n, color);
      if id in effects {
        NoDelta(effects[id].deltas, n, color);
      }
    }
  }

  lemma {:induction false} NoDelta(deltas: seq<Delta>, n: Node, color: nat)
    requires MovesNothing(deltas, color)
    ensures DeltaSum(deltas, n, Color(color)) == 0
  {
    if |deltas| > 0 {
      NoDelta(deltas[..|deltas| - 1], n, color);
    }
  }

  /** The seed differs from the wallet at the seed height only by transactions in blocks the
      node did not hold when its balance was read; coinbase is never missed nor doubled. */
  lemma SeedGap(net: Net, seedHeight: nat, seeded: Book, seedAt: seq<nat>, n: Node)
    requires net.Shape() && SeedFacts(net, seedHeight, seeded, seedAt)
    ensures Balance(net.effects, net.chain[..seedHeight], n, TPC) - Get(seeded, n, TPC)
         == TxSum(net.effects, Txs(net.chain[seedAt[n]..seedHeight]), n, TPC)
  {
    var upTo := net.chain[..seedHeight];
    assert upTo[..seedAt[n]] == net.chain[..seedAt[n]];
    assert upTo[seedAt[n]..] == net.chain[seedAt[n]..seedHeight];
    BalanceSplit(net.effects, upTo, seedAt[n], n, TPC);
  }

  // The highest of the heights answered, if anyone answered
  function MaxReachable(seen: seq<Option<nat>>): (r: Option<nat>)
    ensures r.None? <==> forall i :: 0 <= i < |seen| ==> seen[i].None?
    ensures r.Some? ==> r in seen && forall i :: 0 <= i < |seen| && seen[i].Some? ==> seen[i].value <= r.value
  {
    if |seen| == 0 then None
    else
      var last := |seen| - 1;
      var m := MaxReachable(seen[..last]);
      if seen[last].Some? && (m.None? || m.value < seen[last].value) then seen[last] else m
  }

  // The earners already held the highest height when the first poll ended
  lemma HighestBacked(s0: Net, s1: Net, s3: Net, j: Node, h: nat)
    requires Evolves(s0, s1) && Evolves(s1, s3) && HeightSample(s0, s1, j, Some(h))
    ensures Backed(s1, h) && Backed(s3, h)
  {
    BackedStays(s1, s3, h);
  }

  // A node read at height `at` earned no block between that height and the highest one
  lemma NothingEarnedBetween(s1: Net, s2: Net, s3: Net, n: Node, at: nat, h: nat, v: int)
    requires Evolves(s1, s2) && Evolves(s2, s3) && Backed(s1, h) && Backed(s3, h)
    requires BalanceSample(s1, s2, n, TPC, at, v) && at <= h
    ensures Coinbase(s3.chain[at..h], n) == 0
  {
    forall i | at <= i < h
      ensures s3.chain[i].earner != n
    {
      assert s1.chain[i] == s3.chain[i];
    }
    CoinbaseNone(s3.chain[at..h], n);
  }

  // An earner answered the same height twice, so its balance was read at that height
  lemma EarnerPinned(s0: Net, s1: Net, s2: Net, s3: Net, n: Node, at: nat, v: int, seen: Option<nat>)
    requires Evolves(s0, s1) && Evolves(s1, s2) && Evolves(s2, s3) && IsEarner(n)
    requires HeightSample(s0, s1, n, seen) && HeightSample(s2, s3, n, seen)
    requires BalanceSample(s1, s2, n, TPC, at, v)
    ensures seen == Some(at)
  {
  }

  /** The seeding double read is sound.  Equal height vectors before and after the balance
      reads pin every earner to one height, and the highest height answered is one for which
      no earner's coinbase is missing from, or doubled by, its seeded balance. */
  lemma SeedSound(s0: Net, s1: Net, s2: Net, s3: Net, seen: seq<Option<nat>>, h: nat,
                  book: Book, at: seq<nat>)
    requires ValidNet(s2) && Evolves(s0, s1) && Evolves(s1, s2) && Evolves(s2, s3)
    requires |seen| == NODE_COUNT && MaxReachable(seen) == Some(h)
    requires forall n: Node :: HeightSample(s0, s1, n, seen[n]) && HeightSample(s2, s3, n, seen[n])
    requires |at| == NODE_COUNT && forall n: Node :: BalanceSample(s1, s2, n, TPC, at[n], Get(book, n, TPC))
    requires forall p :: p in book ==> p.1 == TPC
    ensures SeedFacts(s3, h, book, at) && Backed(s3, h)
    ensures forall n: Node :: IsEarner(n) ==> seen[n] == Some(at[n])
  {
    var j: Node := IndexOf(seen, Some(h));
    EvolvesTransitive(s1, s2, s3);
    assert HeightSample(s0, s1, j, seen[j]);
    HighestBacked(s0, s1, s3, j, h);
    forall n: Node
      ensures at[n] <= h && Get(book, n, TPC) == Balance(s3.effects, s3.chain[..at[n]], n, TPC)
      ensures Coinbase(s3.chain[at[n]..h], n) == 0
      ensures IsEarner(n) ==> seen[n] == Some(at[n])
    {
      SeedOneNode(s0, s1, s2, s3, seen, h, n, at[n], Get(book, n, TPC));
    }
  }

  lemma TpcReadings(s1: Net, s2: Net, pairs: seq<(Node, Asset)>,
                    book: Book, readAt: map<(Node, Asset), nat>, at: seq<nat>)
    requires s1.Shape() && s2.Shape()
    requires forall n: Node :: (n, TPC) in pairs
    requires forall p :: p in pairs ==> p.1 == TPC
    requires forall p :: p in pairs ==>
               p in book && p in readAt && BalanceSample(s1, s2, p.0, p.1, readAt[p], book[p])
    requires forall p :: p in book ==> p in pairs
    requires |at| == NODE_COUNT && forall n: Node :: (n, TPC) in readAt ==> at[n] == readAt[(n, TPC)]
    ensures forall n: Node :: BalanceSample(s1, s2, n, TPC, at[n], Get(book, n, TPC))
    ensures forall p :: p in book ==> p.1 == TPC
  {
  }

  function IndexOf(seen: seq<Option<nat>>, x: Option<nat>): (i: nat)
    requires x in seen
    ensures i < |seen| && seen[i] == x
  {
    if seen[0] == x then 0 else 1 + IndexOf(seen[1..], x)
  }

  lemma SeedOneNode(s0: Net, s1: Net, s2: Net, s3: Net, seen: seq<Option<nat>>, h: nat, n: Node, at: nat, v: int)
    requires ValidNet(s2) && Evolves(s0, s1) && Evolves(s1, s2) && Evolves(s2, s3)
    requires |seen| == NODE_COUNT && MaxReachable(seen) == Some(h) && Backed(s1, h) && Backed(s3, h)
    requires forall m: Node :: HeightSample(s0, s1, m, seen[m]) && HeightSample(s2, s3, m, seen[m])
    requires BalanceSample(s1, s2, n, TPC, at, v)
    ensures at <= h && v == Balance(s3.effects, s3.chain[..at], n, TPC)
    ensures Coinbase(s3.chain[at..h], n) == 0
    ensures IsEarner(n) ==> seen[n] == Some(at)
  {
    BackedIsReported(s2, s2, s3, at, h, seen);
    BalanceStays(s2, s3, at, n, TPC);
    NothingEarnedBetween(s1, s2, s3, n, at, h, v);
    assert HeightSample(s0, s1, n, seen[n]) && HeightSample(s2, s3, n, seen[n]);
    if IsEarner(n) {
      EarnerPinned(s0, s1, s2, s3, n, at, v, seen[n]);
    }
  }

  /** Anchoring the seed at a height m below the one an earner was read at makes the heights
      credited later overlap the seeded balance: the ledger is too high by exactly the
      coinbase earned in between. */
  lemma LowAnchorCreditsTwice(net: Net, m: nat, at: nat, last: nat, e: Node)
    requires m <= at <= last <= |net.chain|
    ensures Balance(net.effects, net.chain[..at], e, TPC) + Coinbase(net.chain[m..last], e)
              + TxSum(net.effects, Txs(net.chain[at..last]), e, TPC)
            - Balance(net.effects, net.chain[..last], e, TPC)
         == Coinbase(net.chain[m..at], e)
  {
    SliceApart(net.chain, 0, at, last);
    BalanceSplit(net.effects, net.chain[..last], at, e, TPC);
    CoinbaseApart(net.chain, m, at, last, e);
  }

  lemma CoinbaseApart(chain: seq<Block>, lo: nat, mid: nat, hi: nat, n: Node)
    requires lo <= mid <= hi <= |chain|
    ensures Coinbase(chain[lo..hi], n) == Coinbase(chain[lo..mid], n) + Coinbase(chain[mid..hi], n)
  {
    SliceApart(chain, lo, mid, hi);
    CoinbaseSplit(chain[lo..hi], mid - lo, n);
  }

  // The lowest of the heights answered, if anyone answered
  function MinReachable(seen: seq<Option<nat>>): (r: Option<nat>)
    ensures r.None? <==> forall i :: 0 <= i < |seen| ==> seen[i].None?
    ensures r.Some? ==> r in seen && forall i :: 0 <= i < |seen| && seen[i].Some? ==> r.value <= seen[i].value
  {
    if |seen| == 0 then None
    else
      var last := |seen| - 1;
      var m := MinReachable(seen[..last]);
      if seen[last].Some? && (m.None? || seen[last].value < m.value) then seen[last] else m
  }

  // What every node answers in a network that stands still
  function Answers(net: Net): (r: seq<Option<nat>>)
    requires net.Shape()
    ensures |r| == NODE_COUNT
  {
    seq(NODE_COUNT, n requires 0 <= n < NODE_COUNT => if net.up[n] then Some(net.height[n]) else None)
  }

  /** In any network that stands still while some node n answers from below an earner e, the
      double read succeeds, and anchoring the seed at the lowest height answered credits e once
      more with everything it earned between that height and its own. */
  lemma LowestAnchorCreditsTwice(net: Net, n: Node, e: Node, last: nat)
    requires ValidNet(net) && IsEarner(e) && net.up[n] && net.height[n] < net.height[e] <= last <= |net.chain|
    ensures forall k: Node :: HeightSample(net, net, k, Answers(net)[k])
    ensures
      var m := MinReachable(Answers(net));
      var own := Balance(net.effects, net.chain[..net.height[e]], e, TPC);
      && m.Some? && m.value <= net.height[n]
      && BalanceSample(net, net, e, TPC, net.height[e], own)
      && own + Coinbase(net.chain[m.value..last], e) + TxSum(net.effects, Txs(net.chain[net.height[e]..last]), e, TPC)
         == Balance(net.effects, net.chain[..last], e, TPC) + Coinbase(net.chain[m.value..net.height[e]], e)
  {
    var seen := Answers(net);
    assert seen[n] == Some(net.height[n]);
    forall k: Node ensures Backed(net, net.height[k]) && HeightSample(net, net, k, seen[k]) {
      assert Backed(net, net.height[k]);
    }
    assert Backed(net, net.height[e]);
    LowAnchorCreditsTwice(net, MinReachable(seen).value, net.height[e], last, e);
  }

  // Right after seeding the books are in order with nothing credited and nothing applied
  lemma SeededInOrder(net: Net, h: nat, book: Book, at: seq<nat>, colors: seq<Option<nat>>)
    requires ValidNet(net) && SeedFacts(net, h, book, at) && Backed(net, h)
    requires colors == seq(NODE_COUNT, _ => None)
    ensures InOrder(net, Account(h, book, at, book, [], colors), h, [])
  {
    assert net.chain[h..h] == [];
    assert Books(net, h, book, h, book, []) by {
      forall n: Node, a: Asset
        ensures Get(book, n, a) == Get(book, n, a) + Mined(net.chain[h..h], n, a) + AppliedSum(net.effects, [], n, a)
      {
      }
    }
  }

  /** What makes a comparison trustworthy: every node answered the same height before and
      after the balances were read, so nothing applied and nothing read lies above it. */
  lemma ComparisonTrusted(since: Net, mid: Net, third: Net, after: Net, h: nat, acc: Account, pending: seq<Change>,
                          actual: map<(Node, Asset), int>, readAt: map<(Node, Asset), nat>)
    requires InOrder(third, acc, h, pending) && InOrder(after, acc, h, pending)
    requires Evolves(since, mid) && Evolves(mid, third) && Evolves(third, after)
    requires forall n: Node :: HeightSample(since, mid, n, Some(h)) && HeightSample(third, after, n, Some(h))
    requires forall p :: p in Compared(AllNodes(), Assets(acc.colors)) ==>
               p in actual && p in readAt && BalanceSample(mid, third, p.0, p.1, readAt[p], actual[p])
    ensures Trusted(Comparison(since, after, h, acc, pending, actual, readAt))
  {
    var c := Comparison(since, after, h, acc, pending, actual, readAt);
    var seen := seq(NODE_COUNT, _ => Some(h));
    forall id | id in TxidsOf(acc.applied)
      ensures id in Txs(after.chain[..h])
    {
      AppliedBelow(third, after, acc, h, pending, id);
    }
    forall p | p in c.Pairs()
      ensures c.readAt[p] <= h
      ensures Steady(since, after, p.0) ==> c.readAt[p] == h
      ensures c.actual[p] == Balance(after.effects, after.chain[..c.readAt[p]], p.0, p.1)
    {
      assert BalanceSample(mid, third, p.0, p.1, readAt[p], actual[p]);
      assert HeightSample(since, mid, p.0, Some(h)) && HeightSample(third, after, p.0, Some(h));
      BackedIsReported(third, third, after, readAt[p], h, seen);
      BalanceStays(third, after, readAt[p], p.0, p.1);
    }
  }

  lemma AppliedBelow(third: Net, after: Net, acc: Account, h: nat, pending: seq<Change>, id: TxId)
    requires InOrder(third, acc, h, pending) && Evolves(third, after) && h <= |after.chain|
    requires forall n: Node :: HeightSample(third, after, n, Some(h))
    requires id in TxidsOf(acc.applied)
    ensures id in Txs(after.chain[..h])
  {
    assert Confirmed(third, id);
    var k: nat :| Backed(third, k) && id in Txs(third.chain[..k]);
    BackedIsReported(third, third, after, k, h, seq(NODE_COUNT, _ => Some(h)));
    assert after.chain[..h][..k] == third.chain[..k];
    TxsMember(after.chain[..h], k, id);
  }

  // Once all heights agree, nothing above that height was ever credited, and node 0 holds it
  lemma AgreedHeight(start: Net, since: Net, net: Net, last: nat, h: nat)
    requires Evolves(start, since) && Evolves(since, net) && Backed(start, last)
    requires forall n: Node :: HeightSample(since, net, n, Some(h))
    ensures last <= h && Backed(net, h) && h <= net.height[0]
  {
    BackedIsReported(start, since, net, last, h, seq(NODE_COUNT, _ => Some(h)));
    assert HeightSample(since, net, 0, Some(h));
  }

  lemma AgreedStays(since: Net, a: Net, b: Net, h: nat)
    requires Evolves(since, a) && Evolves(a, b)
    requires forall n: Node :: HeightSample(since, a, n, Some(h))
    ensures forall n: Node :: HeightSample(since, b, n, Some(h))
    ensures Evolves(since, b)
  {
    EvolvesTransitive(since, a, b);
    forall n: Node ensures HeightSample(since, b, n, Some(h)) {
      HeightSampleWidens(since, since, a, b, n, Some(h));
    }
  }

  // A pass is discarded only because some node moved or went away since the heights agreed
  lemma DiscardMeansMoved(since: Net, mid: Net, third: Net, after: Net, n: Node, h: nat, v: Option<nat>)
    requires Evolves(since, mid) && Evolves(mid, third) && Evolves(third, after)
    requires HeightSample(since, mid, n, Some(h)) && HeightSample(third, after, n, v) && v != Some(h)
    ensures after.moves < since.moves
  {
  }

  // ---- the settle theorems ----

  // Wallet minus ledger at the compared height is the effect of the unaccounted transactions
  lemma WalletMinusLedger(c: Comparison, n: Node, a: Asset)
    requires Trusted(c) && a in Assets(c.acc.colors)
    ensures Balance(c.after.effects, c.after.chain[..c.height], n, a) - Get(c.acc.book, n, a)
         == TxSum(c.after.effects, Unaccounted(c, n, a), n, a)
  {
    var net := c.after;
    forall id ensures Ids(c.acc.applied)[id] <= 1 {
      assert (Ids(c.acc.applied) + Ids(c.pending))[id] <= 1;
    }
    LedgerGap(net, c.acc.seedHeight, c.acc.seeded, c.height, c.acc.book, c.acc.applied, n, a);
    var late := Outside(Txs(net.chain[c.acc.seedHeight..c.height]), TxidsOf(c.acc.applied));
    match a
    case TPC =>
      SeedGap(net, c.acc.seedHeight, c.acc.seeded, c.acc.seedAt, n);
      TxSumConcat(net.effects, Txs(net.chain[c.acc.seedAt[n]..c.acc.seedHeight]), late, n, a);
    case Color(color) =>
      NothingMoved(net.effects, Txs(net.chain[..c.acc.seedHeight]), n, color);
      assert (n, a) !in c.acc.seeded;
      assert [] + late == late;
  }

  // The transactions of the blocks n lacked while its balance was read
  ghost function Lacked(c: Comparison, n: Node, a: Asset): seq<TxId>
    requires Trusted(c) && (n, a) in c.Pairs()
  {
    Txs(c.after.chain[c.readAt[(n, a)]..c.height])
  }

  // What was read is the wallet at the compared height, less the blocks the node lacked
  lemma ReadIsBehind(c: Comparison, n: Node, a: Asset)
    requires Trusted(c) && (n, a) in c.Pairs()
    ensures Balance(c.after.effects, c.after.chain[..c.height], n, a)
         == c.actual[(n, a)] + TxSum(c.after.effects, Lacked(c, n, a), n, a)
    ensures Steady(c.before, c.after, n) ==> Lacked(c, n, a) == []
  {
    var upTo, k := c.after.chain[..c.height], c.readAt[(n, a)];
    assert upTo[..k] == c.after.chain[..k];
    assert upTo[k..] == c.after.chain[k..c.height];
    BalanceSplit(c.after.effects, upTo, k, n, a);
    if !IsEarner(n) {
      assert Backed(c.after, c.height);
      CoinbaseNone(upTo[k..], n);
    }
  }

  /** The difference a pass sees, for every node and under every interleaving: the effect of
      the unaccounted transactions, less that of the blocks the node had lost at that moment.
      Coinbase never contributes. */
  lemma SeenDifference(c: Comparison, n: Node, a: Asset)
    requires Trusted(c) && (n, a) in c.Pairs()
    ensures c.actual[(n, a)] - Get(c.acc.book, n, a)
         == TxSum(c.after.effects, Unaccounted(c, n, a), n, a) - TxSum(c.after.effects, Lacked(c, n, a), n, a)
    ensures Steady(c.before, c.after, n) ==> Lacked(c, n, a) == []
  {
    WalletMinusLedger(c, n, a);
    ReadIsBehind(c, n, a);
  }

  // The comparison has an entry for this pair
  ghost predicate IsReported(c: Comparison, n: Node, a: Asset)
    requires Trusted(c)
  {
    exists m :: m in Report(c.height, c.acc.book, c.actual, c.Pairs()) && m.node == n && m.asset == a
  }

  /** A pair is reported exactly when those two effects differ by more than the tolerance. */
  lemma MismatchExactly(c: Comparison, n: Node, a: Asset)
    requires Trusted(c) && (n, a) in c.Pairs()
    ensures IsReported(c, n, a)
        <==> Differ(a, TxSum(c.after.effects, Unaccounted(c, n, a), n, a), TxSum(c.after.effects, Lacked(c, n, a), n, a))
  {
    var pairs := c.Pairs();
    SeenDifference(c, n, a);
    var m := Mismatch(c.height, n, a, Get(c.acc.book, n, a), c.actual[(n, a)]);
    ReportExact(c.height, c.acc.book, c.actual, pairs, m);
    forall x | x in Report(c.height, c.acc.book, c.actual, pairs) && x.node == n && x.asset == a
      ensures x == m
    {
      ReportExact(c.height, c.acc.book, c.actual, pairs, x);
    }
  }

  /** A spend nobody kept track of, such as a seed self-send whose issuance failed or a send
      that timed out after it was broadcast, enters the difference by its own effect, whatever
      else is unaccounted for; and the pair is reported exactly when these effects do not happen
      to cancel up to the tolerance. */
  lemma UntrackedSpendIsReported(c: Comparison, n: Node, a: Asset, k: nat)
    requires Trusted(c) && (n, a) in c.Pairs() && k < |Unaccounted(c, n, a)|
    ensures
      var own := Move(c.after.effects, Unaccounted(c, n, a)[k], n, a);
      var others := OfOthers(c.after.effects, Unaccounted(c, n, a), k, Lacked(c, n, a), n, a);
      && c.actual[(n, a)] - Get(c.acc.book, n, a) == own + others
      && (IsReported(c, n, a) <==> Differ(a, own, -others))
  {
    SeenDifference(c, n, a);
    MismatchExactly(c, n, a);
    OneAmongOthers(c.after.effects, Unaccounted(c, n, a), k, n, a, Lacked(c, n, a));
  }

  // What all transactions but the k-th, and the lacked blocks, make of the difference
  function OfOthers(effects: Effects, spent: seq<TxId>, k: nat, lacked: seq<TxId>, n: Node, a: Asset): int
    requires k < |spent|
  {
    TxSum(effects, spent[..k] + spent[k + 1..], n, a) - TxSum(effects, lacked, n, a)
  }

  lemma OneAmongOthers(effects: Effects, spent: seq<TxId>, k: nat, n: Node, a: Asset, lacked: seq<TxId>)
    requires k < |spent|
    ensures
      var own, others := Move(effects, spent[k], n, a), OfOthers(effects, spent, k, lacked, n, a);
      && TxSum(effects, spent, n, a) - TxSum(effects, lacked, n, a) == own + others
      && (Differ(a, TxSum(effects, spent, n, a), TxSum(effects, lacked, n, a)) <==> Differ(a, own, -others))
  {
    RemoveOne(effects, spent, k, n, a);
  }

  // Every wallet transaction since the seed belongs to a change the generator kept, and the
  // seed itself missed none
  ghost predicate AllTracked(c: Comparison)
    requires Trusted(c)
  {
    && (forall n: Node :: Txs(c.after.chain[c.acc.seedAt[n]..c.acc.seedHeight]) == [])
    && (forall id :: id in Txs(c.after.chain[c.acc.seedHeight..c.height]) ==>
          id in TxidsOf(c.acc.applied) || id in TxidsOf(c.pending))
  }

  lemma TrackedMeansAccounted(c: Comparison, n: Node, a: Asset)
    requires Trusted(c) && AllTracked(c) && c.pending == []
    ensures Unaccounted(c, n, a) == []
  {
    OutsideNothing(Txs(c.after.chain[c.acc.seedHeight..c.height]), TxidsOf(c.acc.applied));
  }

  /** With every wallet transaction tracked, nothing pending and no invalidation during the
      pass, nothing is reported. */
  lemma NoFalseMismatch(c: Comparison)
    requires Trusted(c) && AllTracked(c) && c.pending == []
    requires forall n: Node :: Steady(c.before, c.after, n)
    ensures Report(c.height, c.acc.book, c.actual, c.Pairs()) == []
  {
    var pairs := c.Pairs();
    forall p | p in pairs
      ensures c.actual[p] == Get(c.acc.book, p.0, p.1)
    {
      SeenDifference(c, p.0, p.1);
      TrackedMeansAccounted(c, p.0, p.1);
    }
    ReportNothing(c.height, c.acc.book, c.actual, pairs);
  }

  lemma {:induction false} ReportNothing(height: nat, book: Book, actual: map<(Node, Asset), int>,
                                         pairs: seq<(Node, Asset)>)
    requires forall p :: p in pairs ==> p in actual && actual[p] == Get(book, p.0, p.1)
    ensures Report(height, book, actual, pairs) == []
  {
    if |pairs| > 0 {
      assert pairs[|pairs| - 1] in pairs;
      ReportNothing(height, book, actual, pairs[..|pairs| - 1]);
    }
  }

  // ---- the steadiness hypothesis is needed ----

  // A run from a to b can pass through a state in which n answers from below its height in a
  ghost predicate CanBeReadLower(a: Net, b: Net, n: Node)
    requires a.Shape()
  {
    exists mid :: ValidNet(mid) && Evolves(a, mid) && Evolves(mid, b) && mid.up[n] && mid.height[n] < a.height[n]
  }

  lemma LowerBetween(a: Net, b: Net, n: Node) returns (mid: Net)
    requires ValidNet(a) && ValidNet(b) && Evolves(a, b) && !Steady(a, b, n)
    requires a.height[n] > 0 && b.moves + 1 < a.moves
    ensures ValidNet(mid) && Evolves(a, mid) && Evolves(mid, b) && mid.up[n] && mid.height[n] < a.height[n]
  {
    var h := if b.height[n] < a.height[n] then b.height[n] else a.height[n] - 1;
    mid := a.(height := a.height[n := h], up := a.up[n := true], cuts := a.cuts[n := a.cuts[n] + 1],
              moves := a.moves - 1);
    forall k: nat | k < NODE_COUNT ensures Backed(mid, mid.height[k]) {
      assert Backed(a, a.height[k]) && Backed(a, a.height[n]);
    }
    assert Evolves(a, mid);
    forall k | 0 <= k < NODE_COUNT
      ensures mid.cuts[k] <= b.cuts[k] && (mid.cuts[k] == b.cuts[k] ==> mid.height[k] <= b.height[k])
    {
      assert a.cuts[k] <= b.cuts[k];
    }
  }

  /** For every node, every height above zero and every two states between which the network
      moved at least twice: a balance can be read below the first height if and only if the
      node is not steady.  So what Trusted says of steady nodes cannot be said of any other. */
  lemma SteadyIsExact(a: Net, b: Net, n: Node)
    requires ValidNet(a) && ValidNet(b) && Evolves(a, b) && a.height[n] > 0 && b.moves + 1 < a.moves
    ensures CanBeReadLower(a, b, n) <==> !Steady(a, b, n)
  {
    if !Steady(a, b, n) {
      var mid := LowerBetween(a, b, n);
    } else {
      forall mid | ValidNet(mid) && Evolves(a, mid) && Evolves(mid, b)
        ensures a.height[n] <= mid.height[n]
      {
        assert a.cuts[n] <= mid.cuts[n] <= b.cuts[n];
      }
    }
  }

  // One block with one transaction, by which node 1 pays 3 plus a fee of 2
  const EFFECTS: Effects := map[7 := TxInfo(1, -2, [Delta(1, TPC, -3)])]
  const CHAIN := [Block(0, 52, [7])]

  // All seven nodes up; node 1 at height h, after `cuts` invalidations, the others at 1
  function Around(h: nat, cuts: nat, moves: nat): Net
  {
    Net(CHAIN, EFFECTS, [1, h, 1, 1, 1, 1, 1], [true, true, true, true, true, true, true],
        [0, cuts, 0, 0, 0, 0, 0], moves, 0)
  }

  lemma AroundIsValid(h: nat, cuts: nat, moves: nat)
    requires h <= 1
    ensures ValidNet(Around(h, cuts, moves)) && Txs(CHAIN) == [7]
  {
    assert Txs(CHAIN) == [7] by {
      assert CHAIN[..0] == [];
    }
  }

  lemma OneSpend(effects: Effects, ids: seq<TxId>)
    requires effects == EFFECTS && ids == [7]
    ensures TxSum(effects, ids, 1, TPC) == -5
  {
    var deltas := [Delta(1, TPC, -3)];
    assert deltas[..0] == [];
    assert DeltaSum(deltas, 1, TPC) == -3;
    assert ids[..0] == [];
  }

  // A node that did not earn the one block of a chain has what the block's transactions moved
  lemma BalanceAfterOne(effects: Effects, chain: seq<Block>, n: Node)
    requires |chain| == 1 && chain[0].earner != n
    ensures Balance(effects, chain[..1], n, TPC) == TxSum(effects, chain[0].txs, n, TPC)
    ensures Balance(effects, chain[..0], n, TPC) == 0
  {
    assert chain[..1] == chain && chain[..0] == [];
    assert Txs(chain) == chain[0].txs;
    assert Coinbase(chain, n) == 0;
  }

  lemma SpentFive(effects: Effects, chain: seq<Block>)
    requires effects == EFFECTS && chain == CHAIN
    ensures Balance(effects, chain[..1], 1, TPC) == -5 && Balance(effects, chain[..0], 1, TPC) == 0
  {
    BalanceAfterOne(effects, chain, 1);
    OneSpend(effects, chain[0].txs);
  }

  lemma AroundEvolves(h: nat, cuts: nat, moves: nat, h': nat, cuts': nat, moves': nat)
    requires moves' < moves && cuts <= cuts' && (cuts == cuts' ==> h <= h')
    ensures Evolves(Around(h, cuts, moves), Around(h', cuts', moves'))
  {
    var a, b := Around(h, cuts, moves), Around(h', cuts', moves');
    forall n | 0 <= n < NODE_COUNT
      ensures a.cuts[n] <= b.cuts[n] && (a.cuts[n] == b.cuts[n] ==> a.height[n] <= b.height[n])
    {
      if n == 1 {
      } else {
        assert a.cuts[n] == 0 == b.cuts[n];
        assert a.height[n] == 1 == b.height[n];
      }
    }
  }

  /** Such a network exists: node 1 has not yet connected the one block that node 0 earned 52
      with, and the lowest anchor would credit those 52 a second time. */
  lemma LowestAnchorIsUnsound()
    ensures
      var net := Around(0, 1, 1);
      && ValidNet(net) && MinReachable(Answers(net)) == Some(0) && net.height[0] == 1
      && Coinbase(net.chain[0..net.height[0]], 0) == 52
  {
    AroundIsValid(0, 1, 1);
    var net := Around(0, 1, 1);
    assert Answers(net)[1] == Some(0);
    assert net.chain[0..1] == CHAIN && CHAIN[..0] == [];
    assert Coinbase(CHAIN, 0) == 52;
  }

  lemma ReadBelow()
    ensures BalanceSample(Around(1, 0, 2), Around(0, 1, 1), 1, TPC, 0, 0)
  {
    SpentFive(EFFECTS, CHAIN);
  }

  /** A node can answer the same height before and after and still have been read one block
      lower in between, when an invalidation and its reconsideration fall inside the pass. */
  lemma InvalidationBetweenPolls()
    ensures var first, middle, last := Around(1, 0, 2), Around(0, 1, 1), Around(1, 1, 0);
            && ValidNet(first) && ValidNet(middle) && ValidNet(last)
            && Evolves(first, middle) && Evolves(middle, last)
            && first.Status(1) == last.Status(1) == Some(1)
            && BalanceSample(first, middle, 1, TPC, middle.height[1], 0)
            && Balance(last.effects, last.chain[..1], 1, TPC) == -5
  {
    AroundIsValid(1, 0, 2);
    AroundIsValid(0, 1, 1);
    AroundIsValid(1, 1, 0);
    AroundEvolves(1, 0, 2, 0, 1, 1);
    AroundEvolves(0, 1, 1, 1, 1, 0);
    ReadBelow();
    SpentFive(EFFECTS, CHAIN);
  }
}
