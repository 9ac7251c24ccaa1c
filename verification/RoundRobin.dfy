/** The schedule of a round: node i sends to node (i + offset) mod n, with an offset that
    cycles through 1 .. n - 1. */
module RoundRobin {

  function Offset(round: nat, n: nat): (r: nat)
    requires 1 <= round && 2 <= n
    ensures 1 <= r < n
  {
    1 + (round - 1) % (n - 1)
  }

  function Target(i: nat, round: nat, n: nat): (r: nat)
    requires i < n && 1 <= round && 2 <= n
    ensures r < n
  {
    (i + Offset(round, n)) % n
  }

  // The one node whose target is k
  function Sender(k: nat, round: nat, n: nat): (r: nat)
    requires k < n && 1 <= round && 2 <= n
    ensures r < n
  {
    if Offset(round, n) <= k then k - Offset(round, n) else k + n - Offset(round, n)
  }

  lemma ModOf(a: int, m: int, q: int, y: int)
    requires 0 < m && a == q * m + y && 0 <= y < m
    ensures a % m == y
  {
    var d := a / m - q;
    assert a == m * (a / m) + a % m;
    assert d * m == y - a % m;
    assert d >= 1 ==> d * m >= m;
    assert d <= -1 ==> d * m <= -m;
  }

  // Adding less than m to a number moves its remainder by that much, wrapping at most once
  lemma ModAdd(base: nat, t: nat, m: nat)
    requires 0 < m && t < m
    ensures (base + t) % m == if base % m + t < m then base % m + t else base % m + t - m
  {
    var q, r := base / m, base % m;
    assert base == q * m + r;
    if r + t < m {
      ModOf(base + t, m, q, r + t);
    } else {
      assert (q + 1) * m == q * m + m;
      ModOf(base + t, m, q + 1, r + t - m);
    }
  }

  /** Every round is a permutation of the nodes without a fixed point: Sender is the two-sided
      inverse of Target. */
  lemma RoundIsPermutation(i: nat, round: nat, n: nat)
    requires i < n && 1 <= round && 2 <= n
    ensures Target(i, round, n) != i
    ensures Sender(Target(i, round, n), round, n) == i
    ensures Target(Sender(i, round, n), round, n) == i
  {
    var d := Offset(round, n);
    ModOf(i, n, 0, i);
    ModAdd(i, d, n);
    var s := Sender(i, round, n);
    ModOf(s, n, 0, s);
    ModAdd(s, d, n);
  }

  // The round of a window of n - 1 rounds in which i sends to j
  function RoundOf(start: nat, i: nat, j: nat, n: nat): (r: nat)
    requires 1 <= start && 2 <= n && i < n && j < n && i != j
    ensures start <= r < start + n - 1
  {
    var d := if i < j then j - i - 1 else j + n - i - 1;
    var at := (start - 1) % (n - 1);
    start + if at <= d then d - at else d + n - 1 - at
  }

  lemma TargetIs(i: nat, j: nat, round: nat, n: nat)
    requires 1 <= round && 2 <= n && i < n && j < n && i != j
    ensures Target(i, round, n) == j <==> Offset(round, n) == if i < j then j - i else j + n - i
  {
    ModOf(i, n, 0, i);
    ModAdd(i, Offset(round, n), n);
  }

  /** Over any n - 1 consecutive rounds every ordered pair of distinct nodes meets exactly
      once: in the round RoundOf names, and in no other. */
  lemma EachPairOnce(start: nat, i: nat, j: nat, n: nat, round: nat)
    requires 1 <= start && 2 <= n && i < n && j < n && i != j
    requires start <= round < start + n - 1
    ensures Target(i, round, n) == j <==> round == RoundOf(start, i, j, n)
  {
    TargetIs(i, j, round, n);
    ModAdd(start - 1, round - start, n - 1);
    assert start - 1 + (round - start) == round - 1;
  }

  // What the first `upTo` senders of a round move in the wallet of node k
  function NetTo(k: nat, round: nat, n: nat, amount: int, upTo: nat): int
    requires 1 <= round && 2 <= n && upTo <= n
  {
    if upTo == 0 then 0
    else
      NetTo(k, round, n, amount, upTo - 1)
      + (if upTo - 1 == k then -amount else 0)
      + (if Target(upTo - 1, round, n) == k then amount else 0)
  }

  lemma {:induction false} NetSoFar(k: nat, round: nat, n: nat, amount: int, upTo: nat)
    requires k < n && 1 <= round && 2 <= n && upTo <= n
    ensures NetTo(k, round, n, amount, upTo)
         == (if Sender(k, round, n) < upTo then amount else 0) - (if k < upTo then amount else 0)
  {
    if upTo > 0 {
      NetSoFar(k, round, n, amount, upTo - 1);
      RoundIsPermutation(upTo - 1, round, n);
      RoundIsPermutation(k, round, n);
    }
  }

  /** A round in which every node sends the same amount leaves every wallet as it was. */
  lemma RoundNetsToZero(k: nat, round: nat, n: nat, amount: int)
    requires k < n && 1 <= round && 2 <= n
    ensures NetTo(k, round, n, amount, n) == 0
  {
    NetSoFar(k, round, n, amount, n);
  }
}
