/**
 The key ceremony around the tapyrus-setup program: how shares find their receivers, how the
 key slots are filled, and how the signers' aggregated keys are compared.  What the program
 computes is arbitrary.
 */
module Ceremony {
  import opened Options
  import opened Text

  // ---- shares by receiver ----

  // line.partition(":"): what stands before the first colon and after it
  function Receiver(line: string): string
  {
    if |line| == 0 || line[0] == ':' then "" else [line[0]] + Receiver(line[1..])
  }

  function Share(line: string): string
  {
    if |line| == 0 then "" else if line[0] == ':' then line[1..] else Share(line[1..])
  }

  // The share in the first line addressed to the key
  function ExtractVssFor(lines: seq<string>, pubkey: string): Option<string>
  {
    if |lines| == 0 then None
    else if Receiver(lines[0]) == pubkey then Some(Share(lines[0]))
    else ExtractVssFor(lines[1..], pubkey)
  }

  predicate HasNoColon(s: string) { forall i :: 0 <= i < |s| ==> s[i] != ':' }

  lemma {:induction false} LineParts(key: string, share: string)
    requires HasNoColon(key)
    ensures Receiver(key + ":" + share) == key && Share(key + ":" + share) == share
  {
    var line := key + ":" + share;
    if |key| == 0 {
      assert line[1..] == share;
    } else {
      assert line[1..] == key[1..] + ":" + share;
      LineParts(key[1..], share);
    }
  }

  /** A line without a colon is addressed to itself, with an empty share. */
  lemma {:induction false} ColonlessLine(line: string)
    requires HasNoColon(line)
    ensures Receiver(line) == line && Share(line) == ""
  {
    if |line| > 0 {
      ColonlessLine(line[1..]);
    }
  }

  // What a sender prints: one line for every receiver
  function Addressed(pubkeys: seq<string>, row: seq<string>): (r: seq<string>)
    requires |row| == |pubkeys|
    ensures |r| == |pubkeys|
  {
    seq(|pubkeys|, j requires 0 <= j < |pubkeys| => pubkeys[j] + ":" + row[j])
  }

  // Keys that can be told apart in such lines
  ghost predicate AreReceivers(pubkeys: seq<string>)
  {
    && (forall j :: 0 <= j < |pubkeys| ==> HasNoColon(pubkeys[j]))
    && (forall j, k :: 0 <= j < k < |pubkeys| ==> pubkeys[j] != pubkeys[k])
  }

  // All lines with this receiver carry this share, and there is such a line
  ghost predicate OnlyShare(lines: seq<string>, pubkey: string, share: string)
  {
    && (forall i :: 0 <= i < |lines| && Receiver(lines[i]) == pubkey ==> Share(lines[i]) == share)
    && (exists i :: 0 <= i < |lines| && Receiver(lines[i]) == pubkey)
  }

  lemma {:induction false} ExtractOnlyShare(lines: seq<string>, pubkey: string, share: string)
    requires OnlyShare(lines, pubkey, share)
    ensures ExtractVssFor(lines, pubkey) == Some(share)
  {
    var i :| 0 <= i < |lines| && Receiver(lines[i]) == pubkey;
    if Receiver(lines[0]) != pubkey {
      assert lines[1..][i - 1] == lines[i];
      ExtractOnlyShare(lines[1..], pubkey, share);
    }
  }

  lemma SharesInAnyOrder(pubkeys: seq<string>, row: seq<string>, lines: seq<string>, j: nat)
    requires |row| == |pubkeys| && AreReceivers(pubkeys) && j < |pubkeys|
    requires multiset(lines) == multiset(Addressed(pubkeys, row))
    ensures OnlyShare(lines, pubkeys[j], row[j])
  {
    var all := Addressed(pubkeys, row);
    forall i | 0 <= i < |lines| && Receiver(lines[i]) == pubkeys[j]
      ensures Share(lines[i]) == row[j]
    {
      assert lines[i] in multiset(all);
      var k :| 0 <= k < |all| && all[k] == lines[i];
      LineParts(pubkeys[k], row[k]);
    }
    LineParts(pubkeys[j], row[j]);
    assert all[j] in multiset(lines);
    var i :| 0 <= i < |lines| && lines[i] == all[j];
    assert Receiver(lines[i]) == pubkeys[j];
  }

  // outputs[i] is what sender i printed, in any order, to hand out row i of the share matrix
  ghost predicate IsDistribution(pubkeys: seq<string>, shares: seq<seq<string>>, outputs: seq<seq<string>>)
  {
    && AreReceivers(pubkeys) && |outputs| == |shares|
    && forall i :: 0 <= i < |shares| ==>
         |shares[i]| == |pubkeys| && multiset(outputs[i]) == multiset(Addressed(pubkeys, shares[i]))
  }

  function ColumnOf(shares: seq<seq<string>>, j: nat): (r: seq<string>)
    requires forall i :: 0 <= i < |shares| ==> j < |shares[i]|
    ensures |r| == |shares|
  {
    seq(|shares|, i requires 0 <= i < |shares| => shares[i][j])
  }

  // The shares addressed to one key in the outputs of all senders, if none of them lacks it
  function Gathered(outputs: seq<seq<string>>, pubkey: string): (r: Option<seq<string>>)
    ensures r.Some? <==> forall i :: 0 <= i < |outputs| ==> ExtractVssFor(outputs[i], pubkey).Some?
    ensures r.Some? ==> |r.value| == |outputs|
    ensures r.Some? ==> forall i :: 0 <= i < |outputs| ==> ExtractVssFor(outputs[i], pubkey) == Some(r.value[i])
  {
    if |outputs| == 0 then Some([])
    else
      var front := Gathered(outputs[..|outputs| - 1], pubkey);
      var last := ExtractVssFor(outputs[|outputs| - 1], pubkey);
      assert forall i :: 0 <= i < |outputs| - 1 ==> outputs[..|outputs| - 1][i] == outputs[i];
      if front.None? || last.None? then None else Some(front.value + [last.value])
  }

  // One extraction after the other; the first that fails ends it with an error
  method Gather(outputs: seq<seq<string>>, pubkey: string) returns (r: Option<seq<string>>)
    ensures r == Gathered(outputs, pubkey)
  {
    var found: seq<string> := [];
    for i := 0 to |outputs|
      invariant |found| == i
      invariant forall k :: 0 <= k < i ==> ExtractVssFor(outputs[k], pubkey) == Some(found[k])
    {
      var vss := ExtractVssFor(outputs[i], pubkey);
      if vss.None? {
        return None;
      }
      found := found + [vss.value];
    }
    assert Gathered(outputs, pubkey).value == found;
    return Some(found);
  }

  /** Every signer gets exactly its own column of the share matrix, in the order of the senders,
      whatever order each sender printed its lines in. */
  lemma ShareDistribution(pubkeys: seq<string>, shares: seq<seq<string>>, outputs: seq<seq<string>>, j: nat)
    requires IsDistribution(pubkeys, shares, outputs) && j < |pubkeys|
    ensures Gathered(outputs, pubkeys[j]) == Some(ColumnOf(shares, j))
  {
    forall i | 0 <= i < |shares| ensures ExtractVssFor(outputs[i], pubkeys[j]) == Some(shares[i][j]) {
      SharesInAnyOrder(pubkeys, shares[i], outputs[i], j);
      ExtractOnlyShare(outputs[i], pubkeys[j], shares[i][j]);
    }
    assert Gathered(outputs, pubkeys[j]).value == ColumnOf(shares, j);
  }

  /** By position it would not work: a sender that prints its lines in another order. */
  lemma PositionIsNotReceiver(pubkeys: seq<string>, row: seq<string>) returns (lines: seq<string>)
    requires |pubkeys| == |row| == 2 && AreReceivers(pubkeys) && row[0] != row[1]
    ensures multiset(lines) == multiset(Addressed(pubkeys, row)) && Share(lines[0]) != row[0]
    ensures ExtractVssFor(lines, pubkeys[0]) == Some(row[0])
  {
    var all := Addressed(pubkeys, row);
    lines := [all[1], all[0]];
    assert all == [all[0], all[1]];
    LineParts(pubkeys[1], row[1]);
    SharesInAnyOrder(pubkeys, row, lines, 0);
    ExtractOnlyShare(lines, pubkeys[0], row[0]);
  }

  // ---- keys and the agreement on the aggregated key ----

  // The two words that createkey and aggregate print
  datatype Pair = Pair(first: string, second: string)

  datatype Agreement = Agreed(key: Option<string>) | Diverged(signer: nat)

  // The same command-line option for every value
  function Flags(flag: string, values: seq<string>): (r: seq<string>)
    ensures |r| == |values|
  {
    seq(|values|, i requires 0 <= i < |values| => flag + values[i])
  }

  class AggpubkeyCeremony {
    var wifs: seq<string>
    var pubkeys: seq<string>
    var secretShares: map<nat, string>

    constructor ()
      ensures wifs == [] && pubkeys == [] && secretShares == map[]
    {
      wifs, pubkeys, secretShares := [], [], map[];
    }

    method CreateKeys(results: seq<Pair>)
      modifies this
      ensures |wifs| == |old(wifs)| + |results| && |pubkeys| == |old(pubkeys)| + |results|
      ensures old(wifs) <= wifs && old(pubkeys) <= pubkeys && secretShares == old(secretShares)
      ensures forall i :: 0 <= i < |results| ==>
                wifs[|old(wifs)| + i] == results[i].first && pubkeys[|old(pubkeys)| + i] == results[i].second
    {
      for i := 0 to |results|
        invariant |wifs| == |old(wifs)| + i && |pubkeys| == |old(pubkeys)| + i
        invariant old(wifs) <= wifs && old(pubkeys) <= pubkeys && secretShares == old(secretShares)
        invariant forall k :: 0 <= k < i ==>
                    wifs[|old(wifs)| + k] == results[k].first && pubkeys[|old(pubkeys)| + k] == results[k].second
      {
        wifs := wifs + [results[i].first];
        pubkeys := pubkeys + [results[i].second];
      }
    }

    /** What signer j passes to `aggregate`: its own column of shares, and its key. */
    method AggregateArgs(j: nat, outputs: seq<seq<string>>) returns (r: Option<seq<string>>)
      requires j < |wifs| == |pubkeys|
      ensures r == match Gathered(outputs, pubkeys[j])
                   case None => None
                   case Some(vss) => Some(Flags("--vss=", vss) + ["--private-key=" + wifs[j]])
      ensures forall shares :: IsDistribution(pubkeys, shares, outputs) ==>
                r == Some(Flags("--vss=", ColumnOf(shares, j)) + ["--private-key=" + wifs[j]])
    {
      forall shares | IsDistribution(pubkeys, shares, outputs)
        ensures Gathered(outputs, pubkeys[j]) == Some(ColumnOf(shares, j))
      {
        ShareDistribution(pubkeys, shares, outputs, j);
      }
      var vss := Gather(outputs, pubkeys[j]);
      r := if vss.None? then None else Some(Flags("--vss=", vss.value) + ["--private-key=" + wifs[j]]);
    }

    /** Names the first signer that differs from signer 0, or hands back the key on which all
        agree.  The secret shares of all signers up to the one it stops at are written. */
    method Aggregate(outputs: seq<Pair>) returns (r: Agreement)
      modifies this
      ensures wifs == old(wifs) && pubkeys == old(pubkeys)
      ensures r.Agreed? ==> forall j :: 0 <= j < |outputs| ==> r.key == Some(outputs[j].first)
      ensures r.Agreed? && |outputs| == 0 ==> r.key == None
      ensures r.Diverged? ==> r.signer < |outputs| && outputs[r.signer].first != outputs[0].first
      ensures r.Diverged? ==> forall j :: 0 <= j < r.signer ==> outputs[j].first == outputs[0].first
      ensures
        var written := if r.Diverged? then r.signer + 1 else |outputs|;
        && (forall j: nat :: j < written && j < |outputs| ==>
              j in secretShares && secretShares[j] == outputs[j].second)
        && (forall j: nat :: j >= written ==>
              (j in secretShares <==> j in old(secretShares))
              && (j in secretShares ==> secretShares[j] == old(secretShares)[j]))
    {
      var aggpubkey: Option<string> := None;
      for j := 0 to |outputs|
        invariant wifs == old(wifs) && pubkeys == old(pubkeys)
        invariant j == 0 ==> aggpubkey == None
        invariant forall k :: 0 <= k < j ==> aggpubkey == Some(outputs[k].first)
        invariant forall k: nat :: k < j ==> k in secretShares && secretShares[k] == outputs[k].second
        invariant forall k: nat :: k >= j ==>
                    (k in secretShares <==> k in old(secretShares))
                    && (k in secretShares ==> secretShares[k] == old(secretShares)[k])
      {
        secretShares := secretShares[j := outputs[j].second];
        if aggpubkey.None? {
          aggpubkey := Some(outputs[j].first);
        } else if aggpubkey != Some(outputs[j].first) {
          return Diverged(j);
        }
      }
      return Agreed(aggpubkey);
    }
  }

  // ---- signing off a change ----

  // An established signer set, and the change it signs
  datatype SignerSet = SignerSet(pubkeys: seq<string>, wifs: seq<string>, secretShares: seq<string>,
                                 aggpubkey: string, threshold: nat, xfield: string)
  {
    ghost predicate Complete() { |pubkeys| == |wifs| == |secretShares| > 0 }

    // The options that `sign` and `computesig` have in common, for signer j
    function Common(j: nat): seq<string>
      requires j < |wifs| && j < |secretShares|
    {
      ["--aggregated-public-key=" + aggpubkey, "--node-secret-share=" + secretShares[j],
       "--private-key=" + wifs[j], "--xfield=" + xfield, "--threshold=" + Decimal(threshold)]
    }
  }

  /** What signer j passes to `sign`: its own column of the shares of this block round. */
  method SignArgs(s: SignerSet, j: nat, blockOutputs: seq<seq<string>>) returns (r: Option<seq<string>>)
    requires s.Complete() && j < |s.pubkeys|
    ensures r == match Gathered(blockOutputs, s.pubkeys[j])
                 case None => None
                 case Some(vss) => Some(Flags("--block-vss=", vss) + s.Common(j))
    ensures forall shares :: IsDistribution(s.pubkeys, shares, blockOutputs) ==>
              r == Some(Flags("--block-vss=", ColumnOf(shares, j)) + s.Common(j))
  {
    forall shares | IsDistribution(s.pubkeys, shares, blockOutputs)
      ensures Gathered(blockOutputs, s.pubkeys[j]) == Some(ColumnOf(shares, j))
    {
      ShareDistribution(s.pubkeys, shares, blockOutputs, j);
    }
    var vss := Gather(blockOutputs, s.pubkeys[j]);
    r := if vss.None? then None else Some(Flags("--block-vss=", vss.value) + s.Common(j));
  }

  /** What signer 0 passes to `computesig`: all local signatures, its column of this round, and
      its column of the ceremony that made the aggregated key. */
  method ComputesigArgs(s: SignerSet, sigs: seq<string>, blockOutputs: seq<seq<string>>, nodeOutputs: seq<seq<string>>)
    returns (r: Option<seq<string>>)
    requires s.Complete()
    ensures r == match (Gathered(blockOutputs, s.pubkeys[0]), Gathered(nodeOutputs, s.pubkeys[0]))
                 case (Some(block), Some(node)) =>
                   Some(Flags("--sig=", sigs) + Flags("--block-vss=", block) + Flags("--node-vss=", node) + s.Common(0))
                 case _ => None
    ensures forall block, node ::
              IsDistribution(s.pubkeys, block, blockOutputs) && IsDistribution(s.pubkeys, node, nodeOutputs) ==>
                r == Some(Flags("--sig=", sigs) + Flags("--block-vss=", ColumnOf(block, 0))
                          + Flags("--node-vss=", ColumnOf(node, 0)) + s.Common(0))
  {
    forall shares | IsDistribution(s.pubkeys, shares, blockOutputs)
      ensures Gathered(blockOutputs, s.pubkeys[0]) == Some(ColumnOf(shares, 0))
    {
      ShareDistribution(s.pubkeys, shares, blockOutputs, 0);
    }
    forall shares | IsDistribution(s.pubkeys, shares, nodeOutputs)
      ensures Gathered(nodeOutputs, s.pubkeys[0]) == Some(ColumnOf(shares, 0))
    {
      ShareDistribution(s.pubkeys, shares, nodeOutputs, 0);
    }
    var block := Gather(blockOutputs, s.pubkeys[0]);
    var node := Gather(nodeOutputs, s.pubkeys[0]);
    r := if block.None? || node.None? then None
         else Some(Flags("--sig=", sigs) + Flags("--block-vss=", block.value)
                   + Flags("--node-vss=", node.value) + s.Common(0));
  }

  // ---- reusing one key ----

  // Where fresh key k goes when one slot is taken
  function FreshSlot(reuse: nat, k: nat): nat { if k < reuse then k else k + 1 }

  method FreshIndices(count: nat, reuse: nat) returns (unused: seq<nat>)
    ensures |unused| == if reuse < count then count - 1 else count
    ensures forall k :: 0 <= k < |unused| ==> unused[k] == FreshSlot(reuse, k)
  {
    unused := [];
    for i := 0 to count
      invariant |unused| == if reuse < i then i - 1 else i
      invariant forall k :: 0 <= k < |unused| ==> unused[k] == FreshSlot(reuse, k)
    {
      if i != reuse {
        unused := unused + [i];
      }
    }
  }

  /** Fills the slots of the partial-reuse ceremony; fails, as the source does with an index
      error, when the reused slot does not exist.  `create(k)` is what the k-th createkey run
      prints. */
  method FillKeys(count: nat, reuse: nat, reused: Pair, create: nat -> Pair)
    returns (ok: bool, slots: array<Option<Pair>>)
    ensures fresh(slots) && slots.Length == count
    ensures ok <==> reuse < count
    ensures ok ==> forall i: nat :: i < count ==>
              slots[i] == Some(if i == reuse then reused else create(if i < reuse then i else i - 1))
  {
    slots := new Option<Pair>[count](_ => None);
    var indices := FreshIndices(count, reuse);
    if reuse >= count {
      return false, slots;
    }
    slots[reuse] := Some(reused);
    for k := 0 to |indices|
      invariant slots[reuse] == Some(reused)
      invariant forall m: nat :: m < k ==> slots[FreshSlot(reuse, m)] == Some(create(m))
    {
      slots[indices[k]] := Some(create(k));
    }
    forall i: nat | i < count && i != reuse
      ensures slots[i] == Some(create(if i < reuse then i else i - 1))
    {
      var k := if i < reuse then i else i - 1;
      assert FreshSlot(reuse, k) == i;
    }
    ok := true;
  }
}
