/**
 The handoff from one signer set to the next and the change of the block size after it, as
 seen in the federations.toml files of the signers.
 */
module Handoff {
  import opened Options
  import opened Ceremony
  import opened FederationToml

  const SIGNER_COUNT := 3
  const THRESHOLD_OF_SETS := 2

  // The nodes of signer-set-a, and the two new ones of signer-set-b by their index there
  datatype Signer = OfA(index: nat) | OfB(index: nat)

  const SIGNERS_A: set<Signer> := {OfA(0), OfA(1), OfA(2)}
  const NEW_SIGNERS: set<Signer> := {OfB(1), OfB(2)}
  const SIGNERS_B: set<Signer> := {OfA(0), OfB(1), OfB(2)}

  /** What a ceremony left behind: the aggregated key, the signers' keys, and the lines each
      sender printed for the receivers. */
  datatype Federation = Federation(aggpubkey: string, pubkeys: seq<string>, outputs: seq<seq<string>>)
  {
    predicate Shape() { |pubkeys| == |outputs| == SIGNER_COUNT }

    // The node-vss list of signer j, if every sender addressed a share to it
    function Vss(j: nat): (r: Option<seq<string>>)
      requires j < |pubkeys|
      ensures r == Gathered(outputs, pubkeys[j])
    {
      Gathered(outputs, pubkeys[j])
    }

    predicate Complete()
      requires Shape()
    {
      Vss(0).Some? && Vss(1).Some? && Vss(2).Some?
    }
  }

  /** The ceremony of f handed out this share matrix: each sender printed its row in some order. */
  ghost predicate IsCeremony(f: Federation, shares: seq<seq<string>>)
  {
    && f.Shape() && IsPlain(f.aggpubkey) && |shares| == SIGNER_COUNT
    && IsDistribution(f.pubkeys, shares, f.outputs)
    && forall i, j :: 0 <= i < SIGNER_COUNT && 0 <= j < SIGNER_COUNT ==> IsPlain(shares[i][j])
  }

  lemma CeremonyColumn(f: Federation, shares: seq<seq<string>>, j: nat)
    requires IsCeremony(f, shares) && j < SIGNER_COUNT
    ensures f.Vss(j) == Some(ColumnOf(shares, j)) && AllPlain(ColumnOf(shares, j))
  {
    ShareDistribution(f.pubkeys, shares, f.outputs, j);
  }

  lemma CeremonyIsComplete(f: Federation, shares: seq<seq<string>>)
    requires IsCeremony(f, shares)
    ensures f.Complete()
  {
    CeremonyColumn(f, shares, 0);
    CeremonyColumn(f, shares, 1);
    CeremonyColumn(f, shares, 2);
  }

  // What the two scripts write
  datatype Change = Change(height: nat, signature: string)

  // ---- the entries of each file ----

  predicate IsSigner(n: Signer) { n in SIGNERS_A || n in NEW_SIGNERS }

  function MemberEntry(a: Federation, i: nat): Entry
    requires a.Shape() && i < SIGNER_COUNT && a.Vss(i).Some?
  {
    Genesis(THRESHOLD_OF_SETS, a.aggpubkey, a.Vss(i).value)
  }

  function FirstEntry(a: Federation, n: Signer): Entry
    requires a.Shape() && a.Complete() && IsSigner(n)
  {
    match n
    case OfA(i) => MemberEntry(a, i)
    case OfB(_) => Rotation(0, a.aggpubkey, None, None, None)
  }

  // For a member with its node-vss list, or without one
  function HandoffEntry(b: Federation, c: Change, vss: Option<seq<string>>): Entry
  {
    Rotation(c.height, b.aggpubkey, if vss.Some? then Some(THRESHOLD_OF_SETS) else None, vss, Some(c.signature))
  }

  function RotationEntry(b: Federation, c: Change, n: Signer): Entry
    requires b.Shape() && IsSigner(n)
  {
    HandoffEntry(b, c, if n in SIGNERS_B then b.Vss(n.index) else None)
  }

  function ResizeEntry(b: Federation, c: Change, size: nat, n: Signer): Entry
    requires b.Shape() && b.Complete() && n in SIGNERS_B
  {
    Resize(c.height, size, THRESHOLD_OF_SETS, b.Vss(n.index).value, c.signature)
  }

  // Both ceremonies have a share from every sender for every signer
  predicate Ready(a: Federation, b: Federation) { a.Shape() && b.Shape() && a.Complete() && b.Complete() }

  function Rotated(a: Federation, b: Federation, c: Change, n: Signer): (r: seq<Entry>)
    requires a.Shape() && a.Complete() && b.Shape() && IsSigner(n)
    ensures |r| == 2
  {
    [FirstEntry(a, n), RotationEntry(b, c, n)]
  }

  // Only the active members of signer-set-b are told about the new block size
  function Resized(a: Federation, b: Federation, c: Change, d: Change, size: nat, n: Signer): (r: seq<Entry>)
    requires Ready(a, b) && IsSigner(n)
    ensures |r| == if n in SIGNERS_B then 3 else 2
  {
    Rotated(a, b, c, n) + if n in SIGNERS_B then [ResizeEntry(b, d, size, n)] else []
  }

  lemma FileOfOne(e: Entry)
    ensures File([e]) == Print(e)
  {
  }

  lemma FileAppended(entries: seq<Entry>, e: Entry)
    requires |entries| > 0
    ensures File(entries + [e]) == Append(File(entries), e)
  {
    var all := entries + [e];
    assert all[..|all| - 1] == entries;
  }

  /** The files of the signers, as text; `contents` says which entries each of them is made of. */
  class SignerFiles {
    var files: map<Signer, string>
    ghost var contents: map<Signer, seq<Entry>>

    ghost predicate Valid()
      reads this
    {
      && files.Keys == contents.Keys
      && forall n {:trigger Matches(n)} :: n in files ==> Matches(n)
    }

    ghost predicate Matches(n: Signer)
      requires n in files && n in contents
      reads this
    {
      |contents[n]| > 0 && files[n] == File(contents[n])
    }

    constructor ()
      ensures Valid() && contents == map[]
    {
      files, contents := map[], map[];
    }

    method Write(n: Signer, first: Entry)
      requires Valid()
      modifies this
      ensures Valid() && contents == old(contents)[n := [first]]
    {
      FileOfOne(first);
      files, contents := files[n := Print(first)], contents[n := [first]];
      assert forall m :: m in files && m != n ==> old(m in files && Matches(m));
    }

    method AppendTo(n: Signer, entry: Entry)
      requires Valid() && n in contents
      modifies this
      ensures Valid() && contents == old(contents)[n := old(contents)[n] + [entry]]
    {
      assert Matches(n);
      FileAppended(contents[n], entry);
      files, contents := files[n := Append(files[n], entry)], contents[n := contents[n] + [entry]];
      assert forall m :: m in files && m != n ==> old(Matches(m));
    }

    // The member entry of signer i of set A, alone
    method WriteFirst(a: Federation, i: nat) returns (ok: bool)
      requires Valid() && a.Shape() && i < SIGNER_COUNT
      modifies this
      ensures Valid() && (ok <==> a.Vss(i).Some?)
      ensures contents == if ok then old(contents)[OfA(i) := [MemberEntry(a, i)]] else old(contents)
    {
      var vss := Gather(a.outputs, a.pubkeys[i]);
      ok := vss.Some?;
      if ok {
        Write(OfA(i), Genesis(THRESHOLD_OF_SETS, a.aggpubkey, vss.value));
      }
    }

    // The first configuration of signer-set-a; an error when some share is missing
    method Assemble(a: Federation) returns (ok: bool)
      requires Valid() && a.Shape()
      modifies this
      ensures Valid() && (ok <==> a.Complete())
      ensures ok ==> forall n :: n in SIGNERS_A ==> n in contents && contents[n] == [FirstEntry(a, n)]
    {
      for i := 0 to SIGNER_COUNT
        invariant Valid() && forall k: nat :: k < i ==> a.Vss(k).Some?
        invariant forall k: nat :: k < i ==> OfA(k) in contents && contents[OfA(k)] == [MemberEntry(a, k)]
      {
        ok := WriteFirst(a, i);
        if !ok {
          return;
        }
      }
      ok := true;
    }

    // An error when some share is missing; the files of set A may have been written by then
    method Rotate(a: Federation, b: Federation, c: Change) returns (ok: bool)
      requires Valid() && a.Shape() && a.Complete() && b.Shape()
      requires forall n :: n in SIGNERS_A ==> n in contents && contents[n] == [FirstEntry(a, n)]
      modifies this
      ensures Valid() && (ok <==> b.Complete())
      ensures ok ==> forall n :: IsSigner(n) ==> n in contents && contents[n] == Rotated(a, b, c, n)
    {
      var shared := Gather(b.outputs, b.pubkeys[0]);
      if shared.None? {
        return false;
      }
      AppendHandoff(a, b, c, HandoffEntry(b, c, shared), HandoffEntry(b, c, None));
      ok := WriteNew(a, b, c, 1);
      if ok {
        ok := WriteNew(a, b, c, 2);
      }
    }

    // The new entry behind the old one, for the shared signer as a member, for the others not
    method AppendHandoff(a: Federation, b: Federation, c: Change, member: Entry, nonmember: Entry)
      requires Valid() && a.Shape() && a.Complete() && b.Shape()
      requires forall n :: n in SIGNERS_A ==> n in contents && contents[n] == [FirstEntry(a, n)]
      requires member == RotationEntry(b, c, OfA(0))
      requires nonmember == RotationEntry(b, c, OfA(1)) == RotationEntry(b, c, OfA(2))
      modifies this
      ensures Valid()
      ensures forall n :: n in SIGNERS_A ==> n in contents && contents[n] == Rotated(a, b, c, n)
    {
      AppendOne(a, b, c, 0, member);
      AppendOne(a, b, c, 1, nonmember);
      AppendOne(a, b, c, 2, nonmember);
    }

    method AppendOne(a: Federation, b: Federation, c: Change, i: nat, entry: Entry)
      requires Valid() && a.Shape() && a.Complete() && b.Shape() && i < SIGNER_COUNT
      requires OfA(i) in contents && contents[OfA(i)] == [FirstEntry(a, OfA(i))]
      requires entry == RotationEntry(b, c, OfA(i))
      modifies this
      ensures Valid() && contents == old(contents)[OfA(i) := Rotated(a, b, c, OfA(i))]
    {
      assert [FirstEntry(a, OfA(i))] + [entry] == Rotated(a, b, c, OfA(i));
      AppendTo(OfA(i), entry);
    }

    // The file of one new signer: set A as a non-member, then its own set
    method WriteNew(a: Federation, b: Federation, c: Change, i: nat) returns (ok: bool)
      requires Valid() && a.Shape() && a.Complete() && b.Shape() && 1 <= i < SIGNER_COUNT
      modifies this
      ensures Valid() && (ok <==> b.Vss(i).Some?)
      ensures contents == if ok then old(contents)[OfB(i) := Rotated(a, b, c, OfB(i))] else old(contents)
    {
      var vss := Gather(b.outputs, b.pubkeys[i]);
      if vss.None? {
        return false;
      }
      Write(OfB(i), FirstEntry(a, OfB(i)));
      AppendTo(OfB(i), HandoffEntry(b, c, vss));
      assert contents[OfB(i)] == Rotated(a, b, c, OfB(i));
      ok := true;
    }

    // The new block size behind what signer n of set B has, with the shares for key i
    method AppendResize(b: Federation, d: Change, size: nat, n: Signer, i: nat)
      requires Valid() && b.Shape() && b.Complete() && n in SIGNERS_B && n in contents && n.index == i
      modifies this
      ensures Valid()
      ensures contents == old(contents)[n := old(contents)[n] + [ResizeEntry(b, d, size, n)]]
    {
      var vss := Gather(b.outputs, b.pubkeys[i]);
      AppendTo(n, Resize(d.height, size, THRESHOLD_OF_SETS, vss.value, d.signature));
    }

    // Pairs the three active files with the keys of signer-set-b, in order
    method ResizeAll(a: Federation, b: Federation, c: Change, d: Change, size: nat)
      requires Valid() && Ready(a, b)
      requires forall n :: IsSigner(n) ==> n in contents && contents[n] == Rotated(a, b, c, n)
      modifies this
      ensures Valid()
      ensures forall n :: IsSigner(n) ==> n in contents && contents[n] == Resized(a, b, c, d, size, n)
    {
      var members := [OfA(0), OfB(1), OfB(2)];
      ghost var done: set<Signer> := {};
      for i := 0 to SIGNER_COUNT
        invariant Valid() && forall n :: IsSigner(n) ==> n in contents
        invariant forall n :: n in done <==> n in SIGNERS_B && n.index < i
        invariant forall n :: IsSigner(n) ==>
                    contents[n] == Rotated(a, b, c, n) + if n in done then [ResizeEntry(b, d, size, n)] else []
      {
        var n := members[i];
        AppendResize(b, d, size, n, i);
        done := done + {n};
      }
    }
  }

  // ---- what a signer gets out of its file ----

  // The aggregated key in force at a height: that of the last entry at or below it that has one
  function KeyAt(ts: seq<Table>, h: nat): Option<string>
  {
    if |ts| == 0 then None
    else
      var t := ts[|ts| - 1];
      if t.height.Some? && t.height.value <= h && t.aggpubkey.Some? then t.aggpubkey
      else KeyAt(ts[..|ts| - 1], h)
  }

  // The shares a signer holds at a height: those of the last entry at or below it, if it has any
  function SharesAt(ts: seq<Table>, h: nat): Option<seq<string>>
  {
    if |ts| == 0 then None
    else
      var t := ts[|ts| - 1];
      if t.height.Some? && t.height.value <= h then (if t.threshold.Some? then t.vss else None)
      else SharesAt(ts[..|ts| - 1], h)
  }

  ghost predicate HeightsIncrease(ts: seq<Table>)
  {
    && (forall i :: 0 <= i < |ts| ==> ts[i].height.Some?)
    && (forall i :: 0 <= i < |ts| - 1 ==> ts[i].height.value < ts[i + 1].height.value)
  }

  // What a file should say at a height: the key of the set in charge, and, for a signer of
  // that set, its own column of shares
  ghost predicate Continues(a: Federation, b: Federation, c: Change, n: Signer, ts: seq<Table>, h: nat)
    requires Ready(a, b) && IsSigner(n)
  {
    if h < c.height then
      && KeyAt(ts, h) == Some(a.aggpubkey)
      && SharesAt(ts, h) == if n in SIGNERS_A then a.Vss(n.index) else None
    else
      && KeyAt(ts, h) == Some(b.aggpubkey)
      && SharesAt(ts, h) == if n in SIGNERS_B then b.Vss(n.index) else None
  }

  lemma TwoTables(t: Table, u: Table, h: nat)
    ensures KeyAt([t, u], h) ==
            if u.height.Some? && u.height.value <= h && u.aggpubkey.Some? then u.aggpubkey
            else if t.height.Some? && t.height.value <= h && t.aggpubkey.Some? then t.aggpubkey else None
    ensures SharesAt([t, u], h) ==
            if u.height.Some? && u.height.value <= h then (if u.threshold.Some? then u.vss else None)
            else if t.height.Some? && t.height.value <= h && t.threshold.Some? then t.vss else None
  {
    assert [t, u][..1] == [t] && [t][..0] == [];
    assert KeyAt([t], h) == if t.height.Some? && t.height.value <= h && t.aggpubkey.Some? then t.aggpubkey else None;
    assert SharesAt([t], h) ==
           if t.height.Some? && t.height.value <= h then (if t.threshold.Some? then t.vss else None) else None;
  }

  lemma RotatedContinues(a: Federation, b: Federation, c: Change, n: Signer, h: nat)
    requires Ready(a, b) && IsSigner(n)
    ensures Continues(a, b, c, n, TablesOfRotated(a, b, c, n), h)
  {
    TwoTables(TableOf(FirstEntry(a, n)), TableOf(RotationEntry(b, c, n)), h);
  }

  function TablesOfRotated(a: Federation, b: Federation, c: Change, n: Signer): seq<Table>
    requires Ready(a, b) && IsSigner(n)
  {
    [TableOf(FirstEntry(a, n)), TableOf(RotationEntry(b, c, n))]
  }

  lemma TablesAppended(entries: seq<Entry>, e: Entry)
    ensures Tables(entries + [e]) == Tables(entries) + [TableOf(e)]
  {
    assert (entries + [e])[..|entries|] == entries;
  }

  lemma TablesRotated(a: Federation, b: Federation, c: Change, n: Signer)
    requires Ready(a, b) && IsSigner(n)
    ensures Tables(Rotated(a, b, c, n)) == TablesOfRotated(a, b, c, n)
  {
    var first := FirstEntry(a, n);
    assert [] + [first] == [first];
    TablesAppended([], first);
    TablesAppended([first], RotationEntry(b, c, n));
  }

  function TablesOfResized(a: Federation, b: Federation, c: Change, d: Change, size: nat, n: Signer): seq<Table>
    requires Ready(a, b) && IsSigner(n)
  {
    TablesOfRotated(a, b, c, n) + if n in SIGNERS_B then [TableOf(ResizeEntry(b, d, size, n))] else []
  }

  lemma TablesResized(a: Federation, b: Federation, c: Change, d: Change, size: nat, n: Signer)
    requires Ready(a, b) && IsSigner(n)
    ensures Tables(Resized(a, b, c, d, size, n)) == TablesOfResized(a, b, c, d, size, n)
  {
    TablesRotated(a, b, c, n);
    if n in SIGNERS_B {
      TablesAppended(Rotated(a, b, c, n), ResizeEntry(b, d, size, n));
    } else {
      assert Rotated(a, b, c, n) + [] == Rotated(a, b, c, n);
    }
  }

  lemma ResizedContinues(a: Federation, b: Federation, c: Change, d: Change, size: nat, n: Signer, h: nat)
    requires Ready(a, b) && IsSigner(n) && c.height <= d.height
    ensures Continues(a, b, c, n, Tables(Resized(a, b, c, d, size, n)), h)
  {
    TablesResized(a, b, c, d, size, n);
    RotatedContinues(a, b, c, n, h);
    var front := TablesOfRotated(a, b, c, n);
    if n in SIGNERS_B {
      assert (front + [TableOf(ResizeEntry(b, d, size, n))])[..2] == front;
    } else {
      assert front + [] == front;
    }
  }

  lemma EntriesArePlain(a: Federation, sharesA: seq<seq<string>>, b: Federation, sharesB: seq<seq<string>>,
                        c: Change, d: Change, size: nat, n: Signer)
    requires IsCeremony(a, sharesA) && IsCeremony(b, sharesB) && IsPlain(c.signature) && IsPlain(d.signature)
    requires IsSigner(n) && Ready(a, b)
    ensures IsPlainTable(TableOf(FirstEntry(a, n))) && IsPlainTable(TableOf(RotationEntry(b, c, n)))
    ensures n in SIGNERS_B ==> IsPlainTable(TableOf(ResizeEntry(b, d, size, n)))
  {
    CeremonyColumn(a, sharesA, n.index);
    CeremonyColumn(b, sharesB, n.index);
  }

  lemma ResizedIsPlain(a: Federation, sharesA: seq<seq<string>>, b: Federation, sharesB: seq<seq<string>>,
                       c: Change, d: Change, size: nat, n: Signer)
    requires IsCeremony(a, sharesA) && IsCeremony(b, sharesB) && IsPlain(c.signature) && IsPlain(d.signature)
    requires IsSigner(n)
    ensures Ready(a, b) && AllTablesPlain(Tables(Resized(a, b, c, d, size, n)))
  {
    CeremonyIsComplete(a, sharesA);
    CeremonyIsComplete(b, sharesB);
    EntriesArePlain(a, sharesA, b, sharesB, c, d, size, n);
    TablesResized(a, b, c, d, size, n);
  }

  /** After both changes, at every height, what each signer reads from its file names the key of
      the set in charge, and holds shares if and only if the signer took part in that set's
      ceremony: exactly its own column of the share matrix, in the order of the senders, however
      each sender ordered the lines it printed. */
  lemma HandoffIsContinuous(a: Federation, sharesA: seq<seq<string>>, b: Federation, sharesB: seq<seq<string>>,
                            c: Change, d: Change, size: nat, n: Signer, h: nat)
    requires IsCeremony(a, sharesA) && IsCeremony(b, sharesB) && IsPlain(c.signature) && IsPlain(d.signature)
    requires IsSigner(n) && c.height <= d.height
    ensures
      && Ready(a, b)
      && var file := Parse(File(Resized(a, b, c, d, size, n)));
      && file.Some?
      && KeyAt(file.value, h) == Some(if h < c.height then a.aggpubkey else b.aggpubkey)
      && SharesAt(file.value, h) ==
           if h < c.height then (if n in SIGNERS_A then Some(ColumnOf(sharesA, n.index)) else None)
           else if n in SIGNERS_B then Some(ColumnOf(sharesB, n.index)) else None
  {
    ResizedIsPlain(a, sharesA, b, sharesB, c, d, size, n);
    FileRoundTrip(Resized(a, b, c, d, size, n));
    ResizedContinues(a, b, c, d, size, n, h);
    CeremonyColumn(a, sharesA, n.index);
    CeremonyColumn(b, sharesB, n.index);
  }

  // n can sign at height h
  predicate Holds(a: Federation, b: Federation, c: Change, d: Change, size: nat, n: Signer, h: nat)
    requires Ready(a, b) && IsSigner(n)
  {
    SharesAt(Tables(Resized(a, b, c, d, size, n)), h).Some?
  }

  lemma HoldsIff(a: Federation, b: Federation, c: Change, d: Change, size: nat, n: Signer, h: nat)
    requires Ready(a, b) && IsSigner(n) && c.height <= d.height
    ensures Holds(a, b, c, d, size, n, h) <==> n in if h < c.height then SIGNERS_A else SIGNERS_B
  {
    ResizedContinues(a, b, c, d, size, n, h);
  }

  /** At every height the signers that can sign are one whole set, and enough. */
  lemma QuorumHolds(a: Federation, b: Federation, c: Change, d: Change, size: nat, h: nat, holders: set<Signer>)
    requires Ready(a, b) && c.height <= d.height
    requires holders <= SIGNERS_A + NEW_SIGNERS
    requires forall n :: n in SIGNERS_A + NEW_SIGNERS ==> (n in holders <==> Holds(a, b, c, d, size, n, h))
    ensures holders == if h < c.height then SIGNERS_A else SIGNERS_B
    ensures |holders| >= THRESHOLD_OF_SETS
  {
    var charge := if h < c.height then SIGNERS_A else SIGNERS_B;
    forall n | n in SIGNERS_A + NEW_SIGNERS ensures n in holders <==> n in charge {
      HoldsIff(a, b, c, d, size, n, h);
    }
    assert holders == charge;
  }

  // ---- heights ----

  /** The scheduled height of a change, from the height of the chain when it is computed. */
  function ScheduledHeight(current: nat, offset: nat): nat { current + offset }

  /** With offsets of at least one the block heights of every file increase strictly: the
      second change is scheduled only after the chain has reached the height of the first.
      With an offset of zero they need not. */
  lemma HeightsIncreaseIff(a: Federation, b: Federation, size: nat, sig: string, sigB: string,
                           current: nat, offset: nat, later: nat, offsetB: nat)
    requires Ready(a, b)
    requires later >= ScheduledHeight(current, offset)
    ensures
      var c := Change(ScheduledHeight(current, offset), sig);
      var d := Change(ScheduledHeight(later, offsetB), sigB);
      (forall n :: n in SIGNERS_A + NEW_SIGNERS ==> HeightsIncrease(Tables(Resized(a, b, c, d, size, n))))
      <==> current + offset > 0 && later + offsetB > current + offset
  {
    var c := Change(ScheduledHeight(current, offset), sig);
    var d := Change(ScheduledHeight(later, offsetB), sigB);
    forall n | n in SIGNERS_A + NEW_SIGNERS
      ensures HeightsIncrease(Tables(Resized(a, b, c, d, size, n))) <==>
              c.height > 0 && (n in SIGNERS_B ==> d.height > c.height)
    {
      FileHeights(a, b, c, d, size, n);
    }
    assert OfA(0) in SIGNERS_A + NEW_SIGNERS && OfA(0) in SIGNERS_B;
  }

  lemma FileHeights(a: Federation, b: Federation, c: Change, d: Change, size: nat, n: Signer)
    requires Ready(a, b) && IsSigner(n)
    ensures HeightsIncrease(Tables(Resized(a, b, c, d, size, n))) <==>
            c.height > 0 && (n in SIGNERS_B ==> d.height > c.height)
  {
    TablesResized(a, b, c, d, size, n);
    var ts := TablesOfResized(a, b, c, d, size, n);
    assert n in SIGNERS_B ==> ts[2].height == Some(d.height);
    assert ts[0].height == Some(0) && ts[1].height == Some(c.height);
    if HeightsIncrease(ts) {
      assert ts[0].height.value < ts[0 + 1].height.value;
      assert n in SIGNERS_B ==> ts[1].height.value < ts[1 + 1].height.value;
    }
  }
}
