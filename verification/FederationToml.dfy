/**
 federations.toml: the three printers of the scripts, the rule by which a new entry is
 appended to a file, and a reader of the part of TOML v1.0.0 that they use.
 */
module FederationToml {
  import opened Options
  import opened Text

  // ---- what is printed ----

  /** An entry of the federation change (threshold and node-vss only for a member), of the
      max-block-size change, or of the first configuration. */
  datatype Entry =
    | Rotation(height: nat, aggpubkey: string, memberThreshold: Option<nat>, memberVss: Option<seq<string>>,
               signedOff: Option<string>)
    | Resize(height: nat, size: nat, threshold: nat, vss: seq<string>, signature: string)
    | Genesis(threshold: nat, aggpubkey: string, vss: seq<string>)

  function Quoted(s: string): string { "\"" + s + "\"" }

  function VssBlock(vss: seq<string>): string
  {
    JoinWith(",\n", seq(|vss|, i requires 0 <= i < |vss| => "    " + Quoted(vss[i])))
  }

  function VssLine(vss: seq<string>): string { "node-vss = [\n" + VssBlock(vss) + "\n]" }

  function RotationLines(height: nat, aggpubkey: string, threshold: Option<nat>, vss: Option<seq<string>>,
                         signature: Option<string>): seq<string>
  {
    ["[[federation]]", "block-height = " + Decimal(height)]
    + (if threshold.Some? then ["threshold = " + Decimal(threshold.value)] else [])
    + ["aggregated-public-key = " + Quoted(aggpubkey)]
    + (if vss.Some? then [VssLine(vss.value)] else [])
    + (if signature.Some? then ["signature = " + Quoted(signature.value)] else [])
  }

  function Print(e: Entry): string
  {
    match e
    case Rotation(h, key, t, vss, sig) => JoinWith("\n", RotationLines(h, key, t, vss, sig)) + "\n"
    case Resize(h, size, t, vss, sig) =>
      "[[federation]]\n"
      + ("block-height = " + Decimal(h) + "\n")
      + ("threshold = " + Decimal(t) + "\n")
      + ("max-block-size = " + Decimal(size) + "\n")
      + ("node-vss = [\n" + VssBlock(vss) + "\n]\n")
      + ("signature = " + Quoted(sig) + "\n")
    case Genesis(t, key, vss) =>
      "[[federation]]\n"
      + "block-height = 0\n"
      + ("threshold = " + Decimal(t) + "\n")
      + ("aggregated-public-key = " + Quoted(key) + "\n")
      + "node-vss = [\n"
      + (VssBlock(vss) + "\n")
      + "]\n"
  }

  // The rule by which a script adds an entry to the text of a file
  function Append(file: string, e: Entry): string { file + "\n" + Print(e) }

  // The text of a file after the first entry and the ones appended to it
  function File(entries: seq<Entry>): string
    requires |entries| > 0
  {
    if |entries| == 1 then Print(entries[0]) else Append(File(entries[..|entries| - 1]), entries[|entries| - 1])
  }

  // ---- what is read ----

  datatype Table = Table(height: Option<nat>, threshold: Option<nat>, aggpubkey: Option<string>,
                         size: Option<nat>, vss: Option<seq<string>>, signature: Option<string>)

  const EMPTY := Table(None, None, None, None, None, None)

  // Characters a basic string may hold as they are (TOML v1.0.0, "String")
  predicate IsPlain(s: string)
  {
    forall i :: 0 <= i < |s| ==>
      s[i] != '\"' && s[i] != '\\' && (s[i] >= ' ' || s[i] == '\t') && s[i] != 127 as char
  }

  // Between the lines of an array, `more` says that another item may follow
  datatype Mode = Fields | Items(items: seq<string>, more: bool)

  datatype Reader = Reader(tables: seq<Table>, mode: Mode)

  predicate Starts(line: string, key: string) { |key| <= |line| && line[..|key|] == key }

  // The string whose opening quote has been read
  function Unquoted(s: string): Option<string>
  {
    if |s| > 0 && s[|s| - 1] == '\"' && IsPlain(s[..|s| - 1]) then Some(s[..|s| - 1]) else None
  }

  const HEIGHT := "block-height = "
  const THRESHOLD := "threshold = "
  const SIZE := "max-block-size = "
  const AGGPUBKEY := "aggregated-public-key = \""
  const SIGNATURE := "signature = \""
  const VSS := "node-vss = ["
  const INDENT := "    \""

  // A key that is given twice is an error
  function Field(t: Table, line: string): Option<Table>
  {
    if Starts(line, HEIGHT) then
      var n := ParseDecimal(line[|HEIGHT|..]);
      if n.None? || t.height.Some? then None else Some(t.(height := n))
    else if Starts(line, THRESHOLD) then
      var n := ParseDecimal(line[|THRESHOLD|..]);
      if n.None? || t.threshold.Some? then None else Some(t.(threshold := n))
    else if Starts(line, SIZE) then
      var n := ParseDecimal(line[|SIZE|..]);
      if n.None? || t.size.Some? then None else Some(t.(size := n))
    else if Starts(line, AGGPUBKEY) then
      var s := Unquoted(line[|AGGPUBKEY|..]);
      if s.None? || t.aggpubkey.Some? then None else Some(t.(aggpubkey := s))
    else if Starts(line, SIGNATURE) then
      var s := Unquoted(line[|SIGNATURE|..]);
      if s.None? || t.signature.Some? then None else Some(t.(signature := s))
    else None
  }

  function ReadItem(r: Reader, line: string): Option<Reader>
    requires r.mode.Items?
  {
    if !r.mode.more || !Starts(line, INDENT) then None
    else
      var body := line[|INDENT|..];
      var comma := |body| > 0 && body[|body| - 1] == ',';
      var item := Unquoted(if comma then body[..|body| - 1] else body);
      if item.None? then None else Some(r.(mode := Items(r.mode.items + [item.value], comma)))
  }

  function ReadLine(r: Reader, line: string): Option<Reader>
  {
    if line == "" then Some(r)
    else if r.mode.Items? then
      if line == "]" && |r.tables| > 0 then
        var t := r.tables[|r.tables| - 1];
        Some(Reader(r.tables[..|r.tables| - 1] + [t.(vss := Some(r.mode.items))], Fields))
      else ReadItem(r, line)
    else if line == "[[federation]]" then Some(r.(tables := r.tables + [EMPTY]))
    else if |r.tables| == 0 then None
    else
      var t := r.tables[|r.tables| - 1];
      if line == VSS then (if t.vss.Some? then None else Some(r.(mode := Items([], true))))
      else
        var f := Field(t, line);
        if f.None? then None else Some(r.(tables := r.tables[..|r.tables| - 1] + [f.value]))
  }

  function ReadLines(r: Reader, lines: seq<string>): Option<Reader>
    decreases |lines|
  {
    if |lines| == 0 then Some(r)
    else
      var next := ReadLine(r, lines[0]);
      if next.None? then None else ReadLines(next.value, lines[1..])
  }

  function Read(r: Reader, text: string): Option<Reader> { ReadLines(r, Lines(text)) }

  function Parse(text: string): Option<seq<Table>>
  {
    var r := Read(Reader([], Fields), text);
    if r.Some? && r.value.mode.Fields? then Some(r.value.tables) else None
  }

  // ---- reading back, line by line ----

  lemma ReadFirst(r: Reader, line: string, rest: string)
    requires OneLine(line)
    ensures Read(r, line + "\n" + rest) ==
            if ReadLine(r, line).None? then None else Read(ReadLine(r, line).value, rest)
  {
    FirstLine(line, rest);
    assert ([line] + Lines(rest))[1..] == Lines(rest);
  }

  // A reader in the middle of table t
  function In(ts: seq<Table>, t: Table): Reader { Reader(ts + [t], Fields) }

  lemma ReadField(ts: seq<Table>, t: Table, line: string, u: Table, rest: string)
    requires OneLine(line) && |line| > 0 && line[0] != '[' && line[0] != 'n' && Field(t, line) == Some(u)
    ensures Read(In(ts, t), line + "\n" + rest) == Read(In(ts, u), rest)
  {
    ReadFirst(In(ts, t), line, rest);
    assert (ts + [t])[..|ts|] == ts;
    assert line != "[[federation]]" && line != VSS;
  }

  lemma StartsWithKey(key: string, rest: string)
    ensures Starts(key + rest, key) && (key + rest)[|key|..] == rest
  {
  }

  lemma UnquotedOfPlain(s: string)
    requires IsPlain(s)
    ensures Unquoted(s + "\"") == Some(s)
  {
    assert (s + "\"")[..|s|] == s;
  }

  lemma OtherKey(line: string, key: string)
    requires |line| > 0 && |key| > 0 && line[0] != key[0]
    ensures !Starts(line, key)
  {
  }

  lemma HeightField(t: Table, n: nat)
    requires t.height.None?
    ensures Field(t, HEIGHT + Decimal(n)) == Some(t.(height := Some(n)))
  {
    ParseOfDecimal(n);
    StartsWithKey(HEIGHT, Decimal(n));
  }

  lemma ThresholdField(t: Table, n: nat)
    requires t.threshold.None?
    ensures Field(t, THRESHOLD + Decimal(n)) == Some(t.(threshold := Some(n)))
  {
    ParseOfDecimal(n);
    OtherKey(THRESHOLD + Decimal(n), HEIGHT);
    StartsWithKey(THRESHOLD, Decimal(n));
  }

  lemma SizeField(t: Table, n: nat)
    requires t.size.None?
    ensures Field(t, SIZE + Decimal(n)) == Some(t.(size := Some(n)))
  {
    ParseOfDecimal(n);
    OtherKey(SIZE + Decimal(n), HEIGHT);
    OtherKey(SIZE + Decimal(n), THRESHOLD);
    StartsWithKey(SIZE, Decimal(n));
  }

  lemma AggpubkeyField(t: Table, s: string)
    requires IsPlain(s) && t.aggpubkey.None?
    ensures Field(t, AGGPUBKEY + (s + "\"")) == Some(t.(aggpubkey := Some(s)))
  {
    var line := AGGPUBKEY + (s + "\"");
    UnquotedOfPlain(s);
    OtherKey(line, HEIGHT);
    OtherKey(line, THRESHOLD);
    OtherKey(line, SIZE);
    StartsWithKey(AGGPUBKEY, s + "\"");
  }

  lemma SignatureField(t: Table, s: string)
    requires IsPlain(s) && t.signature.None?
    ensures Field(t, SIGNATURE + (s + "\"")) == Some(t.(signature := Some(s)))
  {
    var line := SIGNATURE + (s + "\"");
    UnquotedOfPlain(s);
    OtherKey(line, HEIGHT);
    OtherKey(line, THRESHOLD);
    OtherKey(line, SIZE);
    OtherKey(line, AGGPUBKEY);
    StartsWithKey(SIGNATURE, s + "\"");
  }

  lemma ReadHeader(ts: seq<Table>, rest: string)
    ensures Read(Reader(ts, Fields), "[[federation]]\n" + rest) == Read(In(ts, EMPTY), rest)
  {
    assert "[[federation]]\n" + rest == "[[federation]]" + "\n" + rest;
    ReadFirst(Reader(ts, Fields), "[[federation]]", rest);
  }

  lemma ReadHead(ts: seq<Table>, height: nat, rest: string)
    ensures Read(Reader(ts, Fields), "[[federation]]\n" + (HEIGHT + Decimal(height) + "\n" + rest))
         == Read(In(ts, EMPTY.(height := Some(height))), rest)
  {
    var line := HEIGHT + Decimal(height);
    ReadHeader(ts, line + "\n" + rest);
    HeightField(EMPTY, height);
    ReadField(ts, EMPTY, line, EMPTY.(height := Some(height)), rest);
  }

  lemma ReadThreshold(ts: seq<Table>, t: Table, n: nat, rest: string)
    requires t.threshold.None?
    ensures Read(In(ts, t), THRESHOLD + Decimal(n) + "\n" + rest) == Read(In(ts, t.(threshold := Some(n))), rest)
  {
    ThresholdField(t, n);
    ReadField(ts, t, THRESHOLD + Decimal(n), t.(threshold := Some(n)), rest);
  }

  lemma ReadSize(ts: seq<Table>, t: Table, n: nat, rest: string)
    requires t.size.None?
    ensures Read(In(ts, t), SIZE + Decimal(n) + "\n" + rest) == Read(In(ts, t.(size := Some(n))), rest)
  {
    SizeField(t, n);
    ReadField(ts, t, SIZE + Decimal(n), t.(size := Some(n)), rest);
  }

  // The printed lines, cut behind the opening quote
  lemma QuotedLines(s: string)
    ensures "aggregated-public-key = " + Quoted(s) == AGGPUBKEY + (s + "\"")
    ensures "signature = " + Quoted(s) == SIGNATURE + (s + "\"")
  {
  }

  lemma ReadAggpubkey(ts: seq<Table>, t: Table, key: string, rest: string)
    requires t.aggpubkey.None? && IsPlain(key)
    ensures Read(In(ts, t), "aggregated-public-key = " + Quoted(key) + "\n" + rest)
         == Read(In(ts, t.(aggpubkey := Some(key))), rest)
  {
    var line := AGGPUBKEY + (key + "\"");
    QuotedLines(key);
    AggpubkeyField(t, key);
    ReadField(ts, t, line, t.(aggpubkey := Some(key)), rest);
  }

  lemma ReadSignature(ts: seq<Table>, t: Table, s: string, rest: string)
    requires t.signature.None? && IsPlain(s)
    ensures Read(In(ts, t), "signature = " + Quoted(s) + "\n" + rest)
         == Read(In(ts, t.(signature := Some(s))), rest)
  {
    var line := SIGNATURE + (s + "\"");
    QuotedLines(s);
    SignatureField(t, s);
    ReadField(ts, t, line, t.(signature := Some(s)), rest);
  }

  // ---- reading back an array ----

  predicate AllPlain(vss: seq<string>) { forall i :: 0 <= i < |vss| ==> IsPlain(vss[i]) }

  lemma BlockStep(vss: seq<string>)
    requires |vss| > 0
    ensures VssBlock(vss) ==
            if |vss| == 1 then "    " + Quoted(vss[0]) else "    " + Quoted(vss[0]) + ",\n" + VssBlock(vss[1..])
  {
    var parts := seq(|vss|, i requires 0 <= i < |vss| => "    " + Quoted(vss[i]));
    var tail := vss[1..];
    assert parts[1..] == seq(|tail|, i requires 0 <= i < |tail| => "    " + Quoted(tail[i]));
  }

  function InItems(ts: seq<Table>, t: Table, items: seq<string>, more: bool): Reader
  {
    Reader(ts + [t], Items(items, more))
  }

  lemma ItemLine(ts: seq<Table>, t: Table, items: seq<string>, v: string, comma: bool)
    requires IsPlain(v)
    ensures
      var line := "    " + Quoted(v) + if comma then "," else "";
      OneLine(line) && ReadLine(InItems(ts, t, items, true), line) == Some(InItems(ts, t, items + [v], comma))
  {
    var line := "    " + Quoted(v) + if comma then "," else "";
    var body := v + "\"" + if comma then "," else "";
    assert line == INDENT + body;
    StartsWithKey(INDENT, body);
    UnquotedOfPlain(v);
    assert line[0] == ' ';
    assert body[|body| - 1] == if comma then ',' else '\"';
    assert comma ==> body[..|body| - 1] == v + "\"";
    assert !comma ==> body == v + "\"";
  }

  lemma {:induction false} ReadItems(ts: seq<Table>, t: Table, items: seq<string>, vss: seq<string>, rest: string)
    requires |vss| > 0 && AllPlain(vss)
    ensures Read(InItems(ts, t, items, true), VssBlock(vss) + "\n" + rest)
         == Read(InItems(ts, t, items + vss, false), rest)
    decreases |vss|
  {
    BlockStep(vss);
    var first := "    " + Quoted(vss[0]);
    if |vss| == 1 {
      ItemLine(ts, t, items, vss[0], false);
      assert first + "" == first && items + vss == items + [vss[0]];
      ReadFirst(InItems(ts, t, items, true), first, rest);
    } else {
      ItemLine(ts, t, items, vss[0], true);
      var others := VssBlock(vss[1..]) + "\n" + rest;
      assert VssBlock(vss) + "\n" + rest == (first + ",") + "\n" + others;
      ReadFirst(InItems(ts, t, items, true), first + ",", others);
      ReadItems(ts, t, items + [vss[0]], vss[1..], rest);
      assert items + vss == items + [vss[0]] + vss[1..];
    }
  }

  lemma CloseItems(ts: seq<Table>, t: Table, items: seq<string>, more: bool, rest: string)
    ensures Read(InItems(ts, t, items, more), "]" + "\n" + rest) == Read(In(ts, t.(vss := Some(items))), rest)
  {
    ReadFirst(InItems(ts, t, items, more), "]", rest);
    assert (ts + [t])[..|ts|] == ts;
  }

  lemma ReadVss(ts: seq<Table>, t: Table, vss: seq<string>, rest: string)
    requires t.vss.None? && AllPlain(vss)
    ensures Read(In(ts, t), VssLine(vss) + "\n" + rest) == Read(In(ts, t.(vss := Some(vss))), rest)
  {
    var close := "]" + "\n" + rest;
    var body := VssBlock(vss) + "\n" + close;
    assert VssLine(vss) + "\n" + rest == VSS + "\n" + body;
    ReadFirst(In(ts, t), VSS, body);
    assert ReadLine(In(ts, t), VSS) == Some(InItems(ts, t, [], true));
    if |vss| == 0 {
      assert body == "" + "\n" + close;
      ReadFirst(InItems(ts, t, [], true), "", close);
      CloseItems(ts, t, [], true, rest);
      assert vss == [];
    } else {
      ReadItems(ts, t, [], vss, close);
      assert [] + vss == vss;
      CloseItems(ts, t, vss, false, rest);
    }
  }

  // ---- reading back an entry ----

  // What the entry is meant to say; a field the entry leaves out is absent
  function TableOf(e: Entry): Table
  {
    match e
    case Rotation(h, key, t, vss, sig) => Table(Some(h), t, Some(key), None, vss, sig)
    case Resize(h, size, t, vss, sig) => Table(Some(h), Some(t), None, Some(size), Some(vss), Some(sig))
    case Genesis(t, key, vss) => Table(Some(0), Some(t), Some(key), None, Some(vss), None)
  }

  predicate IsPlainTable(t: Table)
  {
    && (t.aggpubkey.Some? ==> IsPlain(t.aggpubkey.value))
    && (t.vss.Some? ==> AllPlain(t.vss.value))
    && (t.signature.Some? ==> IsPlain(t.signature.value))
  }

  function ThresholdText(n: Option<nat>): string { if n.Some? then THRESHOLD + Decimal(n.value) + "\n" else "" }

  function VssText(vss: Option<seq<string>>): string { if vss.Some? then VssLine(vss.value) + "\n" else "" }

  function SignatureText(s: Option<string>): string
  {
    if s.Some? then "signature = " + Quoted(s.value) + "\n" else ""
  }

  lemma ReadThresholdText(ts: seq<Table>, t: Table, n: Option<nat>, rest: string)
    requires t.threshold.None?
    ensures Read(In(ts, t), ThresholdText(n) + rest) == Read(In(ts, t.(threshold := n)), rest)
  {
    if n.Some? {
      ReadThreshold(ts, t, n.value, rest);
    } else {
      assert "" + rest == rest && t.(threshold := n) == t;
    }
  }

  lemma ReadVssText(ts: seq<Table>, t: Table, vss: Option<seq<string>>, rest: string)
    requires t.vss.None? && (vss.Some? ==> AllPlain(vss.value))
    ensures Read(In(ts, t), VssText(vss) + rest) == Read(In(ts, t.(vss := vss)), rest)
  {
    if vss.Some? {
      ReadVss(ts, t, vss.value, rest);
    } else {
      assert "" + rest == rest && t.(vss := vss) == t;
    }
  }

  lemma ReadSignatureText(ts: seq<Table>, t: Table, s: Option<string>, rest: string)
    requires t.signature.None? && (s.Some? ==> IsPlain(s.value))
    ensures Read(In(ts, t), SignatureText(s) + rest) == Read(In(ts, t.(signature := s)), rest)
  {
    if s.Some? {
      ReadSignature(ts, t, s.value, rest);
    } else {
      assert "" + rest == rest && t.(signature := s) == t;
    }
  }

  function HeadText(h: nat): string { "[[federation]]\n" + (HEIGHT + Decimal(h) + "\n") }

  function AggpubkeyText(key: string): string { "aggregated-public-key = " + Quoted(key) + "\n" }

  // The joined lines of the federation change, piece by piece
  lemma RotationText(h: nat, key: string, t: Option<nat>, vss: Option<seq<string>>, sig: Option<string>)
    ensures Print(Rotation(h, key, t, vss, sig))
         == HeadText(h) + ThresholdText(t) + AggpubkeyText(key) + VssText(vss) + SignatureText(sig)
  {
    var lines := RotationLines(h, key, t, vss, sig);
    var thresholds := if t.Some? then ["threshold = " + Decimal(t.value)] else [];
    var shares := if vss.Some? then [VssLine(vss.value)] else [];
    var signatures := if sig.Some? then ["signature = " + Quoted(sig.value)] else [];
    var keys := ["aggregated-public-key = " + Quoted(key)];
    var head := ["[[federation]]", "block-height = " + Decimal(h)];
    JoinIsTerminated(lines);
    TerminatedConcat(head + thresholds + keys + shares, signatures);
    TerminatedConcat(head + thresholds + keys, shares);
    TerminatedConcat(head + thresholds, keys);
    TerminatedConcat(head, thresholds);
    HeadLines(h);
    TerminatedOne(keys[0]);
    if t.Some? { TerminatedOne(thresholds[0]); }
    if vss.Some? { TerminatedOne(shares[0]); }
    if sig.Some? { TerminatedOne(signatures[0]); }
  }

  lemma HeadLines(h: nat)
    ensures Terminated(["[[federation]]", "block-height = " + Decimal(h)]) == HeadText(h)
  {
    var line := "block-height = " + Decimal(h);
    TerminatedConcat(["[[federation]]"], [line]);
    TerminatedOne("[[federation]]");
    TerminatedOne(line);
    assert ["[[federation]]"] + [line] == ["[[federation]]", line];
  }

  lemma RightToLeft(a: string, b: string, c: string, d: string, e: string, rest: string)
    ensures (a + b + c + d + e) + rest == a + (b + (c + (d + (e + rest))))
  {
  }

  lemma ReadHeadText(ts: seq<Table>, h: nat, rest: string)
    ensures Read(Reader(ts, Fields), HeadText(h) + rest) == Read(In(ts, EMPTY.(height := Some(h))), rest)
  {
    var line := HEIGHT + Decimal(h) + "\n";
    assert HeadText(h) + rest == "[[federation]]\n" + (line + rest);
    ReadHead(ts, h, rest);
  }

  function SizeText(size: nat): string { SIZE + Decimal(size) + "\n" }

  // The text of the max-block-size change, in the same pieces
  lemma ResizeText(h: nat, size: nat, t: nat, vss: seq<string>, sig: string)
    ensures Print(Resize(h, size, t, vss, sig))
         == HeadText(h) + ThresholdText(Some(t)) + SizeText(size) + VssText(Some(vss)) + SignatureText(Some(sig))
  {
    VssPieces(VssBlock(vss));
  }

  lemma VssPieces(block: string)
    ensures "node-vss = [\n" + block + "\n]\n" == "node-vss = [\n" + block + "\n]" + "\n"
    ensures "node-vss = [\n" + (block + "\n") + "]\n" == "node-vss = [\n" + block + "\n]" + "\n"
  {
    assert "\n]\n" == "\n]" + "\n" && "\n" + "]\n" == "\n]\n";
  }

  lemma ReadRotation(ts: seq<Table>, h: nat, key: string, t: Option<nat>, vss: Option<seq<string>>,
                     sig: Option<string>, rest: string)
    requires IsPlainTable(TableOf(Rotation(h, key, t, vss, sig)))
    ensures Read(Reader(ts, Fields), Print(Rotation(h, key, t, vss, sig)) + rest)
         == Read(In(ts, TableOf(Rotation(h, key, t, vss, sig))), rest)
  {
    RotationText(h, key, t, vss, sig);
    RightToLeft(HeadText(h), ThresholdText(t), AggpubkeyText(key), VssText(vss), SignatureText(sig), rest);
    var r3 := SignatureText(sig) + rest;
    var r2 := VssText(vss) + r3;
    var r1 := AggpubkeyText(key) + r2;
    var t0 := EMPTY.(height := Some(h));
    ReadHeadText(ts, h, ThresholdText(t) + r1);
    ReadThresholdText(ts, t0, t, r1);
    ReadAggpubkey(ts, t0.(threshold := t), key, r2);
    ReadVssText(ts, t0.(threshold := t, aggpubkey := Some(key)), vss, r3);
    ReadSignatureText(ts, t0.(threshold := t, aggpubkey := Some(key), vss := vss), sig, rest);
  }

  lemma ReadResize(ts: seq<Table>, h: nat, size: nat, t: nat, vss: seq<string>, sig: string, rest: string)
    requires AllPlain(vss) && IsPlain(sig)
    ensures Read(Reader(ts, Fields), Print(Resize(h, size, t, vss, sig)) + rest)
         == Read(In(ts, TableOf(Resize(h, size, t, vss, sig))), rest)
  {
    ResizeText(h, size, t, vss, sig);
    RightToLeft(HeadText(h), ThresholdText(Some(t)), SizeText(size), VssText(Some(vss)), SignatureText(Some(sig)), rest);
    var r3 := SignatureText(Some(sig)) + rest;
    var r2 := VssText(Some(vss)) + r3;
    var r1 := SizeText(size) + r2;
    var t0 := EMPTY.(height := Some(h));
    ReadHeadText(ts, h, ThresholdText(Some(t)) + r1);
    ReadThresholdText(ts, t0, Some(t), r1);
    ReadSize(ts, t0.(threshold := Some(t)), size, r2);
    ReadVssText(ts, t0.(threshold := Some(t), size := Some(size)), Some(vss), r3);
    ReadSignatureText(ts, t0.(threshold := Some(t), size := Some(size), vss := Some(vss)), Some(sig), rest);
  }

  lemma GenesisText(t: nat, key: string, vss: seq<string>)
    ensures Print(Genesis(t, key, vss))
         == HeadText(0) + ThresholdText(Some(t)) + AggpubkeyText(key) + VssText(Some(vss)) + SignatureText(None)
  {
    VssPieces(VssBlock(vss));
    HeadOfGenesis();
    var a, b, c := ThresholdText(Some(t)), AggpubkeyText(key), VssBlock(vss) + "\n";
    assert HeadText(0) + a + b + "node-vss = [\n" + c + "]\n" == HeadText(0) + a + b + ("node-vss = [\n" + c + "]\n");
    assert VssText(Some(vss)) + "" == VssText(Some(vss));
    assert HeadText(0) + a + b + VssText(Some(vss)) + "" == HeadText(0) + a + b + VssText(Some(vss));
  }

  lemma HeadOfGenesis()
    ensures "[[federation]]\n" + "block-height = 0\n" == HeadText(0)
  {
    assert Decimal(0) == "0";
  }

  /** The two printers of aggregated-key entries write the same text for a member of the
      federation at height 0. */
  lemma GenesisIsRotationAtZero(t: nat, key: string, vss: seq<string>)
    ensures Print(Genesis(t, key, vss)) == Print(Rotation(0, key, Some(t), Some(vss), None))
  {
    RotationText(0, key, Some(t), Some(vss), None);
    GenesisText(t, key, vss);
  }

  lemma ReadEntry(ts: seq<Table>, e: Entry, rest: string)
    requires IsPlainTable(TableOf(e))
    ensures Read(Reader(ts, Fields), Print(e) + rest) == Read(In(ts, TableOf(e)), rest)
  {
    match e
    case Rotation(h, key, t, vss, sig) => ReadRotation(ts, h, key, t, vss, sig, rest);
    case Resize(h, size, t, vss, sig) => ReadResize(ts, h, size, t, vss, sig, rest);
    case Genesis(t, key, vss) =>
      GenesisIsRotationAtZero(t, key, vss);
      ReadRotation(ts, 0, key, Some(t), Some(vss), None, rest);
  }

  // ---- reading back a file ----

  function Tables(entries: seq<Entry>): (r: seq<Table>)
    ensures |r| == |entries|
  {
    if |entries| == 0 then [] else Tables(entries[..|entries| - 1]) + [TableOf(entries[|entries| - 1])]
  }

  predicate AllTablesPlain(ts: seq<Table>) { forall i :: 0 <= i < |ts| ==> IsPlainTable(ts[i]) }

  lemma BlankBetween(file: string, entry: string, rest: string)
    ensures (file + "\n" + entry) + rest == file + ("" + "\n" + (entry + rest))
  {
  }

  lemma {:induction false} ReadFile(entries: seq<Entry>, rest: string)
    requires |entries| > 0 && AllTablesPlain(Tables(entries))
    ensures Read(Reader([], Fields), File(entries) + rest) == Read(Reader(Tables(entries), Fields), rest)
    decreases |entries|, 0
  {
    var n := |entries|;
    var last := entries[n - 1];
    assert Tables(entries)[n - 1] == TableOf(last);
    if n == 1 {
      ReadEntry([], last, rest);
    } else {
      ReadAppended(entries[..n - 1], last, rest);
    }
  }

  lemma {:induction false} ReadAppended(front: seq<Entry>, last: Entry, rest: string)
    requires |front| > 0 && AllTablesPlain(Tables(front) + [TableOf(last)])
    ensures Read(Reader([], Fields), Append(File(front), last) + rest)
         == Read(Reader(Tables(front) + [TableOf(last)], Fields), rest)
    decreases |front|, 1
  {
    var ts := Tables(front) + [TableOf(last)];
    forall i | 0 <= i < |front| ensures IsPlainTable(Tables(front)[i]) {
      assert ts[i] == Tables(front)[i];
    }
    assert ts[|front|] == TableOf(last);
    var entry := Print(last);
    BlankBetween(File(front), entry, rest);
    ReadFile(front, "" + "\n" + (entry + rest));
    ReadFirst(Reader(Tables(front), Fields), "", entry + rest);
    ReadEntry(Tables(front), last, rest);
  }

  // ---- what the reader can give ----

  ghost predicate HoldsPlain(r: Reader)
  {
    AllTablesPlain(r.tables) && (r.mode.Items? ==> AllPlain(r.mode.items))
  }

  lemma LineKeepsPlain(r: Reader, line: string)
    requires HoldsPlain(r) && ReadLine(r, line).Some?
    ensures HoldsPlain(ReadLine(r, line).value)
  {
  }

  lemma {:induction false} ReadKeepsPlain(r: Reader, lines: seq<string>)
    requires HoldsPlain(r) && ReadLines(r, lines).Some?
    ensures HoldsPlain(ReadLines(r, lines).value)
    decreases |lines|
  {
    if |lines| > 0 {
      LineKeepsPlain(r, lines[0]);
      ReadKeepsPlain(ReadLine(r, lines[0]).value, lines[1..]);
    }
  }

  /** A file of appended entries reads back as exactly those entries, absent fields staying
      absent, if and only if their strings hold no quote, backslash, newline or other control
      character. */
  lemma FileRoundTrip(entries: seq<Entry>)
    requires |entries| > 0
    ensures Parse(File(entries)) == Some(Tables(entries)) <==> AllTablesPlain(Tables(entries))
  {
    if AllTablesPlain(Tables(entries)) {
      ReadWholeFile(entries, File(entries), Tables(entries), "");
    }
    if Parse(File(entries)).Some? {
      ReadKeepsPlain(Reader([], Fields), Lines(File(entries)));
    }
  }

  lemma ReadWholeFile(entries: seq<Entry>, text: string, ts: seq<Table>, nothing: string)
    requires |entries| > 0 && text == File(entries) && ts == Tables(entries) && AllTablesPlain(ts) && |nothing| == 0
    ensures Parse(text) == Some(ts)
  {
    assert Read(Reader([], Fields), text + nothing) == Read(Reader(ts, Fields), nothing) by {
      ReadFile(entries, nothing);
    }
    ParseIsRead(text, nothing, ts);
  }

  lemma ParseIsRead(text: string, nothing: string, ts: seq<Table>)
    requires |nothing| == 0 && Read(Reader([], Fields), text + nothing) == Read(Reader(ts, Fields), nothing)
    ensures Parse(text) == Some(ts)
  {
    assert text + nothing == text && nothing == "";
    ReadNothing(Reader(ts, Fields));
  }

  lemma ReadNothing(r: Reader)
    ensures Read(r, "") == Some(r)
  {
    var none: seq<string> := Lines("")[1..];
    assert ReadLines(r, none) == Some(r);
  }

  /** So a signature that keeps the newline it was printed with does not read back. */
  lemma NewlineInSignature(e: Entry)
    requires TableOf(e).signature.Some? && !OneLine(TableOf(e).signature.value)
    ensures Parse(File([e])) != Some([TableOf(e)])
  {
    FileRoundTrip([e]);
    assert Tables([e]) == [TableOf(e)] by {
      assert [e][..0] == [];
      assert Tables([e])[0] == TableOf(e);
    }
    assert !IsPlain(TableOf(e).signature.value);
    assert !IsPlainTable(Tables([e])[0]);
  }
}
