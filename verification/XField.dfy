/**
 The two xfield encodings that are signed and scheduled: a length-prefixed compressed public
 key and a little-endian block size, both written as hexadecimal text.
 */
module XField {
  import opened Options

  type Byte = b: nat | b < 256

  // ---- hexadecimal text, as bytes.fromhex reads it ----

  predicate IsSpace(c: char) { c in " \t\n\r" || c == 11 as char || c == 12 as char }

  predicate IsHex(c: char) { '0' <= c <= '9' || 'a' <= c <= 'f' || 'A' <= c <= 'F' }

  function DigitValue(c: char): (d: nat)
    requires IsHex(c)
    ensures d < 16
  {
    if c <= '9' then (c - '0') as nat
    else if c <= 'F' then (c - 'A') as nat + 10
    else (c - 'a') as nat + 10
  }

  function Digit(d: nat): (c: char)
    requires d < 16
    ensures IsHex(c) && DigitValue(c) == d && !IsSpace(c)
  {
    if d < 10 then '0' + d as char else 'a' + (d - 10) as char
  }

  function Prepend(b: Byte, rest: Option<seq<Byte>>): Option<seq<Byte>>
  {
    if rest.None? then None else Some([b] + rest.value)
  }

  // The bytes of two texts, one behind the other
  function Join(a: Option<seq<Byte>>, b: Option<seq<Byte>>): Option<seq<Byte>>
  {
    if a.None? || b.None? then None else Some(a.value + b.value)
  }

  lemma PrependJoin(b: Byte, x: Option<seq<Byte>>, y: Option<seq<Byte>>)
    ensures Prepend(b, Join(x, y)) == Join(Prepend(b, x), y)
  {
    if x.Some? && y.Some? {
      assert [b] + (x.value + y.value) == [b] + x.value + y.value;
    }
  }

  /** White space is skipped in front of every pair of digits and at the end. */
  function FromHex(s: string): Option<seq<Byte>>
  {
    if |s| == 0 then Some([])
    else if IsSpace(s[0]) then FromHex(s[1..])
    else if |s| >= 2 && IsHex(s[0]) && IsHex(s[1]) then
      Prepend(16 * DigitValue(s[0]) + DigitValue(s[1]), FromHex(s[2..]))
    else None
  }

  function ToHex(bytes: seq<Byte>): (s: string)
    ensures |s| == 2 * |bytes|
  {
    if |bytes| == 0 then "" else [Digit(bytes[0] / 16), Digit(bytes[0] % 16)] + ToHex(bytes[1..])
  }

  lemma FirstPair(b: Byte, rest: string)
    ensures FromHex([Digit(b / 16), Digit(b % 16)] + rest) == Prepend(b, FromHex(rest))
  {
    var s := [Digit(b / 16), Digit(b % 16)] + rest;
    assert s[2..] == rest;
  }

  lemma {:induction false} FromToHex(bytes: seq<Byte>)
    ensures FromHex(ToHex(bytes)) == Some(bytes)
  {
    if |bytes| > 0 {
      FromToHex(bytes[1..]);
      FirstPair(bytes[0], ToHex(bytes[1..]));
      assert bytes == [bytes[0]] + bytes[1..];
    }
  }

  lemma {:induction false} FromHexConcat(s: string, t: string)
    requires FromHex(s).Some?
    ensures FromHex(s + t) == Join(FromHex(s), FromHex(t))
  {
    if |s| == 0 {
      assert s + t == t;
      if FromHex(t).Some? {
        assert [] + FromHex(t).value == FromHex(t).value;
      }
    } else if IsSpace(s[0]) {
      assert (s + t)[1..] == s[1..] + t;
      FromHexConcat(s[1..], t);
    } else {
      assert (s + t)[2..] == s[2..] + t;
      FromHexConcat(s[2..], t);
      PrependJoin(16 * DigitValue(s[0]) + DigitValue(s[1]), FromHex(s[2..]), FromHex(t));
    }
  }

  ghost predicate AllSpace(s: string) { forall i :: 0 <= i < |s| ==> IsSpace(s[i]) }

  lemma {:induction false} EmptyIffAllSpace(s: string)
    ensures FromHex(s) == Some([]) <==> AllSpace(s)
  {
    if |s| > 0 && IsSpace(s[0]) {
      EmptyIffAllSpace(s[1..]);
      if AllSpace(s[1..]) {
        forall i | 0 <= i < |s| ensures IsSpace(s[i]) {
          assert i > 0 ==> s[i] == s[1..][i - 1];
        }
      }
    }
  }

  // ---- the encoders ----

  const MAX_BLOCK_SIZE_MIN := 1000
  const KEY_BYTES := 33

  // What the two scripts are given
  datatype Input = Key(hex: string) | Size(value: int)

  predicate IsCompressedKey(hex: string)
  {
    && FromHex(hex).Some? && |FromHex(hex).value| == KEY_BYTES
    && |hex| >= 2 && hex[..2] in ["02", "03"]
  }

  function LittleEndian(v: nat): (r: seq<Byte>)
    requires v <= 0xFFFF_FFFF
    ensures |r| == 4
  {
    [v % 256, v / 0x100 % 256, v / 0x1_0000 % 256, v / 0x100_0000]
  }

  function Encode(x: Input): (r: Option<string>)
    ensures r.Some? ==> |r.value| == match x case Key(hex) => 4 + |hex| case Size(_) => 10
  {
    match x
    case Key(hex) => if IsCompressedKey(hex) then Some("01" + ToHex([KEY_BYTES]) + hex) else None
    case Size(v) =>
      if v <= MAX_BLOCK_SIZE_MIN || v > 0xFFFF_FFFF then None
      else Some("02" + ToHex(LittleEndian(v)))
  }

  // ---- the reader on the other side ----

  datatype XField = AggregatePublicKey(key: seq<Byte>) | MaxBlockSize(value: nat)

  function Number(b0: nat, b1: nat, b2: nat, b3: nat): nat
  {
    b0 + 0x100 * b1 + 0x1_0000 * b2 + 0x100_0000 * b3
  }

  /** A tag byte; then a length byte and so many bytes of key, or four bytes of size. */
  function Decode(text: string): Option<XField>
  {
    var bytes := FromHex(text);
    if bytes.None? || |bytes.value| < 2 then None
    else
      var b := bytes.value;
      if b[0] == 1 && b[1] == KEY_BYTES && |b| == 2 + KEY_BYTES then Some(AggregatePublicKey(b[2..]))
      else if b[0] == 2 && |b| == 5 then
        Some(MaxBlockSize(Number(b[1], b[2], b[3], b[4])))
      else None
  }

  lemma TagBytes()
    ensures "01" == ToHex([1]) && "02" == ToHex([2])
  {
    assert ToHex([]) == "";
    assert ToHex([1]) == "01";
    assert ToHex([2]) == "02";
  }

  /** Every accepted input is recovered: the variant, and the key or the size. */
  lemma DecodeRecovers(x: Input)
    requires Encode(x).Some?
    ensures Decode(Encode(x).value) ==
            match x
            case Key(hex) => Some(AggregatePublicKey(FromHex(hex).value))
            case Size(v) => Some(MaxBlockSize(v))
  {
    TagBytes();
    match x
    case Key(hex) =>
      FromToHex([1]);
      FromToHex([KEY_BYTES]);
      FromHexConcat(ToHex([1]), ToHex([KEY_BYTES]));
      FromHexConcat("01" + ToHex([KEY_BYTES]), hex);
      var b := FromHex("01" + ToHex([KEY_BYTES]) + hex).value;
      assert b == [1, KEY_BYTES] + FromHex(hex).value;
      assert b[2..] == FromHex(hex).value;
    case Size(v) =>
      FromToHex([2]);
      FromToHex(LittleEndian(v));
      FromHexConcat(ToHex([2]), ToHex(LittleEndian(v)));
      var b := FromHex("02" + ToHex(LittleEndian(v))).value;
      assert b == [2] + LittleEndian(v);
      LittleEndianIsExact(v);
  }

  lemma LittleEndianIsExact(v: nat)
    requires v <= 0xFFFF_FFFF
    ensures Number(v % 256, v / 0x100 % 256, v / 0x1_0000 % 256, v / 0x100_0000) == v
  {
    assert v % 256 + 0x100 * (v / 0x100) == v;
    assert v / 0x100 % 256 + 0x100 * (v / 0x1_0000) == v / 0x100;
    assert v / 0x1_0000 % 256 + 0x100 * (v / 0x100_0000) == v / 0x1_0000;
  }

  /** Every 33-byte key with a compressed-point prefix has an input that is accepted. */
  lemma EveryKeyIsAccepted(key: seq<Byte>)
    requires |key| == KEY_BYTES && (key[0] == 2 || key[0] == 3)
    ensures Encode(Key(ToHex(key))).Some?
    ensures Decode(Encode(Key(ToHex(key))).value) == Some(AggregatePublicKey(key))
  {
    FromToHex(key);
    var hex := ToHex(key);
    assert hex[..2] == [Digit(0), Digit(key[0])];
    assert Digit(0) == '0' && (Digit(key[0]) == '2' || Digit(key[0]) == '3');
    assert hex[..2] in ["02", "03"];
    DecodeRecovers(Key(hex));
  }

  // ---- prefixes ----

  // b is the same key as a, written with more white space behind it
  ghost predicate IsPadded(a: Input, b: Input)
  {
    a.Key? && b.Key? && a.hex <= b.hex && AllSpace(b.hex[|a.hex|..])
  }

  lemma KeyPrefixes(p: string, q: string)
    requires IsCompressedKey(p) && IsCompressedKey(q)
    ensures p <= q <==> IsPadded(Key(p), Key(q))
  {
    if p <= q {
      var rest := q[|p|..];
      assert q == p + rest;
      FromHexConcat(p, rest);
      assert |FromHex(rest).value| == 0;
      EmptyIffAllSpace(rest);
    }
  }

  lemma EncodedKeyPrefixes(p: string, q: string)
    requires IsCompressedKey(p) && IsCompressedKey(q)
    ensures Encode(Key(p)).value <= Encode(Key(q)).value <==> p <= q
  {
    var head := "01" + ToHex([KEY_BYTES]);
    var s, t := head + p, head + q;
    assert p == s[|head|..] && q == t[|head|..];
    if s <= t {
      assert p == t[..|s|][|head|..] == q[..|p|];
    }
    if p <= q {
      assert t == s + q[|p|..];
    }
  }

  lemma SameLengthPrefix(s: string, t: string)
    requires |s| == |t|
    ensures s <= t <==> s == t
  {
    if s <= t {
      assert t[..|s|] == t;
    }
  }

  lemma EncodedSizePrefixes(v: nat, w: nat)
    requires MAX_BLOCK_SIZE_MIN < v <= 0xFFFF_FFFF && MAX_BLOCK_SIZE_MIN < w <= 0xFFFF_FFFF
    ensures Encode(Size(v)).value <= Encode(Size(w)).value <==> v == w
  {
    DecodeRecovers(Size(v));
    DecodeRecovers(Size(w));
    SameLengthPrefix(Encode(Size(v)).value, Encode(Size(w)).value);
  }

  lemma TagsDiffer(hex: string, v: nat)
    requires IsCompressedKey(hex) && MAX_BLOCK_SIZE_MIN < v <= 0xFFFF_FFFF
    ensures !(Encode(Key(hex)).value <= Encode(Size(v)).value)
    ensures !(Encode(Size(v)).value <= Encode(Key(hex)).value)
  {
    assert Encode(Key(hex)).value[1] == '1' && Encode(Size(v)).value[1] == '2';
  }

  /** One accepted encoding is a prefix of another exactly when they are encodings of the same
      key, the second with white space behind it.  So the tags keep the two kinds apart, the
      encoding is injective, and it is prefix-free as soon as no key ends in white space. */
  lemma PrefixIff(a: Input, b: Input)
    requires Encode(a).Some? && Encode(b).Some?
    ensures Encode(a).value <= Encode(b).value <==> a == b || IsPadded(a, b)
  {
    match (a, b)
    case (Key(p), Key(q)) =>
      EncodedKeyPrefixes(p, q);
      KeyPrefixes(p, q);
    case (Size(v), Size(w)) => EncodedSizePrefixes(v, w);
    case (Key(p), Size(v)) => TagsDiffer(p, v);
    case (Size(v), Key(q)) => TagsDiffer(q, v);
  }

  /** Keys without white space are 66 characters long; among them no encoding is a prefix of
      another one. */
  lemma PrefixFreeOnPlainKeys(a: Input, b: Input)
    requires Encode(a).Some? && Encode(b).Some?
    requires a.Key? ==> |a.hex| == 2 * KEY_BYTES
    requires b.Key? ==> |b.hex| == 2 * KEY_BYTES
    ensures Encode(a).value <= Encode(b).value <==> a == b
  {
    PrefixIff(a, b);
  }

  /** Without that condition it fails, for every accepted key. */
  lemma TrailingSpaceIsAccepted(hex: string)
    requires IsCompressedKey(hex)
    ensures Encode(Key(hex + " ")).Some? && Encode(Key(hex)).value < Encode(Key(hex + " ")).value
    ensures Decode(Encode(Key(hex + " ")).value) == Decode(Encode(Key(hex)).value)
  {
    FromHexConcat(hex, " ");
    EmptyIffAllSpace(" ");
    assert (hex + " ")[..2] == hex[..2];
    assert FromHex(hex + " ").value == FromHex(hex).value;
    EncodedKeyPrefixes(hex, hex + " ");
    DecodeRecovers(Key(hex));
    DecodeRecovers(Key(hex + " "));
  }
}
