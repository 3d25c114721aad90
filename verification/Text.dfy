/** Text encodings: UTF-8 validity, lower-case folding, and the two hex readers of the program. */
module Text {
  import opened Basics

  // --- UTF-8 (section 4 of RFC 3629) ---

  predicate Tail(b: Bytes, i: nat) {
    i < |b| && 0x80 <= b[i] <= 0xBF
  }

  /** Length of the well-formed UTF-8 sequence at the front of `b`; 0 when there is none. */
  function Utf8Width(b: Bytes): (w: nat)
    ensures w <= |b| && w <= 4
  {
    if b == [] then 0
    else if b[0] < 0x80 then 1
    else if 0xC2 <= b[0] <= 0xDF && Tail(b, 1) then 2
    else if 0xE0 <= b[0] <= 0xEF && Tail(b, 1) && Tail(b, 2)
            && (b[0] == 0xE0 ==> b[1] >= 0xA0) && (b[0] == 0xED ==> b[1] <= 0x9F) then 3
    else if 0xF0 <= b[0] <= 0xF4 && Tail(b, 1) && Tail(b, 2) && Tail(b, 3)
            && (b[0] == 0xF0 ==> b[1] >= 0x90) && (b[0] == 0xF4 ==> b[1] <= 0x8F) then 4
    else 0
  }

  predicate ValidUtf8(b: Bytes) {
    b == [] || (Utf8Width(b) > 0 && ValidUtf8(b[Utf8Width(b)..]))
  }

  predicate IsAscii(b: Bytes) {
    forall i :: 0 <= i < |b| ==> b[i] < 0x80
  }

  lemma {:induction false} AsciiIsUtf8(b: Bytes)
    requires IsAscii(b)
    ensures ValidUtf8(b)
  {
    if b != [] {
      AsciiIsUtf8(b[1..]);
    }
  }

  /** The bytes of an ASCII literal are text. */
  lemma AsciiText(e: string)
    requires forall i :: 0 <= i < |e| ==> e[i] as int < 0x80
    ensures IsAscii(Ascii(e)) && ValidUtf8(Ascii(e))
  {
    AsciiIsUtf8(Ascii(e));
  }

  // --- Lower case ---

  function LowerByte(c: Byte): Byte {
    if 65 <= c <= 90 then c + 32 else c
  }

  function Lower(b: Bytes): (r: Bytes)
    ensures |r| == |b|
  {
    seq(|b|, i requires 0 <= i < |b| => LowerByte(b[i]))
  }

  // --- Hex ---

  function Digit(n: nat): (c: Byte)
    requires n < 16
    ensures c < 0x80
  {
    if n < 10 then 48 + n else 87 + n
  }

  function DigitValue(c: Byte): (r: Option<nat>)
    ensures r.Some? ==> r.value < 16 && Digit(r.value) == LowerByte(c)
  {
    if 48 <= c <= 57 then Some(c - 48)
    else if 97 <= c <= 102 then Some(c - 87)
    else if 65 <= c <= 70 then Some(c - 55)
    else None
  }

  /** hex::encode: lower-case digits. */
  function HexEncode(b: Bytes): (r: Bytes)
    ensures |r| == 2 * |b|
    ensures IsAscii(r)
  {
    if b == [] then [] else [Digit(b[0] / 16), Digit(b[0] % 16)] + HexEncode(b[1..])
  }

  /** hex::decode: digits of either case; odd length or any other byte is an error. */
  function HexDecode(s: Bytes): (r: Option<Bytes>)
    ensures r.Some? ==> 2 * |r.value| == |s|
  {
    if s == [] then Some([])
    else if |s| == 1 then None
    else
      match (DigitValue(s[0]), DigitValue(s[1]), HexDecode(s[2..]))
      case (Some(hi), Some(lo), Some(rest)) => Some([16 * hi + lo] + rest)
      case _ => None
  }

  /** One pair as `u8::from_str_radix(pair, 16)` reads it: a leading plus sign is allowed. */
  function RadixPair(a: Byte, b: Byte): Option<Byte> {
    match (DigitValue(a), DigitValue(b))
    case (Some(hi), Some(lo)) => Some(16 * hi + lo)
    case (None, Some(lo)) => if a == 43 then Some(lo) else None
    case _ => None
  }

  /** The program's own `hex_decode`, built on `from_str_radix`. */
  function RadixDecode(s: Bytes): (r: Option<Bytes>)
    ensures r.Some? ==> 2 * |r.value| == |s|
  {
    if s == [] then Some([])
    else if |s| == 1 then None
    else
      match (RadixPair(s[0], s[1]), RadixDecode(s[2..]))
      case (Some(b), Some(rest)) => Some([b] + rest)
      case _ => None
  }

  // `hex_decode` takes its pairs as string slices, and a slice that ends inside a character panics.
  // `RadixDecode` above is what it returns when it returns; here is exactly when it does not.

  /** str::is_char_boundary, on well-formed UTF-8. */
  predicate Boundary(s: Bytes, i: nat) {
    i == 0 || i == |s| || (i < |s| && !(0x80 <= s[i] <= 0xBF))
  }

  /** Pair by pair, up to the first that is no number. */
  predicate RadixPanics(s: Bytes) {
    |s| >= 2 && |s| % 2 == 0
    && (!Boundary(s, 2) || (RadixPair(s[0], s[1]).Some? && RadixPanics(s[2..])))
  }

  /** The pair at offset `i` is reached, and ends inside a character. */
  predicate CutAt(s: Bytes, i: nat) {
    i % 2 == 0 && i + 2 < |s| && RadixDecode(s[..i]).Some? && !Boundary(s, i + 2)
  }

  lemma {:induction false} RadixPanicsExactly(s: Bytes)
    requires |s| % 2 == 0
    ensures RadixPanics(s) <==> exists i: nat :: CutAt(s, i)
  {
    if s != [] {
      assert s[..0] == [] && (CutAt(s, 0) <==> !Boundary(s, 2));
      RadixPanicsExactly(s[2..]);
      forall i: nat | i >= 2 && i + 2 < |s|
        ensures CutAt(s, i) <==> RadixPair(s[0], s[1]).Some? && CutAt(s[2..], i - 2)
      {
        assert s[..i][2..] == s[2..][..i - 2];
      }
      if RadixPair(s[0], s[1]).Some? && RadixPanics(s[2..]) {
        var i: nat :| CutAt(s[2..], i);
        assert CutAt(s, i + 2);
      }
    }
  }

  lemma {:induction false} RadixIsAscii(s: Bytes)
    requires RadixDecode(s).Some?
    ensures IsAscii(s)
  {
    if s != [] {
      RadixIsAscii(s[2..]);
      assert s == [s[0], s[1]] + s[2..];
    }
  }

  /** A text that decodes, or whose even offsets are all character boundaries, is sliced safely. */
  lemma RadixSafe(s: Bytes)
    ensures RadixDecode(s).Some? ==> !RadixPanics(s)
    ensures (forall i :: 0 <= i <= |s| && i % 2 == 0 ==> Boundary(s, i)) ==> !RadixPanics(s)
  {
    if |s| % 2 == 0 {
      RadixPanicsExactly(s);
      if RadixDecode(s).Some? {
        RadixIsAscii(s);
      }
    }
  }

  /** The text "a\u00E9a": four bytes, and the first pair ends inside the accented letter. */
  lemma AccentPanics()
    ensures ValidUtf8([0x61, 0xC3, 0xA9, 0x61]) && RadixPanics([0x61, 0xC3, 0xA9, 0x61])
  {
    var s: Bytes := [0x61, 0xC3, 0xA9, 0x61];
    assert s[1..] == [0xC3, 0xA9, 0x61] && s[1..][2..] == [0x61] && [0x61][1..] == [];
  }

  lemma DigitReads(n: nat)
    requires n < 16
    ensures DigitValue(Digit(n)) == Some(n)
  {
  }

  lemma Nibbles(hi: nat, lo: nat)
    requires hi < 16 && lo < 16
    ensures (16 * hi + lo) / 16 == hi && (16 * hi + lo) % 16 == lo
  {
  }

  lemma EncodeCons(x: Byte, b: Bytes)
    ensures HexEncode([x] + b) == [Digit(x / 16), Digit(x % 16)] + HexEncode(b)
  {
    assert ([x] + b)[1..] == b;
  }

  lemma DecodeCons(a: Byte, b: Byte, rest: Bytes)
    requires DigitValue(a).Some? && DigitValue(b).Some?
    ensures HexDecode([a, b] + rest) ==
            if HexDecode(rest).None? then None
            else Some([16 * DigitValue(a).value + DigitValue(b).value] + HexDecode(rest).value)
    ensures RadixDecode([a, b] + rest) ==
            if RadixDecode(rest).None? then None
            else Some([16 * DigitValue(a).value + DigitValue(b).value] + RadixDecode(rest).value)
  {
    hide DigitValue;
    assert ([a, b] + rest)[2..] == rest;
  }

  /** Both readers undo `HexEncode`. */
  lemma {:induction false} HexRoundTrip(b: Bytes)
    ensures HexDecode(HexEncode(b)) == Some(b)
    ensures RadixDecode(HexEncode(b)) == Some(b)
  {
    if b == [] {
      assert HexEncode(b) == [];
    } else {
      hide HexDecode, RadixDecode, HexEncode, DigitValue, Digit;
      HexRoundTrip(b[1..]);
      assert b == [b[0]] + b[1..];
      var hi, lo := b[0] / 16, b[0] % 16;
      EncodeCons(b[0], b[1..]);
      DigitReads(hi);
      DigitReads(lo);
      DecodeCons(Digit(hi), Digit(lo), HexEncode(b[1..]));
    }
  }

  /** Re-encoding what hex::decode accepted gives the lower-case spelling of the input. */
  lemma {:induction false} HexDecodeCanonical(s: Bytes)
    requires HexDecode(s).Some?
    ensures HexEncode(HexDecode(s).value) == Lower(s)
  {
    if s != [] {
      hide HexDecode, HexEncode, DigitValue, Digit, Lower;
      DecodedPair(s);
      HexDecodeCanonical(s[2..]);
      var hi, lo := DigitValue(s[0]).value, DigitValue(s[1]).value;
      Nibbles(hi, lo);
      EncodeCons(16 * hi + lo, HexDecode(s[2..]).value);
      LowerPair(s);
    }
  }

  lemma DecodedPair(s: Bytes)
    requires s != [] && HexDecode(s).Some?
    ensures |s| >= 2 && DigitValue(s[0]).Some? && DigitValue(s[1]).Some? && HexDecode(s[2..]).Some?
    ensures HexDecode(s).value ==
            [16 * DigitValue(s[0]).value + DigitValue(s[1]).value] + HexDecode(s[2..]).value
  {
    hide DigitValue;
  }

  lemma LowerPair(s: Bytes)
    requires |s| >= 2
    ensures Lower(s) == [LowerByte(s[0]), LowerByte(s[1])] + Lower(s[2..])
  {
  }

  lemma HexEncodeInjective(a: Bytes, b: Bytes)
    requires HexEncode(a) == HexEncode(b)
    ensures a == b
  {
    HexRoundTrip(a);
    HexRoundTrip(b);
  }

  lemma HexIsUtf8(b: Bytes)
    ensures ValidUtf8(HexEncode(b))
  {
    AsciiIsUtf8(HexEncode(b));
  }

  predicate IsLowerHex(s: Bytes) {
    forall i :: 0 <= i < |s| ==> (48 <= s[i] <= 57 || 97 <= s[i] <= 102)
  }

  /** Lower-case hex text of even length always decodes, and encodes back to itself. */
  lemma {:induction false} LowerHexDecodes(s: Bytes)
    requires IsLowerHex(s) && |s| % 2 == 0
    ensures HexDecode(s).Some? && HexEncode(HexDecode(s).value) == s
  {
    if s != [] {
      LowerHexDecodes(s[2..]);
      assert s == [s[0], s[1]] + s[2..];
    }
    HexDecodeCanonical(s);
    assert Lower(s) == s;
  }

  lemma {:induction false} LowerOfHexIsLowerHex(s: Bytes)
    requires HexDecode(s).Some?
    ensures IsLowerHex(Lower(s))
  {
    if s != [] {
      LowerOfHexIsLowerHex(s[2..]);
      assert Lower(s) == [LowerByte(s[0]), LowerByte(s[1])] + Lower(s[2..]);
    }
  }

  // --- Both readers, digit by digit ---

  /** The 22 hex digits: 0 to 9, a to f and A to F. */
  lemma DigitExactly(c: Byte, v: nat)
    ensures DigitValue(c) == Some(v) <==>
            (v < 10 && c == 0x30 + v) || (10 <= v < 16 && (c == 0x61 + v - 10 || c == 0x41 + v - 10))
  {
  }

  lemma {:induction false} HexAt(s: Bytes, i: nat)
    requires HexDecode(s).Some? && 2 * i < |s|
    ensures DigitValue(s[2 * i]).Some? && DigitValue(s[2 * i + 1]).Some?
    ensures HexDecode(s).value[i] == 0x10 * DigitValue(s[2 * i]).value + DigitValue(s[2 * i + 1]).value
  {
    hide DigitValue;
    DecodedPair(s);
    if i > 0 {
      HexAt(s[2..], i - 1);
      assert s[2..][2 * (i - 1)] == s[2 * i] && s[2..][2 * (i - 1) + 1] == s[2 * i + 1];
    }
  }

  lemma {:induction false} HexTaken(s: Bytes)
    requires |s| % 2 == 0 && forall i :: 0 <= i < |s| ==> DigitValue(s[i]).Some?
    ensures HexDecode(s).Some?
  {
    hide DigitValue;
    if s != [] {
      forall i | 0 <= i < |s[2..]| ensures DigitValue(s[2..][i]).Some? {
        assert s[2..][i] == s[i + 2];
      }
      HexTaken(s[2..]);
    }
  }

  /** hex::decode takes exactly the texts of an even number of digits, and reads them two by two. */
  lemma HexExactly(s: Bytes)
    ensures HexDecode(s).Some? <==> |s| % 2 == 0 && forall i :: 0 <= i < |s| ==> DigitValue(s[i]).Some?
    ensures HexDecode(s).Some? ==> forall i :: 0 <= i < |HexDecode(s).value| ==>
              HexDecode(s).value[i] == 0x10 * DigitValue(s[2 * i]).value + DigitValue(s[2 * i + 1]).value
  {
    hide DigitValue, HexDecode;
    if HexDecode(s).Some? {
      forall i | 0 <= i < |s| ensures DigitValue(s[i]).Some? {
        HexAt(s, i / 2);
        assert i == 2 * (i / 2) || i == 2 * (i / 2) + 1;
      }
      forall i | 0 <= i < |HexDecode(s).value|
        ensures HexDecode(s).value[i] == 0x10 * DigitValue(s[2 * i]).value + DigitValue(s[2 * i + 1]).value
      {
        HexAt(s, i);
      }
    } else if |s| % 2 == 0 && forall i :: 0 <= i < |s| ==> DigitValue(s[i]).Some? {
      HexTaken(s);
    }
  }

  /** hex_decode also takes a plus sign for the first digit of a pair, and reads it as 0. */
  lemma PairExactly(a: Byte, b: Byte)
    ensures RadixPair(a, b) ==
            if DigitValue(b).None? then None
            else if a == 0x2B then Some(DigitValue(b).value)
            else if DigitValue(a).None? then None
            else Some(0x10 * DigitValue(a).value + DigitValue(b).value)
  {
  }

  /** Pair number `i` of a text. */
  function PairAt(s: Bytes, i: nat): Option<Byte>
    requires 2 * i + 1 < |s|
  {
    RadixPair(s[2 * i], s[2 * i + 1])
  }

  lemma PairShifts(s: Bytes, i: nat)
    requires i > 0 && 2 * i + 1 < |s|
    ensures PairAt(s[2..], i - 1) == PairAt(s, i)
  {
    assert s[2..][2 * (i - 1)] == s[2 * i] && s[2..][2 * (i - 1) + 1] == s[2 * i + 1];
  }

  lemma {:induction false} RadixAt(s: Bytes, i: nat)
    requires RadixDecode(s).Some? && 2 * i < |s|
    ensures 2 * i + 1 < |s| && PairAt(s, i) == Some(RadixDecode(s).value[i])
  {
    hide RadixPair;
    if i > 0 {
      RadixAt(s[2..], i - 1);
      PairShifts(s, i);
    }
  }

  lemma {:induction false} RadixTaken(s: Bytes)
    requires |s| % 2 == 0 && forall i: nat :: 2 * i + 1 < |s| ==> PairAt(s, i).Some?
    ensures RadixDecode(s).Some?
  {
    hide RadixPair;
    if s != [] {
      assert PairAt(s, 0).Some?;
      forall i: nat | 2 * i + 1 < |s[2..]| ensures PairAt(s[2..], i).Some? {
        PairShifts(s, i + 1);
      }
      RadixTaken(s[2..]);
    }
  }

  /** hex_decode takes exactly the texts of good pairs, and reads them pair by pair. */
  lemma RadixExactly(s: Bytes)
    ensures RadixDecode(s).Some? <==> |s| % 2 == 0 && forall i: nat :: 2 * i + 1 < |s| ==> PairAt(s, i).Some?
    ensures RadixDecode(s).Some? ==>
            forall i: nat :: 2 * i + 1 < |s| ==> PairAt(s, i) == Some(RadixDecode(s).value[i])
  {
    hide PairAt, RadixDecode;
    if RadixDecode(s).Some? {
      forall i: nat | 2 * i + 1 < |s| ensures PairAt(s, i) == Some(RadixDecode(s).value[i]) {
        RadixAt(s, i);
      }
    } else if |s| % 2 == 0 && forall i: nat :: 2 * i + 1 < |s| ==> PairAt(s, i).Some? {
      RadixTaken(s);
    }
  }
}
