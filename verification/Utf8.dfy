/** The UTF-8 check against its definition: a byte string is valid when it spells a sequence of scalar values. */
module Utf8 {
  import opened Basics
  import opened Text

  /** Code points but for the surrogates (section 3 of RFC 3629). */
  type Scalar = c: int | 0 <= c < 0xD800 || 0xE000 <= c < 0x11_0000

  /** The low six bits of `n`, in a continuation byte. */
  function Six(n: nat): (c: Byte)
    ensures 0x80 <= c <= 0xBF
  {
    0x80 + n % 0x40
  }

  function Spell(c: Scalar): (b: Bytes)
    ensures 1 <= |b| <= 4
  {
    if c < 0x80 then [c]
    else if c < 0x800 then [0xC0 + c / 0x40, Six(c)]
    else if c < 0x1_0000 then [0xE0 + c / 0x1000, Six(c / 0x40), Six(c)]
    else [0xF0 + c / 0x4_0000, Six(c / 0x1000), Six(c / 0x40), Six(c)]
  }

  function SpellAll(cs: seq<Scalar>): Bytes {
    if cs == [] then [] else Spell(cs[0]) + SpellAll(cs[1..])
  }

  /** The ranges of the first two bytes: no overlong form, no surrogate, nothing too large. */
  lemma FirstTwo(c: Scalar)
    ensures 0x80 <= c < 0x800 ==> 2 <= c / 0x40 < 0x20
    ensures 0x800 <= c < 0x1_0000 ==>
            c / 0x1000 < 0x10 && (c / 0x1000 == 0 ==> Six(c / 0x40) >= 0xA0)
            && (c / 0x1000 == 0xD ==> Six(c / 0x40) <= 0x9F)
    ensures 0x1_0000 <= c ==>
            c / 0x4_0000 <= 4 && (c / 0x4_0000 == 0 ==> Six(c / 0x1000) >= 0x90)
            && (c / 0x4_0000 == 4 ==> Six(c / 0x1000) <= 0x8F)
  {
    assert c / 0x40 / 0x40 == c / 0x1000 && c / 0x1000 / 0x40 == c / 0x4_0000;
  }

  /** A spelling in front is recognised at its full length. */
  lemma SpelledWidth(c: Scalar, t: Bytes)
    ensures Utf8Width(Spell(c) + t) == |Spell(c)|
  {
    FirstTwo(c);
    hide Six;
    var s := Spell(c);
    assert (s + t)[0] == s[0];
    if |s| > 1 {
      assert (s + t)[1] == s[1];
    }
    if |s| > 2 {
      assert (s + t)[2] == s[2];
    }
    if |s| > 3 {
      assert (s + t)[3] == s[3];
    }
  }

  /** The scalar value of a first byte and the continuation bytes after it. */
  function Value(b: seq<int>): int
    requires 1 <= |b| <= 4
  {
    if |b| == 1 then b[0]
    else if |b| == 2 then 0x40 * (b[0] - 0xC0) + (b[1] - 0x80)
    else if |b| == 3 then 0x40 * (0x40 * (b[0] - 0xE0) + (b[1] - 0x80)) + (b[2] - 0x80)
    else 0x40 * (0x40 * (0x40 * (b[0] - 0xF0) + (b[1] - 0x80)) + (b[2] - 0x80)) + (b[3] - 0x80)
  }

  lemma SixOf(n: nat, r: nat)
    requires r < 0x40
    ensures (0x40 * n + r) / 0x40 == n && Six(0x40 * n + r) == 0x80 + r
  {
  }

  /** A spelling has the value it spells. */
  lemma SpelledValue(c: Scalar)
    ensures Value(Spell(c)) == c
  {
    assert c / 0x40 / 0x40 == c / 0x1000 && c / 0x1000 / 0x40 == c / 0x4_0000;
    assert c == 0x40 * (c / 0x40) + c % 0x40;
    assert c / 0x40 == 0x40 * (c / 0x1000) + c / 0x40 % 0x40;
    assert c / 0x1000 == 0x40 * (c / 0x4_0000) + c / 0x1000 % 0x40;
  }

  /** A well-formed front is the spelling of its value. */
  lemma FrontSpelled(b: Bytes) returns (c: Scalar)
    requires Utf8Width(b) > 0
    ensures Spell(c) == b[..Utf8Width(b)]
  {
    var w := Utf8Width(b);
    if w == 1 {
      c := b[0];
    } else if w == 2 {
      c := Front2(b[0], b[1]);
    } else if w == 3 {
      c := Front3(b[0], b[1], b[2]);
    } else {
      c := Front4(b[0], b[1], b[2], b[3]);
    }
  }

  lemma Front2(x: Byte, y: Byte) returns (c: Scalar)
    requires 0xC2 <= x <= 0xDF && 0x80 <= y <= 0xBF
    ensures Spell(c) == [x, y]
  {
    c := 0x40 * (x - 0xC0) + (y - 0x80);
    SixOf(x - 0xC0, y - 0x80);
  }

  lemma Front3(x: Byte, y: Byte, z: Byte) returns (c: Scalar)
    requires 0xE0 <= x <= 0xEF && 0x80 <= y <= 0xBF && 0x80 <= z <= 0xBF
    requires (x == 0xE0 ==> y >= 0xA0) && (x == 0xED ==> y <= 0x9F)
    ensures Spell(c) == [x, y, z]
  {
    var n: nat := 0x40 * (x - 0xE0) + (y - 0x80);
    c := 0x40 * n + (z - 0x80);
    SixOf(x - 0xE0, y - 0x80);
    SixOf(n, z - 0x80);
    assert c / 0x1000 == c / 0x40 / 0x40;
    hide Six;
  }

  lemma Front4(x: Byte, y: Byte, z: Byte, v: Byte) returns (c: Scalar)
    requires 0xF0 <= x <= 0xF4 && 0x80 <= y <= 0xBF && 0x80 <= z <= 0xBF && 0x80 <= v <= 0xBF
    requires (x == 0xF0 ==> y >= 0x90) && (x == 0xF4 ==> y <= 0x8F)
    ensures Spell(c) == [x, y, z, v]
  {
    var m: nat := 0x40 * (x - 0xF0) + (y - 0x80);
    var n: nat := 0x40 * m + (z - 0x80);
    c := 0x40 * n + (v - 0x80);
    SixOf(x - 0xF0, y - 0x80);
    SixOf(m, z - 0x80);
    SixOf(n, v - 0x80);
    assert c / 0x1000 == c / 0x40 / 0x40 && c / 0x4_0000 == c / 0x1000 / 0x40;
    hide Six;
  }

  lemma {:induction false} SpelledIsValid(cs: seq<Scalar>)
    ensures ValidUtf8(SpellAll(cs))
  {
    if cs != [] {
      hide Utf8Width, Spell;
      SpelledIsValid(cs[1..]);
      SpelledWidth(cs[0], SpellAll(cs[1..]));
      assert SpellAll(cs)[|Spell(cs[0])|..] == SpellAll(cs[1..]);
    }
  }

  lemma {:induction false} ValidIsSpelled(b: Bytes) returns (cs: seq<Scalar>)
    requires ValidUtf8(b)
    ensures SpellAll(cs) == b
  {
    if b == [] {
      cs := [];
    } else {
      hide Spell;
      var c := FrontSpelled(b);
      var w := Utf8Width(b);
      var rest := ValidIsSpelled(b[w..]);
      cs := [c] + rest;
      assert cs[1..] == rest && b == b[..w] + b[w..];
    }
  }

  /** Exactly the spellings: no overlong form, no surrogate, nothing beyond U+10FFFF, nothing cut short. */
  lemma ValidExactly(b: Bytes)
    ensures ValidUtf8(b) <==> exists cs :: SpellAll(cs) == b
  {
    hide ValidUtf8, SpellAll;
    if ValidUtf8(b) {
      var cs := ValidIsSpelled(b);
    }
    forall cs ensures ValidUtf8(SpellAll(cs)) {
      SpelledIsValid(cs);
    }
  }

  /** Different texts are spelled differently. */
  lemma {:induction false} SpellingIsUnique(cs: seq<Scalar>, ds: seq<Scalar>)
    requires SpellAll(cs) == SpellAll(ds)
    ensures cs == ds
  {
    hide Spell, Utf8Width;
    if cs == [] || ds == [] {
      assert cs == ds;
    } else {
      SpelledWidth(cs[0], SpellAll(cs[1..]));
      SpelledWidth(ds[0], SpellAll(ds[1..]));
      var w := |Spell(cs[0])|;
      assert Spell(cs[0]) == SpellAll(cs)[..w] == Spell(ds[0]);
      SpelledValue(cs[0]);
      SpelledValue(ds[0]);
      assert SpellAll(cs[1..]) == SpellAll(cs)[w..] == SpellAll(ds[1..]);
      SpellingIsUnique(cs[1..], ds[1..]);
      assert cs == [cs[0]] + cs[1..] && ds == [ds[0]] + ds[1..];
    }
  }

  // --- Character boundaries ---

  lemma {:induction false} ValidConcat(a: Bytes, b: Bytes)
    requires ValidUtf8(a)
    ensures ValidUtf8(a + b) <==> ValidUtf8(b)
  {
    if a == [] {
      assert a + b == b;
    } else {
      var w := Utf8Width(a);
      WidthStays(a, b);
      hide Utf8Width;
      ValidConcat(a[w..], b);
      assert (a + b)[w..] == a[w..] + b;
    }
  }

  lemma WidthStays(a: Bytes, b: Bytes)
    requires Utf8Width(a) > 0
    ensures Utf8Width(a + b) == Utf8Width(a)
  {
    assert forall i :: 0 <= i < |a| ==> (a + b)[i] == a[i];
  }

  /** Inside a character only continuation bytes stand, and none stands at the front of one. */
  lemma CharacterBytes(b: Bytes)
    requires Utf8Width(b) > 0
    ensures !(0x80 <= b[0] <= 0xBF) && forall i :: 0 < i < Utf8Width(b) ==> 0x80 <= b[i] <= 0xBF
  {
  }

  /** In a valid text, the boundaries are exactly the places that leave a valid text on both sides. */
  lemma {:induction false} BoundaryExactly(s: Bytes, i: nat)
    requires ValidUtf8(s) && i <= |s|
    ensures Boundary(s, i) <==> ValidUtf8(s[..i]) && ValidUtf8(s[i..])
  {
    if i == 0 || i == |s| {
      EndsAreValid(s);
    } else if i < Utf8Width(s) {
      CharacterBytes(s);
      InsideIsInvalid(s[i..]);
    } else {
      hide Boundary;
      BoundaryExactly(s[Utf8Width(s)..], i - Utf8Width(s));
      LaterBoundary(s, i);
    }
  }

  lemma EndsAreValid(s: Bytes)
    requires ValidUtf8(s)
    ensures ValidUtf8(s[..0]) && ValidUtf8(s[0..]) && ValidUtf8(s[..|s|]) && ValidUtf8(s[|s|..])
  {
    assert s[..0] == [] && s[0..] == s && s[..|s|] == s && s[|s|..] == [];
  }

  lemma LaterBoundary(s: Bytes, i: nat)
    requires ValidUtf8(s) && s != [] && Utf8Width(s) <= i < |s|
    requires var w := Utf8Width(s);
             Boundary(s[w..], i - w) <==> ValidUtf8(s[w..][..i - w]) && ValidUtf8(s[w..][i - w..])
    ensures Boundary(s, i) <==> ValidUtf8(s[..i]) && ValidUtf8(s[i..])
  {
    var w := Utf8Width(s);
    assert s[..i] == s[..w] + s[w..][..i - w] && s[w..][i - w..] == s[i..];
    FrontIsValid(s);
    EndBoundary(s, i, w);
    hide Utf8Width, Boundary, ValidUtf8;
    ValidConcat(s[..w], s[w..][..i - w]);
  }

  lemma EndBoundary(s: Bytes, i: nat, w: nat)
    requires 0 < w <= i < |s| && ValidUtf8(s) && w == Utf8Width(s)
    ensures Boundary(s, i) <==> Boundary(s[w..], i - w)
  {
    hide Utf8Width;
    if i == w {
      assert ValidUtf8(s[w..]);
      NextCharacter(s[w..]);
      assert s[w..][0] == s[w];
    } else {
      assert s[w..][i - w] == s[i];
    }
  }

  lemma NextCharacter(b: Bytes)
    requires ValidUtf8(b) && b != []
    ensures !(0x80 <= b[0] <= 0xBF)
  {
  }

  lemma InsideIsInvalid(b: Bytes)
    requires b != [] && 0x80 <= b[0] <= 0xBF
    ensures !ValidUtf8(b)
  {
  }

  lemma FrontIsValid(b: Bytes)
    requires Utf8Width(b) > 0
    ensures ValidUtf8(b[..Utf8Width(b)])
  {
    var w := Utf8Width(b);
    var f := b[..w];
    assert Utf8Width(f) == w;
    assert f[w..] == [];
  }
}
