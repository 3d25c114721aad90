/** A decode depends only on the bytes it used: prefix stability of the CBOR decoder. */
module CborPrefix {
  import opened Basics
  import opened Json
  import opened Cbor

  /** `a` and `b` both hold, and start with, the same `u` bytes. */
  predicate Agree(a: Bytes, b: Bytes, u: nat) {
    u <= |a| && u <= |b| && forall i :: 0 <= i < u ==> a[i] == b[i]
  }

  lemma AgreeAfter(a: Bytes, b: Bytes, u: nat, p: nat)
    requires Agree(a, b, u) && p <= u
    ensures Agree(a, b, p)
    ensures Agree(a[p..], b[p..], u - p)
  {
  }

  lemma HeadStable(a: Bytes, b: Bytes)
    requires ReadHead(a).Some? && Agree(a, b, ReadHead(a).value.pos)
    ensures ReadHead(b) == ReadHead(a)
  {
    var pos := ReadHead(a).value.pos;
    assert a[1..pos] == b[1..pos];
  }

  /** `dec` looks only at the bytes it uses. */
  ghost predicate Stable(dec: ItemDecoder) {
    forall a, b {:trigger Agree(a, b, dec(a).value.used)} ::
      dec(a).Some? && Agree(a, b, dec(a).value.used) ==> dec(b) == dec(a)
  }

  lemma ChildrenStable(child: ItemDecoder, a: Bytes, b: Bytes, pos: nat, n: nat)
    requires Stable(child) && pos <= |a| && DecodeItems(child, a[pos..], n).Some?
    requires Agree(a, b, pos + DecodeItems(child, a[pos..], n).value.1)
    ensures DecodeItems(child, b[pos..], n) == DecodeItems(child, a[pos..], n)
  {
    var used := DecodeItems(child, a[pos..], n).value.1;
    AgreeAfter(a, b, pos + used, pos);
    ItemsStable(child, a[pos..], b[pos..], n);
  }

  lemma BodyStable(child: ItemDecoder, a: Bytes, b: Bytes, h: ItemHead)
    requires Stable(child) && h.major < 8 && 1 <= h.pos <= |a| && h.pos <= |b|
    requires DecodeBody(child, a, h).Some? && Agree(a, b, DecodeBody(child, a, h).value.used)
    ensures DecodeBody(child, b, h) == DecodeBody(child, a, h)
  {
    hide DecodeScalar, DecodeItems, Stable;
    if h.major == 4 {
      ChildrenStable(child, a, b, h.pos, h.n);
    } else if h.major == 5 {
      ChildrenStable(child, a, b, h.pos, 2 * h.n);
    } else {
      ScalarStable(a, b, h);
    }
  }

  lemma WithStable(child: ItemDecoder, a: Bytes, b: Bytes)
    requires Stable(child)
    requires DecodeWith(child, a).Some? && Agree(a, b, DecodeWith(child, a).value.used)
    ensures DecodeWith(child, b) == DecodeWith(child, a)
  {
    HeadStable(a, b);
    BodyStable(child, a, b, ReadHead(a).value);
  }

  lemma StableLift(dec: ItemDecoder, child: ItemDecoder)
    requires Stable(child) && IsLevel(dec, child)
    ensures Stable(dec)
  {
    forall a, b | dec(a).Some? && Agree(a, b, dec(a).value.used)
      ensures dec(b) == dec(a)
    {
      assert Agree(a, b, DecodeWith(child, a).value.used);
      WithStable(child, a, b);
    }
  }

  lemma StableBeyondCap(depth: nat)
    requires depth > MAX_DEPTH
    ensures Stable(DecoderAt(depth))
  {
    forall b ensures DecoderAt(depth)(b).None? {
      NothingBeyondCap(depth);
    }
  }

  lemma {:induction false} DecoderStable(depth: nat)
    ensures Stable(DecoderAt(depth))
    decreases MAX_DEPTH + 1 - depth
  {
    if depth <= MAX_DEPTH {
      DecoderStable(depth + 1);
      LevelAt(depth);
      StableLift(DecoderAt(depth), DecoderAt(depth + 1));
    } else {
      StableBeyondCap(depth);
    }
  }

  /** A successful decode depends only on the bytes it used. */
  lemma ValueStable(a: Bytes, b: Bytes, depth: nat)
    requires DecodeValue(a, depth).Some? && Agree(a, b, DecodeValue(a, depth).value.used)
    ensures DecodeValue(b, depth) == DecodeValue(a, depth)
  {
    DecoderStable(depth);
    assert Agree(a, b, DecoderAt(depth)(a).value.used);
  }

  lemma ScalarStable(a: Bytes, b: Bytes, h: ItemHead)
    requires h.major < 8 && h.major != 4 && h.major != 5 && 1 <= h.pos <= |a| && h.pos <= |b|
    requires DecodeScalar(a, h).Some? && Agree(a, b, DecodeScalar(a, h).value.used)
    ensures DecodeScalar(b, h) == DecodeScalar(a, h)
  {
    if h.major == 2 || h.major == 3 {
      var used := DecodeScalar(a, h).value.used;
      assert a[h.pos..used] == b[h.pos..used];
    }
  }

  lemma FirstStable(dec: ItemDecoder, a: Bytes, b: Bytes, rest: nat)
    requires Stable(dec) && dec(a).Some? && Agree(a, b, dec(a).value.used + rest)
    ensures dec(b) == dec(a)
    ensures Agree(a[dec(a).value.used..], b[dec(a).value.used..], rest)
  {
    AgreeAfter(a, b, dec(a).value.used + rest, dec(a).value.used);
  }

  lemma {:induction false} ItemsStable(dec: ItemDecoder, a: Bytes, b: Bytes, n: nat)
    requires Stable(dec)
    requires DecodeItems(dec, a, n).Some? && Agree(a, b, DecodeItems(dec, a, n).value.1)
    ensures DecodeItems(dec, b, n) == DecodeItems(dec, a, n)
    decreases n
  {
    hide Stable, DecodeItems, Agree;
    if n == 0 {
      NoItems(dec, a);
      NoItems(dec, b);
    } else {
      var d, items, used := FirstOfItems(dec, a, n);
      FirstStable(dec, a, b, used);
      ItemsStable(dec, a[d.used..], b[d.used..], n - 1);
      ConsItem(dec, b, n, d, items, used);
    }
  }

  lemma NoItems(dec: ItemDecoder, a: Bytes)
    ensures DecodeItems(dec, a, 0) == Some(([], 0))
  {
  }

  /** A decodable sequence of items is a first item and a decodable rest. */
  lemma FirstOfItems(dec: ItemDecoder, a: Bytes, n: nat) returns (d: Decoded, items: seq<Json>, used: nat)
    requires n > 0 && DecodeItems(dec, a, n).Some?
    ensures dec(a) == Some(d) && DecodeItems(dec, a[d.used..], n - 1) == Some((items, used))
    ensures DecodeItems(dec, a, n) == Some(([d.value] + items, d.used + used))
  {
    d := dec(a).value;
    items := DecodeItems(dec, a[d.used..], n - 1).value.0;
    used := DecodeItems(dec, a[d.used..], n - 1).value.1;
  }

  lemma ConsItem(dec: ItemDecoder, a: Bytes, n: nat, d: Decoded, items: seq<Json>, used: nat)
    requires n > 0 && dec(a) == Some(d) && DecodeItems(dec, a[d.used..], n - 1) == Some((items, used))
    ensures DecodeItems(dec, a, n) == Some(([d.value] + items, d.used + used))
  {
  }

  /** No proper prefix of the used bytes decodes: items are self-delimiting. */
  lemma NoShorterDecode(buf: Bytes, depth: nat, k: nat)
    requires DecodeValue(buf, depth).Some? && k < DecodeValue(buf, depth).value.used
    ensures DecodeValue(buf[..k], depth) == None
  {
    var short := DecodeValue(buf[..k], depth);
    if short.Some? {
      ValueStable(buf[..k], buf, depth);
    }
  }

  /** Bytes after a decodable item change nothing. */
  lemma ValueExtends(buf: Bytes, depth: nat, t: Bytes)
    requires DecodeValue(buf, depth).Some?
    ensures DecodeValue(buf + t, depth) == DecodeValue(buf, depth)
  {
    ValueStable(buf, buf + t, depth);
  }
}
