/** Whatever the bytes, a decoded value is a well-formed serde_json value. */
module CborValid {
  import opened Basics
  import opened Text
  import opened Json
  import opened Cbor

  /** Hex doubles the length of a byte string; frames are far below this bound. */
  const LIMIT: int := TWO_63 / 2

  ghost predicate Sound(dec: ItemDecoder) {
    forall b :: |b| < LIMIT && dec(b).Some? ==> Valid(dec(b).value.value)
  }

  lemma HeadBound(buf: Bytes)
    requires ReadHead(buf).Some?
    ensures ReadHead(buf).value.n < TWO_64
  {
    hide FromBigEndian, Pow256;
    PowValues();
    var info := buf[0] % 32;
    if info >= 24 {
      FromBigEndianBound(buf[1..ReadHead(buf).value.pos]);
    }
  }

  lemma {:induction false} ItemsSound(dec: ItemDecoder, buf: Bytes, n: nat)
    requires Sound(dec) && |buf| < LIMIT && DecodeItems(dec, buf, n).Some?
    ensures AllValid(DecodeItems(dec, buf, n).value.0)
    decreases n
  {
    if n > 0 {
      var d := dec(buf).value;
      ItemsSound(dec, buf[d.used..], n - 1);
      var items := DecodeItems(dec, buf, n).value.0;
      assert items[1..] == DecodeItems(dec, buf[d.used..], n - 1).value.0;
    }
  }

  lemma {:induction false} InsertSound(fs: Fields, k: Bytes, v: Json)
    requires FieldsValid(fs) && ValidText(k) && Valid(v)
    ensures FieldsValid(Insert(fs, k, v)) && Count(Insert(fs, k, v)) <= Count(fs) + 1
  {
    if fs.Entry? {
      InsertSound(fs.rest, k, v);
    }
  }

  /** Maps built by the decoder are sorted, hold valid members, and no more than were announced. */
  lemma {:induction false} CollectSound(m: Fields, items: seq<Json>)
    requires Sorted(m) && FieldsValid(m) && AllValid(items)
    ensures Sorted(Collect(m, items)) && FieldsValid(Collect(m, items))
    ensures Count(Collect(m, items)) <= Count(m) + |items| / 2
    decreases |items|
  {
    if |items| >= 2 {
      var k, v := items[0], items[1];
      assert items[1..][0] == v && items[1..][1..] == items[2..];
      if k.Str? {
        InsertSorted(m, k.text, v);
        InsertSound(m, k.text, v);
      }
      CollectSound(InsertPair(m, k, v), items[2..]);
    }
  }

  lemma ScalarSound(buf: Bytes, h: ItemHead)
    requires h.major < 8 && h.major != 4 && h.major != 5 && 1 <= h.pos <= |buf| < LIMIT && h.n < TWO_64
    requires DecodeScalar(buf, h).Some?
    ensures Valid(DecodeScalar(buf, h).value.value)
  {
    hide HexEncode, ValidUtf8;
    if h.major == 2 {
      HexIsUtf8(buf[h.pos..h.pos + h.n]);
    }
  }

  lemma SoundLift(dec: ItemDecoder, child: ItemDecoder)
    requires Sound(child) && IsLevel(dec, child)
    ensures Sound(dec)
  {
    hide ReadHead, DecodeItems, DecodeScalar, Collect;
    forall b | |b| < LIMIT && dec(b).Some? ensures Valid(dec(b).value.value) {
      assert dec(b) == DecodeWith(child, b);
      var h := ReadHead(b).value;
      HeadBound(b);
      if h.major == 4 {
        ItemsSound(child, b[h.pos..], h.n);
      } else if h.major == 5 {
        ItemsSound(child, b[h.pos..], 2 * h.n);
        CollectSound(Empty, DecodeItems(child, b[h.pos..], 2 * h.n).value.0);
      } else {
        ScalarSound(b, h);
      }
    }
  }

  lemma SoundBeyondCap(depth: nat)
    requires depth > MAX_DEPTH
    ensures Sound(DecoderAt(depth))
  {
    forall b ensures DecoderAt(depth)(b).None? {
      NothingBeyondCap(depth);
    }
  }

  lemma {:induction false} DecoderSound(depth: nat)
    ensures Sound(DecoderAt(depth))
    decreases MAX_DEPTH + 1 - depth
  {
    if depth <= MAX_DEPTH {
      DecoderSound(depth + 1);
      LevelAt(depth);
      SoundLift(DecoderAt(depth), DecoderAt(depth + 1));
    } else {
      SoundBeyondCap(depth);
    }
  }

  /** Texts are UTF-8, numbers fit their types, maps are sorted: the value can be encoded again. */
  lemma DecodedIsValid(buf: Bytes, depth: nat)
    requires |buf| < LIMIT && DecodeValue(buf, depth).Some?
    ensures Valid(DecodeValue(buf, depth).value.value)
  {
    DecoderSound(depth);
  }
}
