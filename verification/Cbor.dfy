/** The CBOR subset of src/p2p.rs: heads, text, byte strings, arrays and maps. */
module Cbor {
  import opened Basics
  import opened Text
  import opened Json

  /** A decoded item and the number of bytes it used. */
  datatype Decoded = Decoded(value: Json, used: nat)

  /** The decoded initial byte and argument of an item; `pos` bytes long. */
  datatype ItemHead = ItemHead(major: nat, info: nat, n: nat, pos: nat)

  const MAX_DEPTH: nat := 64

  // --- Encoders ---

  /** cbor::head: the shortest of the five widths. */
  function Head(major: nat, n: nat): (r: Bytes)
    requires major < 8 && n < TWO_64
    ensures 1 <= |r| <= 9
  {
    if n < 24 then [32 * major + n]
    else if n <= 0xff then [32 * major + 24] + BigEndian(n, 1)
    else if n <= 0xffff then [32 * major + 25] + BigEndian(n, 2)
    else if n <= 0xffff_ffff then [32 * major + 26] + BigEndian(n, 4)
    else [32 * major + 27] + BigEndian(n, 8)
  }

  function TextItem(s: Bytes): Bytes
    requires |s| < TWO_64
  {
    Head(3, |s|) + s
  }

  function BytesItem(b: Bytes): Bytes
    requires |b| < TWO_64
  {
    Head(2, |b|) + b
  }

  function UintItem(n: nat): Bytes
    requires n < TWO_64
  {
    Head(0, n)
  }

  // --- The decoder ---

  /** The initial byte and its argument; None on truncation and on infos 28..=31. */
  function ReadHead(buf: Bytes): (r: Option<ItemHead>)
    ensures r.Some? ==> r.value.major < 8 && 1 <= r.value.pos <= |buf| && r.value.pos <= 9
  {
    if buf == [] then None else
    var major := buf[0] / 32;
    var info := buf[0] % 32;
    if info < 24 then Some(ItemHead(major, info, info, 1))
    else if info > 27 then None
    else
      var width := if info == 24 then 1 else if info == 25 then 2 else if info == 26 then 4 else 8;
      if |buf| < 1 + width then None
      else Some(ItemHead(major, info, FromBigEndian(buf[1..1 + width]), 1 + width))
  }

  /** Decoders of one item: they use at least one byte and never more than there are. */
  type ItemDecoder = f: Bytes -> Option<Decoded> |
    forall b :: f(b).Some? ==> 1 <= f(b).value.used <= |b|
    witness (b: Bytes) => None

  function LevelsLeft(depth: nat): nat {
    if depth > MAX_DEPTH then 0 else MAX_DEPTH + 1 - depth
  }

  /**
   * decode_value at one depth. The end of a string is compared without a wrap: `checked_add`
   * fails only for ends beyond every slice Rust can hold, and the bounds test refuses those too.
   */
  function DecoderAt(depth: nat): ItemDecoder
    decreases LevelsLeft(depth)
  {
    if depth > MAX_DEPTH then (b: Bytes) => None
    else
      var child := DecoderAt(depth + 1);
      (b: Bytes) => DecodeWith(child, b)
  }

  function DecodeValue(buf: Bytes, depth: nat): (r: Option<Decoded>)
    ensures r.Some? ==> 1 <= r.value.used <= |buf|
  {
    DecoderAt(depth)(buf)
  }

  lemma NothingBeyondCap(depth: nat)
    requires depth > MAX_DEPTH
    ensures forall b :: DecoderAt(depth)(b) == None
  {
  }

  lemma LevelAt(depth: nat)
    requires depth <= MAX_DEPTH
    ensures IsLevel(DecoderAt(depth), DecoderAt(depth + 1))
  {
  }

  lemma DecodeValueStep(buf: Bytes, depth: nat)
    ensures DecodeValue(buf, depth) ==
            if depth > MAX_DEPTH then None else DecodeWith(DecoderAt(depth + 1), buf)
  {
  }

  /** `dec` is one call of decode_value whose children are decoded by `child`. */
  ghost predicate IsLevel(dec: ItemDecoder, child: ItemDecoder) {
    forall b :: dec(b) == DecodeWith(child, b)
  }

  /** One call of decode_value below the depth cap; `child` decodes at the next depth. */
  function DecodeWith(child: ItemDecoder, buf: Bytes): (r: Option<Decoded>)
    ensures r.Some? ==> 1 <= r.value.used <= |buf|
  {
    match ReadHead(buf)
    case None => None
    case Some(h) => DecodeBody(child, buf, h)
  }

  /** The rest of the item whose head `h` was read from the front of `buf`. */
  function DecodeBody(child: ItemDecoder, buf: Bytes, h: ItemHead): (r: Option<Decoded>)
    requires h.major < 8 && 1 <= h.pos <= |buf|
    ensures r.Some? ==> h.pos <= r.value.used <= |buf|
  {
    if h.major == 4 then
      match DecodeItems(child, buf[h.pos..], h.n)
      case None => None
      case Some((items, used)) => Some(Decoded(Arr(items), h.pos + used))
    else if h.major == 5 then
      match DecodeItems(child, buf[h.pos..], 2 * h.n)
      case None => None
      case Some((items, used)) => Some(Decoded(Obj(Collect(Empty, items)), h.pos + used))
    else DecodeScalar(buf, h)
  }

  /** Every major type but arrays and maps. */
  function DecodeScalar(buf: Bytes, h: ItemHead): (r: Option<Decoded>)
    requires h.major < 8 && h.major != 4 && h.major != 5 && 1 <= h.pos <= |buf|
    ensures r.Some? ==> h.pos <= r.value.used <= |buf|
  {
    if h.major == 0 then Some(Decoded(UInt(h.n), h.pos))
    else if h.major == 1 then
      if -1 - h.n < -TWO_63 then None else Some(Decoded(Neg(-1 - h.n), h.pos))
    else if h.major == 2 || h.major == 3 then
      var end := h.pos + h.n;
      if end > |buf| then None else
      var b := buf[h.pos..end];
      if h.major == 2 then Some(Decoded(Str(HexEncode(b)), end))
      else if ValidUtf8(b) then Some(Decoded(Str(b), end))
      else None
    else if h.major == 7 && h.info == 20 then Some(Decoded(Bool(false), h.pos))
    else if h.major == 7 && h.info == 21 then Some(Decoded(Bool(true), h.pos))
    else Some(Decoded(Null, h.pos))
  }

  /** `n` consecutive items, and the bytes they use together. */
  function DecodeItems(dec: ItemDecoder, buf: Bytes, n: nat): (r: Option<(seq<Json>, nat)>)
    ensures r.Some? ==> n <= r.value.1 <= |buf| && |r.value.0| == n
    decreases n
  {
    if n == 0 then Some(([], 0)) else
    match dec(buf)
    case None => None
    case Some(d) =>
      match DecodeItems(dec, buf[d.used..], n - 1)
      case None => None
      case Some((rest, used)) => Some(([d.value] + rest, d.used + used))
  }

  /** The map after a pair: a key that is not text is dropped together with its value. */
  function InsertPair(m: Fields, k: Json, v: Json): Fields {
    if k.Str? then Insert(m, k.text, v) else m
  }

  /** `m` after the insertion of alternating keys and values, in order. */
  function Collect(m: Fields, items: seq<Json>): Fields
    decreases |items|
  {
    if |items| < 2 then m else Collect(InsertPair(m, items[0], items[1]), items[2..])
  }
}
