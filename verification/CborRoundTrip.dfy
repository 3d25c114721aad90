/** What the decoder makes of `json_to_cbor` output: an exact account, for every value and suffix. */
module CborRoundTrip {
  import opened Basics
  import opened Text
  import opened Json
  import opened Cbor
  import opened CborReads

  // --- json_to_cbor (src/fabric.rs) ---

  function ToCbor(v: Json): Bytes
    requires Valid(v)
  {
    match v
    case Null => Head(7, 22)
    case Bool(flag) => Head(7, if flag then 20 else 19)
    case UInt(n) => UintItem(n)
    case Neg(_) => UintItem(0)
    case Str(t) => TextItem(t)
    case Arr(items) => Head(4, |items|) + Concat(ItemPieces(items))
    case Obj(fields) => Head(5, Count(fields)) + Concat(FieldPieces(fields))
  }

  function ItemPieces(items: seq<Json>): (es: seq<Bytes>)
    requires AllValid(items)
    ensures |es| == |items|
  {
    if items == [] then [] else [ToCbor(items[0])] + ItemPieces(items[1..])
  }

  /** Keys and values in turn. */
  function FieldPieces(fs: Fields): (es: seq<Bytes>)
    requires FieldsValid(fs)
    ensures |es| == 2 * Count(fs)
  {
    if fs.Empty? then [] else [TextItem(fs.key), ToCbor(fs.value)] + FieldPieces(fs.rest)
  }

  // --- What comes back ---

  /** The value a receiver decodes: `true` reads as false, `false` as null, negatives as 0. */
  function Wire(v: Json): Json {
    match v
    case Bool(flag) => if flag then Bool(false) else Null
    case Neg(_) => UInt(0)
    case Arr(items) => Arr(WireItems(items))
    case Obj(fields) => Obj(WireFields(fields))
    case _ => v
  }

  function WireItems(items: seq<Json>): seq<Json> {
    if items == [] then [] else [Wire(items[0])] + WireItems(items[1..])
  }

  function WireFields(fs: Fields): Fields {
    if fs.Empty? then Empty else Entry(fs.key, Wire(fs.value), WireFields(fs.rest))
  }

  /** `v` nests no deeper than the cap when its decode starts at `depth`. */
  predicate Fits(v: Json, depth: nat) {
    depth <= MAX_DEPTH &&
    match v
    case Arr(items) => ItemsFit(items, depth + 1)
    case Obj(fields) => FieldsFit(fields, depth + 1)
    case _ => true
  }

  predicate ItemsFit(items: seq<Json>, depth: nat) {
    items == [] || (Fits(items[0], depth) && ItemsFit(items[1..], depth))
  }

  predicate FieldsFit(fs: Fields, depth: nat) {
    fs.Empty? || (depth <= MAX_DEPTH && Fits(fs.value, depth) && FieldsFit(fs.rest, depth))
  }

  /** What a decode at `depth` makes of `v`. */
  function Received(v: Json, depth: nat): Option<Json> {
    if Fits(v, depth) then Some(Wire(v)) else None
  }

  function ItemsReceived(items: seq<Json>, depth: nat): (os: seq<Option<Json>>)
    ensures |os| == |items|
  {
    if items == [] then [] else [Received(items[0], depth)] + ItemsReceived(items[1..], depth)
  }

  function FieldsReceived(fs: Fields, depth: nat): (os: seq<Option<Json>>)
    ensures |os| == 2 * Count(fs)
  {
    if fs.Empty? then []
    else [Received(Str(fs.key), depth), Received(fs.value, depth)] + FieldsReceived(fs.rest, depth)
  }

  lemma {:induction false} ItemsSequence(items: seq<Json>, depth: nat)
    ensures Sequence(ItemsReceived(items, depth)) ==
            if ItemsFit(items, depth) then Some(WireItems(items)) else None
  {
    if items != [] {
      ItemsSequence(items[1..], depth);
      assert ItemsReceived(items, depth)[1..] == ItemsReceived(items[1..], depth);
    }
  }

  /** Keys and decoded values in turn. */
  function Flat(fs: Fields): seq<Json> {
    if fs.Empty? then [] else [Str(fs.key), Wire(fs.value)] + Flat(fs.rest)
  }

  lemma {:induction false} FieldsSequence(fs: Fields, depth: nat)
    ensures Sequence(FieldsReceived(fs, depth)) == if FieldsFit(fs, depth) then Some(Flat(fs)) else None
  {
    if fs.Entry? {
      FieldsSequence(fs.rest, depth);
      var rest := FieldsReceived(fs.rest, depth);
      var k, v := Received(Str(fs.key), depth), Received(fs.value, depth);
      assert FieldsReceived(fs, depth) == [k, v] + rest;
      SequencePair(k, v, rest);
    }
  }

  lemma SequencePair(a: Option<Json>, b: Option<Json>, os: seq<Option<Json>>)
    ensures Sequence([a, b] + os) ==
            if a.Some? && b.Some? && Sequence(os).Some? then Some([a.value, b.value] + Sequence(os).value) else None
  {
    var all := [a, b] + os;
    assert all[1..] == [b] + os;
    assert all[1..][1..] == os;
    assert Sequence(all[1..]) == if b.Some? && Sequence(os).Some? then Some([b.value] + Sequence(os).value) else None;
    if Sequence(os).Some? && a.Some? && b.Some? {
      assert [a.value] + ([b.value] + Sequence(os).value) == [a.value, b.value] + Sequence(os).value;
    }
  }

  /** Sorted keys arrive in order, so every insertion lands at the end. */
  lemma {:induction false} CollectFlat(m: Fields, fs: Fields)
    requires Sorted(fs) && (fs.Entry? ==> KeysBelow(m, fs.key))
    ensures Collect(m, Flat(fs)) == Append(m, WireFields(fs))
    decreases fs
  {
    if fs.Empty? {
      AppendEmpty(m);
    } else {
      var v := Wire(fs.value);
      InsertLast(m, fs.key, v);
      var m' := Append(m, Entry(fs.key, v, Empty));
      if fs.rest.Entry? {
        KeysBelowAppend(m, fs.key, v, fs.rest.key);
      }
      CollectFlat(m', fs.rest);
      assert Flat(fs)[2..] == Flat(fs.rest);
      AppendAssociative(m, Entry(fs.key, v, Empty), WireFields(fs.rest));
    }
  }

  // --- The exact outcome for every value ---

  lemma NothingReadsBeyondCap(e: Bytes, depth: nat)
    requires depth > MAX_DEPTH
    ensures Reads(DecoderAt(depth), e, None)
  {
    forall t: Bytes ensures DecoderAt(depth)(e + t) == None {
      NothingBeyondCap(depth);
    }
  }

  lemma ArrayReads(items: seq<Json>, depth: nat)
    requires Valid(Arr(items)) && depth <= MAX_DEPTH
    requires AllRead(DecoderAt(depth + 1), ItemPieces(items), ItemsReceived(items, depth + 1))
    ensures Reads(DecoderAt(depth), ToCbor(Arr(items)), Received(Arr(items), depth))
  {
    assert Container(4, ItemsReceived(items, depth + 1)) == Received(Arr(items), depth) by {
      ItemsSequence(items, depth + 1);
    }
    LevelAt(depth);
    ContainerReads(DecoderAt(depth), DecoderAt(depth + 1), 4, |items|,
                   ItemPieces(items), ItemsReceived(items, depth + 1));
  }

  lemma ObjectReads(fs: Fields, depth: nat)
    requires Valid(Obj(fs)) && depth <= MAX_DEPTH
    requires AllRead(DecoderAt(depth + 1), FieldPieces(fs), FieldsReceived(fs, depth + 1))
    ensures Reads(DecoderAt(depth), ToCbor(Obj(fs)), Received(Obj(fs), depth))
  {
    FieldsContainer(fs, depth);
    LevelAt(depth);
    ContainerReads(DecoderAt(depth), DecoderAt(depth + 1), 5, Count(fs),
                   FieldPieces(fs), FieldsReceived(fs, depth + 1));
  }

  lemma FieldsContainer(fs: Fields, depth: nat)
    requires Sorted(fs) && depth <= MAX_DEPTH
    ensures Container(5, FieldsReceived(fs, depth + 1)) == Received(Obj(fs), depth)
  {
    FieldsSequence(fs, depth + 1);
    CollectFlat(Empty, fs);
  }

  /** Decoding an encoded value, followed by anything at all, from any depth. */
  lemma {:induction false} ValueReads(v: Json, depth: nat)
    requires Valid(v)
    ensures Reads(DecoderAt(depth), ToCbor(v), Received(v, depth))
    decreases v
  {
    if depth > MAX_DEPTH {
      NothingReadsBeyondCap(ToCbor(v), depth);
    } else {
      match v
      case Arr(items) =>
        ItemsRead(items, depth + 1);
        ArrayReads(items, depth);
      case Obj(fields) =>
        FieldsRead(fields, depth + 1);
        ObjectReads(fields, depth);
      case _ => ScalarReads(v, depth);
    }
  }

  lemma ScalarReads(v: Json, depth: nat)
    requires Valid(v) && !v.Arr? && !v.Obj? && depth <= MAX_DEPTH
    ensures Reads(DecoderAt(depth), ToCbor(v), Received(v, depth))
  {
    LevelAt(depth);
    var dec, child := DecoderAt(depth), DecoderAt(depth + 1);
    match v
    case Str(text) => TextReads(dec, child, text);
    case UInt(n) => UintReads(dec, child, n);
    case Neg(_) => UintReads(dec, child, 0);
    case Bool(flag) => SimpleReads(dec, child, if flag then 20 else 19);
    case Null => SimpleReads(dec, child, 22);
  }

  lemma {:induction false} ItemsRead(items: seq<Json>, depth: nat)
    requires AllValid(items)
    ensures AllRead(DecoderAt(depth), ItemPieces(items), ItemsReceived(items, depth))
    decreases items
  {
    if items != [] {
      ValueReads(items[0], depth);
      ItemsRead(items[1..], depth);
      AllReadCons(DecoderAt(depth), ToCbor(items[0]), Received(items[0], depth),
                  ItemPieces(items[1..]), ItemsReceived(items[1..], depth));
    }
  }

  lemma KeyReads(key: Bytes, depth: nat)
    requires ValidText(key)
    ensures Reads(DecoderAt(depth), TextItem(key), Received(Str(key), depth))
  {
    hide DecoderAt, Reads, IsLevel, TextItem, ValidUtf8;
    if depth > MAX_DEPTH {
      NothingReadsBeyondCap(TextItem(key), depth);
    } else {
      LevelAt(depth);
      TextReads(DecoderAt(depth), DecoderAt(depth + 1), key);
    }
  }

  lemma {:induction false} FieldsRead(fs: Fields, depth: nat)
    requires FieldsValid(fs)
    ensures AllRead(DecoderAt(depth), FieldPieces(fs), FieldsReceived(fs, depth))
    decreases fs
  {
    if fs.Entry? {
      KeyReads(fs.key, depth);
      ValueReads(fs.value, depth);
      FieldsRead(fs.rest, depth);
      PairReadCons(DecoderAt(depth), TextItem(fs.key), Received(Str(fs.key), depth),
                   ToCbor(fs.value), Received(fs.value, depth),
                   FieldPieces(fs.rest), FieldsReceived(fs.rest, depth));
    }
  }

  lemma PairReadCons(dec: ItemDecoder, e1: Bytes, o1: Option<Json>, e2: Bytes, o2: Option<Json>,
                     es: seq<Bytes>, os: seq<Option<Json>>)
    requires Reads(dec, e1, o1) && Reads(dec, e2, o2) && AllRead(dec, es, os)
    ensures AllRead(dec, [e1, e2] + es, [o1, o2] + os)
  {
    AllReadCons(dec, e2, o2, es, os);
    AllReadCons(dec, e1, o1, [e2] + es, [o2] + os);
    assert [e1, e2] + es == [e1] + ([e2] + es);
    assert [o1, o2] + os == [o1] + ([o2] + os);
  }

  // --- Which values survive ---

  /** No booleans and no negative numbers anywhere. */
  predicate Plain(v: Json) {
    match v
    case Bool(_) => false
    case Neg(_) => false
    case Arr(items) => PlainItems(items)
    case Obj(fields) => PlainFields(fields)
    case _ => true
  }

  predicate PlainItems(items: seq<Json>) {
    items == [] || (Plain(items[0]) && PlainItems(items[1..]))
  }

  predicate PlainFields(fs: Fields) {
    fs.Empty? || (Plain(fs.value) && PlainFields(fs.rest))
  }

  lemma {:induction false} WireIsIdentity(v: Json)
    ensures Wire(v) == v <==> Plain(v)
    decreases v
  {
    match v
    case Arr(items) => WireItemsIdentity(items);
    case Obj(fields) => WireFieldsIdentity(fields);
    case _ =>
  }

  lemma {:induction false} WireItemsIdentity(items: seq<Json>)
    ensures WireItems(items) == items <==> PlainItems(items)
    decreases items
  {
    if items != [] {
      WireIsIdentity(items[0]);
      WireItemsIdentity(items[1..]);
      assert items == [items[0]] + items[1..];
      assert WireItems(items)[1..] == WireItems(items[1..]);
    }
  }

  lemma {:induction false} WireFieldsIdentity(fs: Fields)
    ensures WireFields(fs) == fs <==> PlainFields(fs)
    decreases fs
  {
    if fs.Entry? {
      WireIsIdentity(fs.value);
      WireFieldsIdentity(fs.rest);
    }
  }

  /**
   * The round trip, exactly: an encoded value comes back unchanged from `depth`, whatever
   * follows it, if and only if it holds no boolean and no negative number and nests within the cap.
   */
  lemma RoundTripExactly(v: Json, depth: nat, t: Bytes)
    requires Valid(v)
    ensures DecodeValue(ToCbor(v) + t, depth) == Some(Decoded(v, |ToCbor(v)|))
            <==> Plain(v) && Fits(v, depth)
  {
    ValueReads(v, depth);
    assert DecoderAt(depth)(ToCbor(v) + t) == Outcome(Received(v, depth), |ToCbor(v)|);
    WireIsIdentity(v);
  }

  // --- The answers of the relay verbs over rpc2 ---

  /** run_fput answers {"queued": true}; an rpc2 client decodes {"queued": false}. */
  lemma QueuedAnswerFlips(t: Bytes)
    ensures Valid(QueuedAnswer(true))
    ensures DecodeValue(ToCbor(QueuedAnswer(true)) + t, 0) ==
            Some(Decoded(QueuedAnswer(false), |ToCbor(QueuedAnswer(true))|))
  {
    AsciiIsUtf8(Ascii("queued"));
    SingletonReads(Ascii("queued"), Bool(true), t);
  }

  lemma SingletonReads(key: Bytes, v: Json, t: Bytes)
    requires ValidText(key) && Valid(v) && Fits(v, 1)
    ensures Valid(Obj(Entry(key, v, Empty)))
    ensures DecodeValue(ToCbor(Obj(Entry(key, v, Empty))) + t, 0) ==
            Some(Decoded(Obj(Entry(key, Wire(v), Empty)), |ToCbor(Obj(Entry(key, v, Empty)))|))
  {
    var fs := Entry(key, v, Empty);
    assert fs.rest == Empty && Count(fs.rest) == 0 && FieldsValid(fs.rest);
    assert Count(fs) == 1 && FieldsValid(fs) && Sorted(fs);
    assert FieldsFit(fs.rest, 1) && WireFields(fs.rest) == Empty;
    assert FieldsFit(fs, 1);
    assert WireFields(fs) == Entry(key, Wire(v), Empty);
    ValueReads(Obj(fs), 0);
    assert Received(Obj(fs), 0) == Some(Obj(Entry(key, Wire(v), Empty)));
    assert DecoderAt(0)(ToCbor(Obj(fs)) + t) == Outcome(Received(Obj(fs), 0), |ToCbor(Obj(fs))|);
  }
}
