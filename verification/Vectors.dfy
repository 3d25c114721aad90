/** Frames of the protocol byte by byte, and what single bytes decode to: the encodings that both sides must share. */
module Vectors {
  import opened Basics
  import opened Text
  import opened Json
  import opened Cbor
  import opened CborReads
  import opened CborRoundTrip
  import opened Message
  import opened Builders
  import opened Frames

  // --- Numbers ---

  lemma ByteStep(a: Byte, n: nat, k: nat)
    ensures LittleEndian(a + 0x100 * n, k + 1) == [a] + LittleEndian(n, k)
    ensures BigEndian(a + 0x100 * n, k + 1) == BigEndian(n, k) + [a]
  {
    assert (a + 0x100 * n) % 0x100 == a && (a + 0x100 * n) / 0x100 == n;
  }

  /** The least significant byte comes first in one form, last in the other. */
  lemma EndianBytes(a: Byte, b: Byte, c: Byte, d: Byte)
    ensures LittleEndian(a + 0x100 * (b + 0x100 * (c + 0x100 * d)), 4) == [a, b, c, d]
    ensures BigEndian(a + 0x100 * (b + 0x100 * (c + 0x100 * d)), 4) == [d, c, b, a]
    ensures BigEndian(a + 0x100 * b, 2) == [b, a] && BigEndian(a, 1) == [a]
  {
    hide LittleEndian, BigEndian;
    var n1: nat := c + 0x100 * d;
    var n2: nat := b + 0x100 * n1;
    NoBytes();
    ByteStep(d, 0, 0);
    ByteStep(c, d, 1);
    ByteStep(b, n1, 2);
    ByteStep(a, n2, 3);
    ByteStep(b, 0, 0);
    ByteStep(a, b, 1);
    ByteStep(a, 0, 0);
  }

  lemma NoBytes()
    ensures LittleEndian(0, 0) == [] && BigEndian(0, 0) == []
  {
  }

  /** A head takes 1, 2, 3, 5 or 9 bytes, the fewest that hold its number, most significant first. */
  lemma HeadBytes(major: nat, a: Byte, b: Byte, c: Byte, d: Byte, n: nat)
    requires major < 8 && 0x1_0000_0000 <= n < TWO_64
    ensures a < 24 ==> Head(major, a) == [0x20 * major + a]
    ensures 24 <= a ==> Head(major, a) == [0x20 * major + 24, a]
    ensures 0 < b ==> Head(major, a + 0x100 * b) == [0x20 * major + 25, b, a]
    ensures 0 < c + d ==>
            Head(major, a + 0x100 * (b + 0x100 * (c + 0x100 * d))) == [0x20 * major + 26, d, c, b, a]
    ensures Head(major, n) == [0x20 * major + 27] + BigEndian(n, 8)
  {
    hide BigEndian;
    EndianBytes(a, b, c, d);
  }

  // --- The four requests and a refusal ---

  /** "Peer.Handshake", "Peer.Chain", "Peer.GetObject", "Peer.PutObject". */
  const HANDSHAKE: Bytes := [80, 101, 101, 114, 46, 72, 97, 110, 100, 115, 104, 97, 107, 101]
  const CHAIN: Bytes := [80, 101, 101, 114, 46, 67, 104, 97, 105, 110]
  const GET_OBJECT: Bytes := [80, 101, 101, 114, 46, 71, 101, 116, 79, 98, 106, 101, 99, 116]
  const PUT_OBJECT: Bytes := [80, 101, 101, 114, 46, 80, 117, 116, 79, 98, 106, 101, 99, 116]

  lemma MethodBytes()
    ensures Ascii("Peer.Handshake") == HANDSHAKE && Ascii("Peer.Chain") == CHAIN
    ensures Ascii("Peer.GetObject") == GET_OBJECT && Ascii("Peer.PutObject") == PUT_OBJECT
  {
    LedgerMethods();
    ObjectMethods();
    hide Ascii;
  }

  lemma LedgerMethods()
    ensures Ascii("Peer.Handshake") == HANDSHAKE && Ascii("Peer.Chain") == CHAIN
  {
  }

  lemma ObjectMethods()
    ensures Ascii("Peer.GetObject") == GET_OBJECT && Ascii("Peer.PutObject") == PUT_OBJECT
  {
  }

  lemma KeyBytes()
    ensures Ascii("M") == [0x4D] && Ascii("S") == [0x53] && Ascii("E") == [0x45] && Ascii("N") == [0x4E]
    ensures Ascii("H") == [0x48] && Ascii("TOP") == [0x54, 0x4F, 0x50]
    ensures Ascii("BLID") == [0x42, 0x4C, 0x49, 0x44] && Ascii("BODY") == [0x42, 0x4F, 0x44, 0x59]
    ensures Ascii("TOKEN") == [0x54, 0x4F, 0x4B, 0x45, 0x4E]
  {
  }

  lemma Flatten(a: Bytes, b: Bytes, c: Bytes, d: Bytes)
    ensures a + (b + c) + d == a + b + (c + d)
    ensures a + (b + c) == a + b + c
  {
  }

  lemma KeyItem(key: string, c: Byte, item: Bytes)
    requires Ascii(key) == [c]
    ensures Kv(key, item) == [0x61, c] + item
  {
    SmallHead(3, 1);
    hide Head, Ascii;
    assert [0x61] + [c] == [0x61, c];
  }

  /** A message: the header map {M, S, E}, then the payload. */
  lemma MessageBytes(methodName: Bytes, seqNo: nat, error: Bytes, body: Bytes)
    requires |methodName| < TWO_64 && seqNo < TWO_64 && |error| < TWO_64
    ensures EncodeMessage(methodName, seqNo, error, body) ==
            [0xA3, 0x61, 0x4D] + TextItem(methodName) + [0x61, 0x53] + UintItem(seqNo) + [0x61, 0x45] + TextItem(error)
              + body
  {
    KeyBytes();
    SmallHead(5, 3);
    KeyItem("M", 0x4D, TextItem(methodName));
    KeyItem("S", 0x53, UintItem(seqNo));
    KeyItem("E", 0x45, TextItem(error));
    hide Head, Ascii, Kv, TextItem, UintItem;
    var m, n, e := TextItem(methodName), UintItem(seqNo), TextItem(error);
    Flatten([0xA3], [0x61, 0x4D], m, []);
    assert [0xA3] + [0x61, 0x4D] == [0xA3, 0x61, 0x4D];
    Flatten([0xA3, 0x61, 0x4D] + m, [0x61, 0x53], n, []);
    Flatten([0xA3, 0x61, 0x4D] + m + [0x61, 0x53] + n, [0x61, 0x45], e, []);
  }

  /** What a client sends first: method Peer.Handshake, number 1, no error, then {"N": 1}. */
  const HELLO: Bytes :=
    [0xA3, 0x61, 0x4D] + ([0x6E] + HANDSHAKE) + [0x61, 0x53] + [0x01] + [0x61, 0x45] + [0x60]
      + [0xA1, 0x61, 0x4E, 0x01]

  /** And second: method Peer.Chain, number 2, then {"TOP": 0, "N": 5000}. */
  const LIST: Bytes :=
    [0xA3, 0x61, 0x4D] + ([0x6A] + CHAIN) + [0x61, 0x53] + [0x02] + [0x61, 0x45] + [0x60]
      + [0xA2, 0x63, 0x54, 0x4F, 0x50, 0x00, 0x61, 0x4E, 0x19, 0x13, 0x88]

  lemma SmallHead(major: nat, n: nat)
    requires major < 8 && n < 24
    ensures Head(major, n) == [0x20 * major + n]
  {
  }

  lemma NoError()
    ensures TextItem([]) == [0x60]
  {
    SmallHead(3, 0);
  }

  lemma HelloPayload()
    ensures HandshakeRequest(1) == [0xA1, 0x61, 0x4E, 0x01]
  {
    KeyBytes();
    SmallHead(5, 1);
    SmallHead(3, 1);
    SmallHead(0, 1);
    hide Head, Ascii;
  }

  lemma ListPayload()
    ensures ChainRequest(0, 5000) == [0xA2, 0x63, 0x54, 0x4F, 0x50, 0x00, 0x61, 0x4E, 0x19, 0x13, 0x88]
  {
    KeyBytes();
    SmallHead(5, 2);
    SmallHead(3, 1);
    SmallHead(3, 3);
    SmallHead(0, 0);
    HeadBytes(0, 0x88, 0x13, 0, 0, 0x1_0000_0000);
    hide Head, Ascii;
  }

  lemma ShortMessage(name: Bytes, seqNo: nat, body: Bytes)
    requires |name| < 24 && seqNo < 24
    ensures EncodeMessage(name, seqNo, [], body) ==
            [0xA3, 0x61, 0x4D] + ([0x60 + |name|] + name) + [0x61, 0x53] + [seqNo] + [0x61, 0x45] + [0x60] + body
  {
    NoError();
    SmallHead(3, |name|);
    SmallHead(0, seqNo);
    MessageBytes(name, seqNo, [], body);
    hide Head, EncodeMessage;
  }

  /** The two requests that open every stream. */
  lemma OpeningBytes()
    ensures EncodeMessage(Ascii("Peer.Handshake"), 1, [], HandshakeRequest(1)) == HELLO
    ensures EncodeMessage(Ascii("Peer.Chain"), 2, [], ChainRequest(0, 5000)) == LIST
  {
    MethodBytes();
    HelloPayload();
    ListPayload();
    hide Ascii, EncodeMessage, HandshakeRequest, ChainRequest;
    ShortMessage(HANDSHAKE, 1, HandshakeRequest(1));
    ShortMessage(CHAIN, 2, ChainRequest(0, 5000));
  }

  /** A refusal: no method, the number of the request, the text, and nothing after the header. */
  lemma RefusalBytes(seqNo: nat, error: Bytes)
    requires seqNo < TWO_64 && |error| < TWO_64
    ensures ErrorResponse(seqNo, error) ==
            [0xA3, 0x61, 0x4D, 0x60, 0x61, 0x53] + Head(0, seqNo) + [0x61, 0x45] + Head(3, |error|) + error
  {
    NoError();
    MessageBytes([], seqNo, error, []);
    hide Head, EncodeMessage;
    Flatten([0xA3, 0x61, 0x4D, 0x60, 0x61, 0x53] + Head(0, seqNo) + [0x61, 0x45], Head(3, |error|), error, []);
    assert [0xA3, 0x61, 0x4D] + [0x60] + [0x61, 0x53] == [0xA3, 0x61, 0x4D, 0x60, 0x61, 0x53];
  }

  /** One block id: the request of GetObject and the answer to PutObject. */
  lemma IdBytes(d: Digest)
    ensures BlidMap(d) == [0xA1, 0x64, 0x42, 0x4C, 0x49, 0x44, 0x58, 0x20] + d
  {
    KeyBytes();
    SmallHead(5, 1);
    SmallHead(3, 4);
    HeadBytes(2, 32, 0, 0, 0, 0x1_0000_0000);
    hide Head, Ascii;
  }

  lemma MemberBytes(key: string, k: Bytes, item: Bytes)
    requires Ascii(key) == k && |k| < 24
    ensures Kv(key, item) == [0x60 + |k|] + k + item
  {
    SmallHead(3, |k|);
    hide Head, Ascii;
  }

  /** The payload of PutObject: two members, or three with a token. */
  lemma PutBytes(d: Digest, body: Bytes, token: Bytes)
    requires |body| < TWO_64 && |token| < TWO_64
    ensures var blid, content := [0x64] + [0x42, 0x4C, 0x49, 0x44] + BytesItem(d),
                                 [0x64] + [0x42, 0x4F, 0x44, 0x59] + BytesItem(body);
            PutObjectRequest(d, body, token) ==
            if token == [] then [0xA2] + blid + content
            else [0xA3] + blid + content + ([0x65] + [0x54, 0x4F, 0x4B, 0x45, 0x4E] + TextItem(token))
  {
    KeyBytes();
    SmallHead(5, 2);
    SmallHead(5, 3);
    MemberBytes("BLID", [0x42, 0x4C, 0x49, 0x44], BytesItem(d));
    MemberBytes("BODY", [0x42, 0x4F, 0x44, 0x59], BytesItem(body));
    MemberBytes("TOKEN", [0x54, 0x4F, 0x4B, 0x45, 0x4E], TextItem(token));
    hide Head, Ascii, BytesItem, TextItem, Kv;
    assert forall b: Bytes :: b + [] == b;
  }

  // --- What single items decode to, by their bytes ---

  /** How many argument bytes follow an initial byte. */
  function ArgWidth(info: nat): (w: nat)
    requires info < 28
  {
    if info < 24 then 0 else if info == 24 then 1 else if info == 25 then 2 else if info == 26 then 4 else 8
  }

  /** The number that an initial byte and its argument bytes, most significant first, stand for. */
  function Arg(info: nat, arg: Bytes): nat {
    if info < 24 then info else FromBigEndian(arg)
  }

  lemma HeadOf(major: nat, info: nat, arg: Bytes, t: Bytes)
    requires major < 8 && info < 28 && |arg| == ArgWidth(info)
    ensures ReadHead([0x20 * major + info] + arg + t) ==
            Some(ItemHead(major, info, Arg(info, arg), 1 + |arg|))
  {
    hide FromBigEndian;
    var buf := [0x20 * major + info] + arg + t;
    assert buf[0] == 0x20 * major + info && buf[0] / 0x20 == major && buf[0] % 0x20 == info;
    assert buf[1..1 + |arg|] == arg;
  }

  /**
   * Every scalar, with an argument of any width: unsigned numbers up to 2^64 - 1, negative ones down to -2^63,
   * a tag as null, false and true in one byte each, every other simple value and every float as null.
   */
  lemma ScalarBytes(major: nat, info: nat, arg: Bytes, t: Bytes, depth: nat)
    requires major in {0, 1, 6, 7} && info < 28 && |arg| == ArgWidth(info) && depth <= 64
    ensures var n := Arg(info, arg);
            DecodeValue([0x20 * major + info] + arg + t, depth) ==
            if major == 1 && n >= 0x8000_0000_0000_0000 then None
            else Some(Decoded(if major == 0 then UInt(n)
                              else if major == 1 then Neg(-1 - n)
                              else if major == 7 && info == 20 then Bool(false)
                              else if major == 7 && info == 21 then Bool(true)
                              else Null, 1 + |arg|))
  {
    hide ReadHead, DecoderAt, DecodeValue, Arg;
    HeadOf(major, info, arg, t);
    DecodeValueStep([0x20 * major + info] + arg + t, depth);
  }

  /** Text and byte strings, with a length of any width: texts must be UTF-8, bytes come back in hex. */
  lemma StringBytes(major: nat, info: nat, arg: Bytes, s: Bytes, t: Bytes, depth: nat)
    requires major in {2, 3} && info < 28 && |arg| == ArgWidth(info) && |s| == Arg(info, arg) && depth <= 64
    ensures DecodeValue([0x20 * major + info] + arg + s + t, depth) ==
            if major == 3 && !ValidUtf8(s) then None
            else Some(Decoded(Str(if major == 2 then HexEncode(s) else s), 1 + |arg| + |s|))
  {
    hide ReadHead, DecoderAt, DecodeValue, Arg, ValidUtf8, HexEncode;
    var buf := [0x20 * major + info] + arg + s + t;
    assert buf == [0x20 * major + info] + arg + (s + t);
    HeadOf(major, info, arg, s + t);
    DecodeValueStep(buf, depth);
    assert buf[1 + |arg|..1 + |arg| + |s|] == s;
  }

  /** The same outcome after heads of `a` and `b` bytes. */
  predicate SameAfter(r: Option<Decoded>, a: nat, q: Option<Decoded>, b: nat) {
    if q.None? then r.None? else r.Some? && r.value.value == q.value.value && r.value.used + b == q.value.used + a
  }

  lemma BodyShifts(child: ItemDecoder, a: Bytes, b: Bytes, t: Bytes, major: nat, i: nat, j: nat, n: nat)
    requires major < 7 && |a| >= 1 && |b| >= 1
    ensures SameAfter(DecodeBody(child, a + t, ItemHead(major, i, n, |a|)), |a|,
                      DecodeBody(child, b + t, ItemHead(major, j, n, |b|)), |b|)
  {
    if major == 4 || major == 5 {
      hide DecodeScalar, DecodeItems, Collect;
      assert (a + t)[|a|..] == t && (b + t)[|b|..] == t;
    } else {
      hide DecodeScalar, DecodeItems, Collect, SameAfter;
      ScalarShifts(a, b, t, major, i, j, n);
    }
  }

  lemma ScalarShifts(a: Bytes, b: Bytes, t: Bytes, major: nat, i: nat, j: nat, n: nat)
    requires major < 7 && major != 4 && major != 5 && |a| >= 1 && |b| >= 1
    ensures SameAfter(DecodeScalar(a + t, ItemHead(major, i, n, |a|)), |a|,
                      DecodeScalar(b + t, ItemHead(major, j, n, |b|)), |b|)
  {
    hide HexEncode, ValidUtf8;
    if major in {2, 3} && n <= |t| {
      assert (a + t)[|a|..|a| + n] == t[..n] && (b + t)[|b|..|b| + n] == t[..n];
    }
  }

  /** A number may be written wider than need be: item, length and what follows are read all the same. */
  lemma WidthIsIrrelevant(major: nat, info: nat, arg: Bytes, t: Bytes, depth: nat)
    requires major < 7 && info < 28 && |arg| == ArgWidth(info)
    ensures Arg(info, arg) < TWO_64
    ensures SameAfter(DecodeValue([0x20 * major + info] + arg + t, depth), 1 + |arg|,
                      DecodeValue(Head(major, Arg(info, arg)) + t, depth), |Head(major, Arg(info, arg))|)
  {
    hide DecodeValue, DecoderAt, ReadHead, FromBigEndian, Pow256, Head, DecodeBody;
    PowValues();
    FromBigEndianBound(arg);
    var n := Arg(info, arg);
    var a := [0x20 * major + info] + arg;
    HeadOf(major, info, arg, t);
    HeadReadsBefore(major, n, t);
    DecodeValueStep(a + t, depth);
    DecodeValueStep(Head(major, n) + t, depth);
    BodyShifts(DecoderAt(depth + 1), a, Head(major, n), t, major, info, HeadInfo(major, n).info, n);
  }

  /** Nothing is decoded from a reserved or indefinite length, a cut argument, or a string that is cut short. */
  lemma CutBytes(major: nat, info: nat, arg: Bytes, s: Bytes, depth: nat)
    requires major < 8 && info < 32
    ensures info >= 28 ==> DecodeValue([0x20 * major + info] + arg, depth) == None
    ensures info < 28 && |arg| < ArgWidth(info) ==> DecodeValue([0x20 * major + info] + arg, depth) == None
    ensures major in {2, 3} && info < 28 && |arg| == ArgWidth(info) && |s| < Arg(info, arg) ==>
            DecodeValue([0x20 * major + info] + arg + s, depth) == None
  {
    hide DecoderAt, DecodeValue, FromBigEndian, ValidUtf8, HexEncode;
    var buf := [0x20 * major + info] + arg;
    assert buf[0] == 0x20 * major + info && buf[0] / 0x20 == major && buf[0] % 0x20 == info;
    DecodeValueStep(buf, depth);
    DecodeValueStep(buf + s, depth);
    if info < 28 && |arg| == ArgWidth(info) {
      HeadOf(major, info, arg, s);
    }
  }

  /** A zero within `k` arrays of one item. */
  function Nested(k: nat): (b: Bytes)
    ensures |b| == k + 1
  {
    if k == 0 then [0x00] else [0x81] + Nested(k - 1)
  }

  /** Arrays within arrays decode down to 65 levels, and no deeper. */
  lemma {:induction false} NestingExactly(k: nat, depth: nat)
    requires depth <= 65
    ensures DecodeValue(Nested(k), depth).Some? <==> depth + k <= 64
    ensures depth + k <= 64 ==> DecodeValue(Nested(k), depth).value.used == k + 1
    decreases k
  {
    hide DecoderAt, DecodeValue, Nested;
    if depth == 65 {
      TooDeep(Nested(k));
    } else if k == 0 {
      ZeroReads(depth);
    } else {
      NestingExactly(k - 1, depth + 1);
      NestingStep(k, depth);
    }
  }

  lemma TooDeep(b: Bytes)
    ensures DecodeValue(b, 65) == None
  {
    DecodeValueStep(b, 65);
  }

  lemma ZeroReads(depth: nat)
    requires depth <= 64
    ensures DecodeValue(Nested(0), depth) == Some(Decoded(UInt(0), 1))
  {
    hide DecoderAt, DecodeValue;
    assert Nested(0) == [0x20 * 0 + 0] + [] + [];
    ScalarBytes(0, 0, [], [], depth);
  }

  lemma NestingStep(k: nat, depth: nat)
    requires k >= 1 && depth <= 64
    ensures DecodeValue(Nested(k), depth) ==
            match DecodeValue(Nested(k - 1), depth + 1)
            case None => None
            case Some(d) => Some(Decoded(Arr([d.value]), 1 + d.used))
  {
    var buf, rest := Nested(k), Nested(k - 1);
    assert buf == [0x81] + rest;
    hide Nested, DecoderAt;
    DecodeValueStep(buf, depth);
    OneItemArray(DecoderAt(depth + 1), rest);
  }

  lemma OneItemArray(child: ItemDecoder, rest: Bytes)
    ensures DecodeWith(child, [0x81] + rest) ==
            match child(rest) case None => None case Some(d) => Some(Decoded(Arr([d.value]), 1 + d.used))
  {
    var buf: Bytes := [0x81] + rest;
    assert buf[0] == 0x81 && buf[1..] == rest;
    assert ReadHead(buf) == Some(ItemHead(4, 1, 1, 1));
    hide ReadHead;
    OneItem(child, rest);
  }

  lemma OneItem(dec: ItemDecoder, buf: Bytes)
    ensures DecodeItems(dec, buf, 1) ==
            match dec(buf) case None => None case Some(d) => Some(([d.value], d.used))
  {
    var d := dec(buf);
    if d.Some? {
      assert DecodeItems(dec, buf[d.value.used..], 0) == Some(([], 0));
      assert [d.value.value] + [] == [d.value.value];
    }
  }

  // --- Maps and what is read from them ---

  /** The value of the last pair whose key is the text `k`; keys that are no texts count for nothing. */
  function LastOf(items: seq<Json>, k: Bytes): Option<Json>
    decreases |items|
  {
    if |items| < 2 then None
    else if LastOf(items[2..], k).Some? then LastOf(items[2..], k)
    else if items[0] == Str(k) then Some(items[1])
    else None
  }

  lemma {:induction false} CollectExactly(m: Fields, items: seq<Json>, k: Bytes)
    ensures Lookup(Collect(m, items), k) == if LastOf(items, k).Some? then LastOf(items, k) else Lookup(m, k)
    decreases |items|
  {
    hide Lookup, Insert;
    if |items| >= 2 {
      CollectExactly(InsertPair(m, items[0], items[1]), items[2..], k);
      if items[0].Str? {
        LookupInsert(m, items[0].text, items[1], k);
      }
    }
  }

  /** A map of items that are read one by one, as keys and values in turn, has under each text its last value. */
  lemma MapReads(depth: nat, n: nat, es: seq<Bytes>, items: seq<Json>, t: Bytes)
    requires depth < 64 && n < TWO_64 && |es| == |items| == 2 * n
    requires forall i :: 0 <= i < 2 * n ==> Reads(DecoderAt(depth + 1), es[i], Some(items[i]))
    ensures var r := DecodeValue(Head(5, n) + Concat(es) + t, depth);
            r.Some? && r.value.used == |Head(5, n) + Concat(es)| && r.value.value.Obj?
            && forall k :: Lookup(r.value.value.fields, k) == LastOf(items, k)
  {
    hide DecoderAt, Reads, IsLevel, Lookup, Collect, Concat, Head, LastOf;
    LevelAt(depth);
    SequenceSomes(items);
    ContainerReads(DecoderAt(depth), DecoderAt(depth + 1), 5, n, es, Somes(items));
    ReadsDecodes(depth, Head(5, n) + Concat(es), Some(Obj(Collect(Empty, items))), t);
    forall k ensures Lookup(Collect(Empty, items), k) == LastOf(items, k) {
      CollectExactly(Empty, items, k);
      NoMember(k);
    }
  }

  lemma NoMember(k: Bytes)
    ensures Lookup(Empty, k) == None
  {
  }

  /** A member is read as a text only if it is one, as a number only if it is an unsigned one; only objects have any. */
  lemma MembersExactly(v: Json, name: string, t: Bytes, n: nat)
    ensures StrField(v, name) == Some(t) <==> v.Obj? && Lookup(v.fields, Ascii(name)) == Some(Str(t))
    ensures U64Field(v, name) == Some(n) <==> v.Obj? && Lookup(v.fields, Ascii(name)) == Some(UInt(n))
    ensures StrOrEmpty(v, name) == t <==>
            if v.Obj? && Lookup(v.fields, Ascii(name)).Some? && Lookup(v.fields, Ascii(name)).value.Str?
            then Lookup(v.fields, Ascii(name)).value.text == t else t == []
  {
    hide Ascii, Lookup;
  }

  /**
   * A frame is a message exactly when it starts with a map and goes on with one item or nothing at all that counts:
   * M and E are texts, empty when they are not there, S a number, 0 when it is not; without an item the payload is
   * null.
   */
  lemma MessageExactly(buf: Bytes, m: Rpc2Message)
    ensures DecodeMessage(buf) == Some(m) <==>
            && DecodeValue(buf, 0).Some? && DecodeValue(buf, 0).value.value.Obj?
            && var fs, rest := DecodeValue(buf, 0).value.value.fields, buf[DecodeValue(buf, 0).value.used..];
               && m.methodName == (match Lookup(fs, [0x4D]) case Some(Str(t)) => t case _ => [])
               && m.seqNo == (match Lookup(fs, [0x53]) case Some(UInt(n)) => n case _ => 0)
               && m.error == (match Lookup(fs, [0x45]) case Some(Str(t)) => t case _ => [])
               && if rest == [] then m.payload == Null
                  else DecodeValue(rest, 0).Some? && m.payload == DecodeValue(rest, 0).value.value
  {
    KeyBytes();
    hide DecodeValue, Ascii, Lookup;
  }

  // --- json_to_cbor of the scalars ---

  /** true is written as the simple value 20, false as 19, a negative number as 0. */
  lemma ScalarsWritten(i: int, n: nat)
    requires -TWO_63 <= i < 0 && n < 24
    ensures ToCbor(Bool(true)) == [0xF4] && ToCbor(Bool(false)) == [0xF3] && ToCbor(Null) == [0xF6]
    ensures ToCbor(Neg(i)) == [0x00] && ToCbor(UInt(n)) == [n]
  {
    SmallHead(7, 20);
    SmallHead(7, 19);
    SmallHead(7, 22);
    SmallHead(0, 0);
    SmallHead(0, n);
  }

  // --- Frames ---

  /** A frame is its length in four bytes, least significant first, and then its payload, of 1 byte to 192 MiB. */
  lemma FrameBytes(a: Byte, b: Byte, c: Byte, d: Byte, payload: Bytes, rest: Bytes)
    requires |payload| == a + 0x100 * (b + 0x100 * (c + 0x100 * d))
    ensures WriteFrame(payload) == [a, b, c, d] + payload
    ensures ReadFrame([a, b, c, d] + payload + rest) ==
            if 1 <= |payload| <= 201326592 then Some((payload, rest)) else None
  {
    hide LittleEndian, FromLittleEndian;
    EndianBytes(a, b, c, d);
    FrameRoundTripExactly(payload, rest);
    FrameRefused(payload, rest);
  }

  lemma FrameRefused(payload: Bytes, rest: Bytes)
    requires |payload| < TWO_32
    ensures |payload| == 0 || |payload| > 201326592 ==> ReadFrame(WriteFrame(payload) + rest) == None
  {
    hide LittleEndian, FromLittleEndian;
    PowValues();
    LittleEndianRoundTrip(|payload|, 4);
    var stream := WriteFrame(payload) + rest;
    assert stream[..4] == LittleEndian(|payload|, 4);
  }
}
