/** The payload builders of src/p2p.rs, and what a peer reads back from each message they go into. */
module Builders {
  import opened Basics
  import opened Text
  import opened Json
  import opened Cbor
  import opened CborReads
  import opened Message

  // --- Builders ---

  function HandshakeRequest(version: nat): Bytes
    requires version < TWO_64
  {
    Head(5, 1) + Kv("N", UintItem(version))
  }

  function HandshakeResponse(height: nat, version: nat): Bytes
    requires height < TWO_64 && version < TWO_64
  {
    Head(5, 2) + Kv("H", UintItem(height)) + Kv("N", UintItem(version))
  }

  function ChainRequest(top: nat, n: nat): Bytes
    requires top < TWO_64 && n < TWO_64
  {
    Head(5, 2) + Kv("TOP", UintItem(top)) + Kv("N", UintItem(n))
  }

  /** A chain entry: topoheight and the 32 bytes of a block id. */
  datatype ChainEntry = ChainEntry(height: nat, blid: Digest)

  function ChainEntryItem(e: ChainEntry): Bytes
    requires e.height < TWO_64
  {
    Head(4, 2) + UintItem(e.height) + BytesItem(e.blid)
  }

  function ChainItems(pairs: seq<ChainEntry>): Bytes
    requires forall i :: 0 <= i < |pairs| ==> pairs[i].height < TWO_64
  {
    if pairs == [] then [] else ChainEntryItem(pairs[0]) + ChainItems(pairs[1..])
  }

  function ChainResponse(pairs: seq<ChainEntry>): Bytes
    requires |pairs| < TWO_64 && forall i :: 0 <= i < |pairs| ==> pairs[i].height < TWO_64
  {
    Head(4, |pairs|) + ChainItems(pairs)
  }

  function BlidMap(blid: Digest): Bytes {
    Head(5, 1) + Kv("BLID", BytesItem(blid))
  }

  function PutObjectRequest(blid: Digest, body: Bytes, token: Bytes): Bytes
    requires |body| < TWO_64 && |token| < TWO_64
  {
    var n := if token == [] then 2 else 3;
    Head(5, n) + Kv("BLID", BytesItem(blid)) + Kv("BODY", BytesItem(body))
      + if token == [] then [] else Kv("TOKEN", TextItem(token))
  }

  // --- What they decode to ---

  function Hex(b: Bytes): Json {
    Str(HexEncode(b))
  }

  /** Items of a map, one level below the payload. */
  lemma ItemReads(n: nat, b: Bytes, t: Bytes)
    requires n < TWO_64 && |b| < TWO_64 && ValidText(t)
    ensures Reads(DecoderAt(1), UintItem(n), Some(UInt(n)))
    ensures Reads(DecoderAt(1), BytesItem(b), Some(Hex(b)))
    ensures Reads(DecoderAt(1), TextItem(t), Some(Str(t)))
  {
    hide DecoderAt, IsLevel, Reads, ValidUtf8;
    LevelAt(1);
    UintReads(DecoderAt(1), DecoderAt(2), n);
    BytesReads(DecoderAt(1), DecoderAt(2), b);
    TextReads(DecoderAt(1), DecoderAt(2), t);
  }

  lemma Map1(a: Member, u: Json)
    requires IsKey(a.key) && Reads(DecoderAt(1), a.item, Some(u))
    ensures Reads(DecoderAt(0), Head(5, 1) + Kv(a.key, a.item), Some(Obj(Insert(Empty, Ascii(a.key), u))))
  {
    hide DecoderAt, Reads, Insert, Ascii, IsKey;
    MembersReadBack(0, [a], [u]);
    Kvs3(a, a, a) by { KeyIsAscii(a.key); }
    Collected3(a, a, a, u, u, u);
  }

  lemma Map2(a: Member, u: Json, b: Member, v: Json)
    requires IsKey(a.key) && Reads(DecoderAt(1), a.item, Some(u))
    requires IsKey(b.key) && Reads(DecoderAt(1), b.item, Some(v))
    ensures Reads(DecoderAt(0), Head(5, 2) + Kv(a.key, a.item) + Kv(b.key, b.item),
                  Some(Obj(Insert(Insert(Empty, Ascii(a.key), u), Ascii(b.key), v))))
  {
    hide DecoderAt, Reads, Insert, Ascii;
    MembersReadBack(0, [a, b], [u, v]);
    Kvs3(a, b, b);
    Collected3(a, b, b, u, v, v);
    Regroup(Head(5, 2), Kv(a.key, a.item), Kv(b.key, b.item), []);
  }

  lemma Map3(a: Member, u: Json, b: Member, v: Json, c: Member, w: Json)
    requires IsKey(a.key) && Reads(DecoderAt(1), a.item, Some(u))
    requires IsKey(b.key) && Reads(DecoderAt(1), b.item, Some(v))
    requires IsKey(c.key) && Reads(DecoderAt(1), c.item, Some(w))
    ensures Reads(DecoderAt(0), Head(5, 3) + Kv(a.key, a.item) + Kv(b.key, b.item) + Kv(c.key, c.item),
                  Some(Obj(Insert(Insert(Insert(Empty, Ascii(a.key), u), Ascii(b.key), v), Ascii(c.key), w))))
  {
    hide DecoderAt, Reads, Insert, Ascii;
    MembersReadBack(0, [a, b, c], [u, v, w]);
    Kvs3(a, b, c);
    Collected3(a, b, c, u, v, w);
    Regroup(Head(5, 3), Kv(a.key, a.item), Kv(b.key, b.item), Kv(c.key, c.item));
  }

  /** The message around a payload, as its receiver sees it. */
  function Answer(methodName: Bytes, seqNo: nat, error: Bytes, payload: Json): Option<Rpc2Message> {
    Some(Rpc2Message(methodName, seqNo, error, payload))
  }

  predicate HasHeader(m: Option<Rpc2Message>, methodName: Bytes, seqNo: nat, error: Bytes) {
    m.Some? && m.value.methodName == methodName && m.value.seqNo == seqNo && m.value.error == error
  }

  predicate ValidHeader(methodName: Bytes, seqNo: nat, error: Bytes) {
    ValidText(methodName) && ValidText(error) && seqNo < TWO_64
  }

  lemma HandshakeRoundTrip(methodName: Bytes, seqNo: nat, error: Bytes, height: nat, version: nat)
    requires ValidHeader(methodName, seqNo, error) && height < TWO_64 && version < TWO_64
    ensures var m := DecodeMessage(EncodeMessage(methodName, seqNo, error, HandshakeRequest(version)));
            HasHeader(m, methodName, seqNo, error)
            && U64Field(m.value.payload, "N") == Some(version)
    ensures var m := DecodeMessage(EncodeMessage(methodName, seqNo, error, HandshakeResponse(height, version)));
            HasHeader(m, methodName, seqNo, error)
            && U64Field(m.value.payload, "H") == Some(height) && U64Field(m.value.payload, "N") == Some(version)
  {
    hide DecoderAt, Reads, Insert, Ascii, DecodeMessage, EncodeMessage;
    ItemReads(height, [], []);
    ItemReads(version, [], []);
    var h, n := Member("H", UintItem(height)), Member("N", UintItem(version));
    Map1(n, UInt(version));
    Map2(h, UInt(height), n, UInt(version));
    Lookup3("N", UInt(version), "X", Null, "Y", Null);
    Lookup3("H", UInt(height), "N", UInt(version), "Y", Null);
    MessageRoundTrip(methodName, seqNo, error, HandshakeRequest(version),
                     Obj(Insert(Empty, Ascii("N"), UInt(version))));
    MessageRoundTrip(methodName, seqNo, error, HandshakeResponse(height, version),
                     Obj(Insert(Insert(Empty, Ascii("H"), UInt(height)), Ascii("N"), UInt(version))));
  }

  lemma ChainRequestRoundTrip(methodName: Bytes, seqNo: nat, error: Bytes, top: nat, n: nat)
    requires ValidHeader(methodName, seqNo, error) && top < TWO_64 && n < TWO_64
    ensures var m := DecodeMessage(EncodeMessage(methodName, seqNo, error, ChainRequest(top, n)));
            HasHeader(m, methodName, seqNo, error)
            && U64Field(m.value.payload, "TOP") == Some(top) && U64Field(m.value.payload, "N") == Some(n)
  {
    hide DecoderAt, Reads, Insert, Ascii, DecodeMessage, EncodeMessage;
    ItemReads(top, [], []);
    ItemReads(n, [], []);
    Map2(Member("TOP", UintItem(top)), UInt(top), Member("N", UintItem(n)), UInt(n));
    Lookup3("TOP", UInt(top), "N", UInt(n), "Y", Null);
    MessageRoundTrip(methodName, seqNo, error, ChainRequest(top, n),
                     Obj(Insert(Insert(Empty, Ascii("TOP"), UInt(top)), Ascii("N"), UInt(n))));
  }

  /** getobject_request and putobject_response: one block id. */
  lemma BlidRoundTrip(methodName: Bytes, seqNo: nat, error: Bytes, blid: Digest)
    requires ValidHeader(methodName, seqNo, error)
    ensures var m := DecodeMessage(EncodeMessage(methodName, seqNo, error, BlidMap(blid)));
            HasHeader(m, methodName, seqNo, error)
            && StrField(m.value.payload, "BLID") == Some(HexEncode(blid))
  {
    hide DecoderAt, Reads, Insert, Ascii, DecodeMessage, EncodeMessage, HexEncode;
    ItemReads(0, blid, []);
    Map1(Member("BLID", BytesItem(blid)), Hex(blid));
    Lookup3("BLID", Hex(blid), "X", Null, "Y", Null);
    MessageRoundTrip(methodName, seqNo, error, BlidMap(blid), Obj(Insert(Empty, Ascii("BLID"), Hex(blid))));
  }

  /** getobject_response: the raw body, as hex text. */
  lemma BodyRoundTrip(methodName: Bytes, seqNo: nat, error: Bytes, body: Bytes)
    requires ValidHeader(methodName, seqNo, error) && |body| < TWO_63
    ensures DecodeMessage(EncodeMessage(methodName, seqNo, error, BytesItem(body))) ==
            Answer(methodName, seqNo, error, Hex(body))
  {
    hide DecoderAt, Reads, DecodeMessage, EncodeMessage, HexEncode, IsLevel;
    LevelAt(0);
    BytesReads(DecoderAt(0), DecoderAt(1), body);
    MessageRoundTrip(methodName, seqNo, error, BytesItem(body), Hex(body));
  }

  /** The map a PutObject payload decodes to. */
  function PutFields(blid: Digest, body: Bytes, token: Bytes): Fields {
    var two := Insert(Insert(Empty, Ascii("BLID"), Hex(blid)), Ascii("BODY"), Hex(body));
    if token == [] then two else Insert(two, Ascii("TOKEN"), Str(token))
  }

  lemma PutObjectReads(blid: Digest, body: Bytes, token: Bytes)
    requires |body| < TWO_63 && ValidText(token)
    ensures Reads(DecoderAt(0), PutObjectRequest(blid, body, token), Some(Obj(PutFields(blid, body, token))))
  {
    hide DecoderAt, Reads, Insert, Ascii, HexEncode, ValidUtf8, Kv;
    ItemReads(0, blid, token);
    ItemReads(0, body, token);
    var a, b, c := Member("BLID", BytesItem(blid)), Member("BODY", BytesItem(body)), Member("TOKEN", TextItem(token));
    hide TextItem, BytesItem;
    if token == [] {
      Map2(a, Hex(blid), b, Hex(body));
      Regroup(Head(5, 2), Kv(a.key, a.item), Kv(b.key, b.item), []);
      assert PutObjectRequest(blid, body, token) == Head(5, 2) + Kv(a.key, a.item) + Kv(b.key, b.item);
    } else {
      Map3(a, Hex(blid), b, Hex(body), c, Str(token));
    }
  }

  /** With or without a token: the token is there exactly when it is not empty. */
  lemma PutObjectRoundTrip(methodName: Bytes, seqNo: nat, error: Bytes, blid: Digest, body: Bytes, token: Bytes)
    requires ValidHeader(methodName, seqNo, error) && |body| < TWO_63 && ValidText(token)
    ensures var m := DecodeMessage(EncodeMessage(methodName, seqNo, error, PutObjectRequest(blid, body, token)));
            HasHeader(m, methodName, seqNo, error)
            && StrField(m.value.payload, "BLID") == Some(HexEncode(blid))
            && StrField(m.value.payload, "BODY") == Some(HexEncode(body))
            && Get(m.value.payload, "TOKEN") == if token == [] then None else Some(Str(token))
  {
    hide DecoderAt, Reads, Insert, Ascii, DecodeMessage, EncodeMessage, HexEncode, ValidUtf8, Kv, TextItem, BytesItem;
    PutObjectReads(blid, body, token);
    Lookup3("BLID", Hex(blid), "BODY", Hex(body), "TOKEN", Str(token));
    MessageRoundTrip(methodName, seqNo, error, PutObjectRequest(blid, body, token), Obj(PutFields(blid, body, token)));
  }

  // --- Chain lists of any length ---

  function ChainValue(pairs: seq<ChainEntry>): (vs: seq<Json>)
    ensures |vs| == |pairs|
  {
    seq(|pairs|, i requires 0 <= i < |pairs| => Arr([UInt(pairs[i].height), Hex(pairs[i].blid)]))
  }

  function ChainPieces(pairs: seq<ChainEntry>): (es: seq<Bytes>)
    requires forall i :: 0 <= i < |pairs| ==> pairs[i].height < TWO_64
    ensures |es| == |pairs|
  {
    seq(|pairs|, i requires 0 <= i < |pairs| => ChainEntryItem(pairs[i]))
  }

  lemma {:induction false} ChainConcat(pairs: seq<ChainEntry>)
    requires forall i :: 0 <= i < |pairs| ==> pairs[i].height < TWO_64
    ensures Concat(ChainPieces(pairs)) == ChainItems(pairs)
  {
    if pairs != [] {
      ChainConcat(pairs[1..]);
      assert ChainPieces(pairs)[1..] == ChainPieces(pairs[1..]);
    }
  }

  lemma ChainEntryReads(e: ChainEntry)
    requires e.height < TWO_64
    ensures Reads(DecoderAt(1), ChainEntryItem(e), Some(Arr([UInt(e.height), Hex(e.blid)])))
  {
    hide DecoderAt, Reads, IsLevel, HexEncode;
    LevelAt(1);
    LevelAt(2);
    UintReads(DecoderAt(2), DecoderAt(3), e.height);
    BytesReads(DecoderAt(2), DecoderAt(3), e.blid);
    hide UintItem, BytesItem;
    PairReads(DecoderAt(1), DecoderAt(2), UintItem(e.height), UInt(e.height), BytesItem(e.blid), Hex(e.blid));
  }

  lemma PairReads(dec: ItemDecoder, child: ItemDecoder, a: Bytes, u: Json, b: Bytes, v: Json)
    requires IsLevel(dec, child) && Reads(child, a, Some(u)) && Reads(child, b, Some(v))
    ensures Reads(dec, Head(4, 2) + a + b, Some(Arr([u, v])))
  {
    hide Reads, IsLevel, Head;
    SequenceSomes([u, v]);
    ContainerReads(dec, child, 4, 2, [a, b], Somes([u, v]));
    assert [a, b][1..] == [b] && [b][1..] == [];
    assert Concat([b]) == b + [] && Concat([a, b]) == a + (b + []);
    assert Head(4, 2) + (a + (b + [])) == Head(4, 2) + a + b;
  }

  /** Every entry of the list comes back, in order. */
  lemma ChainRoundTrip(methodName: Bytes, seqNo: nat, error: Bytes, pairs: seq<ChainEntry>)
    requires ValidHeader(methodName, seqNo, error)
    requires |pairs| < TWO_64 && forall i :: 0 <= i < |pairs| ==> pairs[i].height < TWO_64
    ensures DecodeMessage(EncodeMessage(methodName, seqNo, error, ChainResponse(pairs))) ==
            Answer(methodName, seqNo, error, Arr(ChainValue(pairs)))
  {
    hide DecoderAt, Reads, IsLevel, HexEncode, DecodeMessage, EncodeMessage, ChainEntryItem;
    var es, vs := ChainPieces(pairs), ChainValue(pairs);
    forall i | 0 <= i < |pairs| ensures Reads(DecoderAt(1), es[i], Somes(vs)[i]) {
      ChainEntryReads(pairs[i]);
    }
    LevelAt(0);
    SequenceSomes(vs);
    ChainConcat(pairs);
    ContainerReads(DecoderAt(0), DecoderAt(1), 4, |pairs|, es, Somes(vs));
    MessageRoundTrip(methodName, seqNo, error, ChainResponse(pairs), Arr(vs));
  }

  /** The loop of chain_response, pushing one entry after the other. */
  method BuildChainResponse(pairs: seq<ChainEntry>) returns (out: Bytes)
    requires |pairs| < TWO_64 && forall i :: 0 <= i < |pairs| ==> pairs[i].height < TWO_64
    ensures out == ChainResponse(pairs)
  {
    hide ChainEntryItem;
    out := Head(4, |pairs|);
    assert pairs[0..] == pairs;
    for i := 0 to |pairs|
      invariant out + ChainItems(pairs[i..]) == ChainResponse(pairs)
    {
      assert pairs[i..][1..] == pairs[i + 1..];
      ghost var rest := ChainItems(pairs[i + 1..]);
      assert out + (ChainEntryItem(pairs[i]) + rest) == out + ChainEntryItem(pairs[i]) + rest;
      out := out + ChainEntryItem(pairs[i]);
    }
    assert out + [] == out;
  }
}
