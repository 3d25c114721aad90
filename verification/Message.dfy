/** rpc2 messages: the header map, the body that follows it, and the decoder of both (src/p2p.rs). */
module Message {
  import opened Basics
  import opened Text
  import opened Json
  import opened Cbor
  import opened CborReads
  import opened CborPrefix
  import opened CborWork

  datatype Rpc2Message = Rpc2Message(methodName: Bytes, seqNo: nat, error: Bytes, payload: Json)

  /** decode_message: a header map, then at most one payload item; later bytes are ignored. */
  function DecodeMessage(buf: Bytes): Option<Rpc2Message> {
    match DecodeValue(buf, 0)
    case None => None
    case Some(head) =>
      if !head.value.Obj? then None
      else if head.used == |buf| then Some(WithHeader(head.value, Null))
      else
        match DecodeValue(buf[head.used..], 0)
        case None => None
        case Some(body) => Some(WithHeader(head.value, body.value))
  }

  function WithHeader(head: Json, payload: Json): Rpc2Message {
    Rpc2Message(StrOrEmpty(head, "M"), match U64Field(head, "S") case Some(n) => n case None => 0,
                StrOrEmpty(head, "E"), payload)
  }

  /** The frame carries a payload item after its header. */
  predicate HasPayload(buf: Bytes) {
    DecodeValue(buf, 0).Some? && DecodeValue(buf, 0).value.used < |buf|
  }

  /** Calls of decode_value that a decode_message makes. */
  function MessageCalls(buf: Bytes): nat {
    Calls(buf, 0) +
    match DecodeValue(buf, 0)
    case None => 0
    case Some(head) => if head.value.Obj? && head.used < |buf| then Calls(buf[head.used..], 0) else 0
  }

  /** A whole message costs at most one call per byte, plus one. */
  lemma MessageCallsBound(buf: Bytes)
    ensures MessageCalls(buf) <= |buf| + 1
  {
    CallsBound(buf, 0);
    if HasPayload(buf) {
      CallsBound(buf[DecodeValue(buf, 0).value.used..], 0);
    }
  }

  // --- Appended bytes: the fuzzing oracle as a theorem ---

  /** Appending to a decodable frame: exactly what the decoder then answers. */
  lemma AppendedBytes(buf: Bytes, t: Bytes)
    requires DecodeMessage(buf).Some?
    ensures DecodeMessage(buf + t) ==
            if HasPayload(buf) || t == [] then DecodeMessage(buf)
            else match DecodeValue(t, 0)
                 case None => None
                 case Some(body) => Some(DecodeMessage(buf).value.(payload := body.value))
  {
    hide DecodeValue, StrOrEmpty;
    var used := DecodeValue(buf, 0).value.used;
    ValueExtends(buf, 0, t);
    if HasPayload(buf) {
      ValueExtends(buf[used..], 0, t);
      assert (buf + t)[used..] == buf[used..] + t;
    } else if t == [] {
      assert buf + t == buf;
    } else {
      assert (buf + t)[used..] == t;
    }
  }

  /** An appended tail never changes the content if and only if it cannot pass for a payload. */
  lemma TailIsHarmlessExactly(buf: Bytes, t: Bytes)
    requires DecodeMessage(buf).Some?
    ensures (DecodeMessage(buf + t) == None || DecodeMessage(buf + t) == DecodeMessage(buf))
            <==> HasPayload(buf) || t == [] || DecodeValue(t, 0) == None || DecodeValue(t, 0).value.value == Null
  {
    AppendedBytes(buf, t);
  }

  /** The fuzzing probe starts with 0xff, a reserved head: refused without a payload, ignored with one. */
  lemma ProbeOracle(buf: Bytes, probe: Bytes)
    requires DecodeMessage(buf).Some? && probe != [] && probe[0] == 0xff
    ensures DecodeMessage(buf + probe) == if HasPayload(buf) then DecodeMessage(buf) else None
  {
    hide DecodeMessage, DecodeValue;
    Refused(probe);
    AppendedBytes(buf, probe);
  }

  lemma Refused(probe: Bytes)
    requires probe != [] && probe[0] == 0xff
    ensures DecodeValue(probe, 0) == None
  {
    assert ReadHead(probe) == None;
    DecodeValueStep(probe, 0);
  }

  /** Only a frame that starts with a CBOR map head is a message; '{' (0x7b) starts a text. */
  lemma OnlyMapsAreMessages(buf: Bytes)
    requires DecodeMessage(buf).Some?
    ensures buf != [] && 0xa0 <= buf[0] <= 0xbb
  {
    hide DecodeItems, HexEncode, ValidUtf8, DecoderAt, DecodeValue, WithHeader;
    DecodeValueStep(buf, 0);
    assert DecodeBody(DecoderAt(1), buf, ReadHead(buf).value).value.value.Obj?;
  }

  // --- Encoding a message ---

  function Kv(key: string, item: Bytes): Bytes
    requires |key| < TWO_64
  {
    TextItem(Ascii(key)) + item
  }

  /** M, S and E, always all three. */
  function Header(methodName: Bytes, seqNo: nat, error: Bytes): Bytes
    requires |methodName| < TWO_64 && seqNo < TWO_64 && |error| < TWO_64
  {
    Head(5, 3) + Kv("M", TextItem(methodName)) + Kv("S", UintItem(seqNo)) + Kv("E", TextItem(error))
  }

  function EncodeMessage(methodName: Bytes, seqNo: nat, error: Bytes, body: Bytes): Bytes
    requires |methodName| < TWO_64 && seqNo < TWO_64 && |error| < TWO_64
  {
    Header(methodName, seqNo, error) + body
  }

  function ErrorResponse(seqNo: nat, error: Bytes): Bytes
    requires seqNo < TWO_64 && |error| < TWO_64
  {
    EncodeMessage([], seqNo, error, [])
  }

  /** A key and the encoded item that follows it. */
  datatype Member = Member(key: string, item: Bytes)

  function Kvs(ms: seq<Member>): Bytes
    requires forall i :: 0 <= i < |ms| ==> |ms[i].key| < TWO_64
  {
    if ms == [] then [] else Kv(ms[0].key, ms[0].item) + Kvs(ms[1..])
  }

  /** The map that the members, with the values `vs`, decode to. */
  function Collected(m: Fields, ms: seq<Member>, vs: seq<Json>): Fields
    requires |ms| == |vs|
    decreases |ms|
  {
    if ms == [] then m else Collected(Insert(m, Ascii(ms[0].key), vs[0]), ms[1..], vs[1..])
  }

  predicate IsKey(key: string) {
    |key| < 16 && forall i :: 0 <= i < |key| ==> 'A' <= key[i] <= 'Z'
  }

  lemma KeysDiffer(a: string, b: string)
    requires IsKey(a) && IsKey(b) && a != b
    ensures Ascii(a) != Ascii(b)
  {
    if |a| == |b| {
      var i :| 0 <= i < |a| && a[i] != b[i];
      assert Ascii(a)[i] != Ascii(b)[i];
    }
  }

  /** Members read one by one, as keys and values in turn. */
  ghost predicate MembersRead(dec: ItemDecoder, ms: seq<Member>, vs: seq<Json>) {
    |ms| == |vs| && forall i :: 0 <= i < |ms| ==> IsKey(ms[i].key) && Reads(dec, ms[i].item, Some(vs[i]))
  }

  function Pieces(ms: seq<Member>): (es: seq<Bytes>)
    requires forall i :: 0 <= i < |ms| ==> |ms[i].key| < TWO_64
    ensures |es| == 2 * |ms|
  {
    if ms == [] then [] else [TextItem(Ascii(ms[0].key)), ms[0].item] + Pieces(ms[1..])
  }

  function Values(ms: seq<Member>, vs: seq<Json>): (items: seq<Json>)
    requires |ms| == |vs|
  {
    if ms == [] then [] else [Str(Ascii(ms[0].key)), vs[0]] + Values(ms[1..], vs[1..])
  }

  lemma {:induction false} PiecesConcat(ms: seq<Member>)
    requires forall i :: 0 <= i < |ms| ==> |ms[i].key| < TWO_64
    ensures Concat(Pieces(ms)) == Kvs(ms)
  {
    if ms != [] {
      PiecesConcat(ms[1..]);
      var es := Pieces(ms);
      assert es[1..] == [ms[0].item] + Pieces(ms[1..]);
      assert es[1..][1..] == Pieces(ms[1..]);
      assert Concat(es[1..]) == ms[0].item + Kvs(ms[1..]);
    }
  }

  function Somes(vs: seq<Json>): (os: seq<Option<Json>>)
    ensures |os| == |vs|
  {
    seq(|vs|, i requires 0 <= i < |vs| => Some(vs[i]))
  }

  lemma {:induction false} SequenceSomes(vs: seq<Json>)
    ensures Sequence(Somes(vs)) == Some(vs)
  {
    if vs != [] {
      SequenceSomes(vs[1..]);
      assert Somes(vs)[1..] == Somes(vs[1..]);
      assert vs == [vs[0]] + vs[1..];
    }
  }

  lemma {:induction false} PiecesRead(dec: ItemDecoder, child: ItemDecoder, ms: seq<Member>, vs: seq<Json>)
    requires IsLevel(dec, child) && MembersRead(dec, ms, vs)
    ensures |Values(ms, vs)| == 2 * |ms|
    ensures AllRead(dec, Pieces(ms), Somes(Values(ms, vs)))
  {
    hide Reads, IsLevel, TextItem, Ascii;
    if ms != [] {
      PiecesRead(dec, child, ms[1..], vs[1..]);
      MemberReads(dec, child, ms[0], vs[0], Pieces(ms[1..]), Values(ms[1..], vs[1..]));
    }
  }

  lemma MemberReads(dec: ItemDecoder, child: ItemDecoder, m: Member, v: Json, es: seq<Bytes>, items: seq<Json>)
    requires IsLevel(dec, child) && IsKey(m.key) && Reads(dec, m.item, Some(v)) && AllRead(dec, es, Somes(items))
    ensures AllRead(dec, [TextItem(Ascii(m.key)), m.item] + es, Somes([Str(Ascii(m.key)), v] + items))
  {
    hide Reads, IsLevel, TextItem, AllRead, Somes, Ascii, IsKey;
    var k := Ascii(m.key);
    KeyIsAscii(m.key);
    AsciiIsUtf8(k);
    TextReads(dec, child, k);
    var os := Somes(items);
    AllReadCons(dec, m.item, Some(v), es, os);
    AllReadCons(dec, TextItem(k), Some(Str(k)), [m.item] + es, [Some(v)] + os);
    assert [TextItem(k), m.item] + es == [TextItem(k)] + ([m.item] + es);
    SomesPair(Str(k), v, items);
  }

  lemma SomesPair(a: Json, b: Json, items: seq<Json>)
    ensures Somes([a, b] + items) == [Some(a)] + ([Some(b)] + Somes(items))
  {
  }

  lemma KeyIsAscii(key: string)
    requires IsKey(key)
    ensures IsAscii(Ascii(key)) && |Ascii(key)| < 16
  {
  }

  lemma {:induction false} ValuesCollect(m: Fields, ms: seq<Member>, vs: seq<Json>)
    requires |ms| == |vs|
    ensures Collect(m, Values(ms, vs)) == Collected(m, ms, vs)
    decreases |ms|
  {
    if ms != [] {
      assert Values(ms, vs)[2..] == Values(ms[1..], vs[1..]);
      ValuesCollect(Insert(m, Ascii(ms[0].key), vs[0]), ms[1..], vs[1..]);
    }
  }

  /** A map head that announces exactly the members that follow reads back all of them. */
  lemma MembersReadBack(depth: nat, ms: seq<Member>, vs: seq<Json>)
    requires depth < MAX_DEPTH && |ms| < TWO_64 && MembersRead(DecoderAt(depth + 1), ms, vs)
    ensures Reads(DecoderAt(depth), Head(5, |ms|) + Kvs(ms), Some(Obj(Collected(Empty, ms, vs))))
  {
    hide Reads, IsLevel, DecoderAt;
    LevelAt(depth);
    LevelAt(depth + 1);
    PiecesRead(DecoderAt(depth + 1), DecoderAt(depth + 2), ms, vs);
    PiecesConcat(ms);
    SequenceSomes(Values(ms, vs));
    ValuesCollect(Empty, ms, vs);
    ContainerReads(DecoderAt(depth), DecoderAt(depth + 1), 5, |ms|, Pieces(ms), Somes(Values(ms, vs)));
  }

  // --- Whole messages ---

  /** A decodable body after the header comes back with the header's own fields. */
  lemma MessageRoundTrip(methodName: Bytes, seqNo: nat, error: Bytes, body: Bytes, v: Json)
    requires ValidText(methodName) && ValidText(error) && seqNo < TWO_64
    requires Reads(DecoderAt(0), body, Some(v)) && body != []
    ensures DecodeMessage(EncodeMessage(methodName, seqNo, error, body)) ==
            Some(Rpc2Message(methodName, seqNo, error, v))
  {
    hide DecoderAt, Reads;
    var e := Header(methodName, seqNo, error);
    var head := HeaderValue(methodName, seqNo, error);
    HeaderReads(methodName, seqNo, error);
    ReadsDecodes(0, e, Some(Obj(head)), body);
    ReadsDecodes(0, body, Some(v), []);
    assert (e + body)[|e|..] == body;
    assert body + [] == body;
    HeaderFields(methodName, seqNo, error, v);
  }

  /** A message without a body has a null payload; `error_response` is one of those. */
  lemma BareMessageRoundTrip(methodName: Bytes, seqNo: nat, error: Bytes)
    requires ValidText(methodName) && ValidText(error) && seqNo < TWO_64
    ensures DecodeMessage(EncodeMessage(methodName, seqNo, error, [])) ==
            Some(Rpc2Message(methodName, seqNo, error, Null))
  {
    hide DecoderAt, Reads;
    var e := Header(methodName, seqNo, error);
    HeaderReads(methodName, seqNo, error);
    ReadsDecodes(0, e, Some(Obj(HeaderValue(methodName, seqNo, error))), []);
    assert e + [] == e;
    HeaderFields(methodName, seqNo, error, Null);
  }

  lemma ReadsDecodes(depth: nat, e: Bytes, o: Option<Json>, t: Bytes)
    requires Reads(DecoderAt(depth), e, o)
    ensures DecodeValue(e + t, depth) == Outcome(o, |e|)
  {
  }

  function HeaderMembers(methodName: Bytes, seqNo: nat, error: Bytes): seq<Member>
    requires |methodName| < TWO_64 && seqNo < TWO_64 && |error| < TWO_64
  {
    [Member("M", TextItem(methodName)), Member("S", UintItem(seqNo)), Member("E", TextItem(error))]
  }

  function HeaderValue(methodName: Bytes, seqNo: nat, error: Bytes): Fields {
    Insert(Insert(Insert(Empty, Ascii("M"), Str(methodName)), Ascii("S"), UInt(seqNo)), Ascii("E"), Str(error))
  }

  lemma HeaderReads(methodName: Bytes, seqNo: nat, error: Bytes)
    requires ValidText(methodName) && ValidText(error) && seqNo < TWO_64
    ensures Reads(DecoderAt(0), Header(methodName, seqNo, error), Some(Obj(HeaderValue(methodName, seqNo, error))))
  {
    hide DecoderAt, IsLevel, Reads, TextItem, UintItem, Ascii, ValidUtf8, Insert;
    var ms := HeaderMembers(methodName, seqNo, error);
    var vs := [Str(methodName), UInt(seqNo), Str(error)];
    LevelAt(1);
    TextReads(DecoderAt(1), DecoderAt(2), methodName);
    UintReads(DecoderAt(1), DecoderAt(2), seqNo);
    TextReads(DecoderAt(1), DecoderAt(2), error);
    MembersReadBack(0, ms, vs);
    Kvs3(ms[0], ms[1], ms[2]);
    Collected3(ms[0], ms[1], ms[2], vs[0], vs[1], vs[2]);
    Regroup(Head(5, 3), Kv("M", ms[0].item), Kv("S", ms[1].item), Kv("E", ms[2].item));
  }

  lemma Regroup(e: Bytes, a: Bytes, b: Bytes, c: Bytes)
    ensures e + (a + b + c) == e + a + b + c
    ensures e + (a + b) == e + a + b
  {
  }

  lemma HeaderFields(methodName: Bytes, seqNo: nat, error: Bytes, payload: Json)
    ensures WithHeader(Obj(HeaderValue(methodName, seqNo, error)), payload) ==
            Rpc2Message(methodName, seqNo, error, payload)
  {
    hide Ascii, Insert, Lookup;
    Lookup3("M", Str(methodName), "S", UInt(seqNo), "E", Str(error));
  }

  // --- Maps of one, two and three members ---

  lemma Kvs3(a: Member, b: Member, c: Member)
    requires |a.key| < 16 && |b.key| < 16 && |c.key| < 16
    ensures Kvs([a]) == Kv(a.key, a.item)
    ensures Kvs([a, b]) == Kv(a.key, a.item) + Kv(b.key, b.item)
    ensures Kvs([a, b, c]) == Kv(a.key, a.item) + Kv(b.key, b.item) + Kv(c.key, c.item)
  {
    hide Kv;
    assert [a][1..] == [] && [b][1..] == [] && [c][1..] == [];
    assert [a, b][1..] == [b] && [b, c][1..] == [c];
    assert [a, b, c][1..] == [b, c];
    assert Kvs([c]) == Kv(c.key, c.item) && Kvs([b]) == Kv(b.key, b.item);
    assert Kvs([b, c]) == Kv(b.key, b.item) + Kvs([c]);
  }

  lemma Collected3(a: Member, b: Member, c: Member, u: Json, v: Json, w: Json)
    ensures Collected(Empty, [a], [u]) == Insert(Empty, Ascii(a.key), u)
    ensures Collected(Empty, [a, b], [u, v]) == Insert(Insert(Empty, Ascii(a.key), u), Ascii(b.key), v)
    ensures Collected(Empty, [a, b, c], [u, v, w]) ==
            Insert(Insert(Insert(Empty, Ascii(a.key), u), Ascii(b.key), v), Ascii(c.key), w)
  {
    hide Insert, Ascii;
    assert [a][1..] == [] && [u][1..] == [] && [b][1..] == [] && [c][1..] == [] && [v][1..] == [] && [w][1..] == [];
    assert [a, b][1..] == [b] && [u, v][1..] == [v] && [b, c][1..] == [c] && [v, w][1..] == [w];
    assert [a, b, c][1..] == [b, c] && [u, v, w][1..] == [v, w];
    var one := Insert(Empty, Ascii(a.key), u);
    var two := Insert(one, Ascii(b.key), v);
    assert Collected(one, [b], [v]) == two;
    assert Collected(two, [c], [w]) == Insert(two, Ascii(c.key), w);
    assert Collected(one, [b, c], [v, w]) == Collected(two, [c], [w]);
  }

  lemma Lookup3(a: string, u: Json, b: string, v: Json, c: string, w: Json)
    requires IsKey(a) && IsKey(b) && IsKey(c) && a != b && a != c && b != c
    ensures var one := Insert(Empty, Ascii(a), u);
            var two := Insert(one, Ascii(b), v);
            var three := Insert(two, Ascii(c), w);
            && Lookup(one, Ascii(a)) == Some(u)
            && Lookup(two, Ascii(a)) == Some(u) && Lookup(two, Ascii(b)) == Some(v) && Lookup(two, Ascii(c)) == None
            && Lookup(three, Ascii(a)) == Some(u) && Lookup(three, Ascii(b)) == Some(v)
            && Lookup(three, Ascii(c)) == Some(w)
  {
    hide Ascii, Insert;
    KeysDiffer(a, b);
    KeysDiffer(a, c);
    KeysDiffer(b, c);
    var one := Insert(Empty, Ascii(a), u);
    var two := Insert(one, Ascii(b), v);
    forall k | k in {a, b, c} ensures
      && Lookup(one, Ascii(k)) == (if Ascii(k) == Ascii(a) then Some(u) else None)
      && Lookup(two, Ascii(k)) == (if Ascii(k) == Ascii(b) then Some(v) else Lookup(one, Ascii(k)))
      && Lookup(Insert(two, Ascii(c), w), Ascii(k)) == (if Ascii(k) == Ascii(c) then Some(w) else Lookup(two, Ascii(k)))
    {
      LookupInsert(Empty, Ascii(a), u, Ascii(k));
      LookupInsert(one, Ascii(b), v, Ascii(k));
      LookupInsert(two, Ascii(c), w, Ascii(k));
    }
    assert a in {a, b, c} && b in {a, b, c} && c in {a, b, c};
  }
}
