/** An honest node at the other end of the wire: what every call of the sync subset brings back, byte for byte. */
module Honest {
  import opened Basics
  import opened Text
  import opened Json
  import opened Cbor
  import opened Message
  import opened Builders
  import opened Frames
  import opened Limiter
  import opened Store
  import opened Sync

  /** A node without a write policy. */
  datatype Node = Node(files: Bodies, wins: Windows)

  /**
   * One turn of handle_client on an rpc2 frame of the sync subset. Frames out of range end the
   * connection on either side; no Rust buffer reaches 2^63 bytes.
   */
  function Respond(who: Caller, look: Lister, node: Node, frame: Bytes): (Node, Option<Bytes>) {
    var m := DecodeMessage(frame);
    if !Framable(frame) || m.None? || m.value.methodName == [] || m.value.seqNo >= TWO_64 then (node, None)
    else if !Readable(node.files) || |look(node.files)| >= TWO_63 then (node, None)
    else
      var r := Handle(OPEN, node.wins, who, node.files, look(node.files), m.value);
      (Node(r.files, r.wins), if r.frame.Some? && Framable(r.frame.value) then r.frame else None)
  }

  function HonestPeer(who: Caller, look: Lister): Peer<Node> {
    (node, frame) => Respond(who, look, node, frame)
  }

  // --- Sizes: every honest frame fits ---

  lemma MessageSize(methodName: Bytes, seqNo: nat, error: Bytes, body: Bytes)
    requires |methodName| < TWO_64 && seqNo < TWO_64 && |error| < TWO_64
    ensures 1 <= |EncodeMessage(methodName, seqNo, error, body)| <= 100 + |methodName| + |error| + |body|
  {
    hide Head, Ascii;
  }

  lemma BodySizes(n: nat, b: Bytes, blid: Digest)
    requires n < TWO_64 && |b| < TWO_64
    ensures |HandshakeRequest(1)| <= 100 && |HandshakeResponse(n, 1)| <= 100 && |ChainRequest(0, n)| <= 100
    ensures |BlidMap(blid)| <= 100 && |BytesItem(b)| <= 100 + |b| && |PutObjectRequest(blid, b, [])| <= 200 + |b|
  {
    hide Head, Ascii;
  }

  lemma {:induction false} ChainSize(pairs: seq<ChainEntry>)
    requires forall i :: 0 <= i < |pairs| ==> pairs[i].height < TWO_64
    ensures |ChainItems(pairs)| <= 60 * |pairs|
  {
    hide Head;
    if pairs != [] {
      ChainSize(pairs[1..]);
    }
  }

  // --- Method names ---

  predicate IsMethod(name: string) {
    name == "Peer.Handshake" || name == "Peer.Chain" || name == "Peer.GetObject" || name == "Peer.PutObject"
  }

  lemma MethodNames(a: string, b: string)
    requires IsMethod(a) && IsMethod(b)
    ensures ValidText(Ascii(a)) && 1 <= |Ascii(a)| <= 14
    ensures Ascii(a) == Ascii(b) <==> a == b
  {
    MethodIsAscii(a);
    AsciiIsUtf8(Ascii(a));
    if a != b && |a| == |b| {
      assert Ascii(a)[5] != Ascii(b)[5];
    }
  }

  lemma MethodIsAscii(a: string)
    requires IsMethod(a)
    ensures IsAscii(Ascii(a))
  {
    forall i | 0 <= i < |a| ensures a[i] as int < 0x80 {
    }
  }

  lemma Headers(name: string, seqNo: nat)
    requires IsMethod(name) && seqNo < TWO_64
    ensures ValidHeader(Ascii(name), seqNo, []) && ValidHeader([], seqNo, [])
  {
    MethodNames(name, name);
  }

  // --- One call after the other ---

  ghost predicate Able(look: Lister, node: Node) {
    Readable(node.files) && |look(node.files)| < TWO_63
  }

  /** A request that decodes reaches the server, and its answer comes back. */
  lemma Exchange(who: Caller, look: Lister, node: Node, name: string, seqNo: nat, body: Bytes, out: Bytes)
    requires IsMethod(name) && seqNo < TWO_64 && |body| <= MAX_FRAME - 200 && |out| <= MAX_FRAME - 200
             && Able(look, node)
    requires HasHeader(DecodeMessage(EncodeMessage(Ascii(name), seqNo, [], body)), Ascii(name), seqNo, [])
    requires var m := DecodeMessage(EncodeMessage(Ascii(name), seqNo, [], body)).value;
             Handle(OPEN, node.wins, who, node.files, look(node.files), m).frame ==
               Some(EncodeMessage([], seqNo, [], out))
    ensures var m := DecodeMessage(EncodeMessage(Ascii(name), seqNo, [], body)).value;
            var r := Handle(OPEN, node.wins, who, node.files, look(node.files), m);
            RpcCall(HonestPeer(who, look), node, name, seqNo, body) ==
              (Node(r.files, r.wins), DecodeMessage(EncodeMessage([], seqNo, [], out)))
  {
    hide DecodeMessage, EncodeMessage, Handle, Ascii, IsMethod;
    MethodNames(name, name);
    MessageSize(Ascii(name), seqNo, [], body);
    MessageSize([], seqNo, [], out);
  }

  /** A request over which the handler panics brings nothing back. */
  lemma Silence(who: Caller, look: Lister, node: Node, name: string, seqNo: nat, body: Bytes)
    requires IsMethod(name) && seqNo < TWO_64 && |body| <= MAX_FRAME - 200 && Able(look, node)
    requires HasHeader(DecodeMessage(EncodeMessage(Ascii(name), seqNo, [], body)), Ascii(name), seqNo, [])
    requires var m := DecodeMessage(EncodeMessage(Ascii(name), seqNo, [], body)).value;
             Handle(OPEN, node.wins, who, node.files, look(node.files), m) == Reply(node.files, node.wins, None)
    ensures RpcCall(HonestPeer(who, look), node, name, seqNo, body) == (node, None)
  {
    hide DecodeMessage, EncodeMessage, Handle, Ascii, IsMethod;
    MethodNames(name, name);
    MessageSize(Ascii(name), seqNo, [], body);
  }

  /** The height is the number of entries; a name that chain_view panics over leaves the call without an answer. */
  lemma AskHandshake(who: Caller, look: Lister, node: Node)
    requires Able(look, node)
    ensures Handshake(HonestPeer(who, look), node) ==
            (node, match ChainOf(look(node.files)) case Some(view) => Ok(|view|) case None => Err("handshake failed"))
  {
    hide DecodeMessage, EncodeMessage, HandshakeRequest, HandshakeResponse, ChainOf, Ascii, Head;
    var name := "Peer.Handshake";
    Headers(name, 1);
    hide ValidHeader;
    HandshakeRoundTrip(Ascii(name), 1, [], 0, 1);
    BodySizes(0, [], seq(32, _ => 0));
    var chain := ChainOf(look(node.files));
    if chain.Some? {
      var height := |chain.value|;
      HandshakeRoundTrip([], 1, [], height, 1);
      BodySizes(height, [], seq(32, _ => 0));
      Exchange(who, look, node, name, 1, HandshakeRequest(1), HandshakeResponse(height, 1));
    } else {
      Silence(who, look, node, name, 1, HandshakeRequest(1));
    }
  }

  /** The newest entries of a view, at most 5000. */
  function NewestOf(view: seq<Digest>): seq<ChainEntry> {
    Select(view, |view|, 0, MAX_LIST, 0)
  }

  lemma AskChain(who: Caller, look: Lister, node: Node)
    requires Able(look, node)
    ensures ListChain(HonestPeer(who, look), node) ==
            (node, match ChainOf(look(node.files))
                   case Some(view) => Ok(ChainValue(NewestOf(view)))
                   case None => Err("chain failed"))
  {
    hide DecodeMessage, EncodeMessage, ChainRequest, ChainItems, ChainOf, Ascii, Head, Select, ChainValue;
    var name := "Peer.Chain";
    Headers(name, 2);
    MethodNames(name, "Peer.Handshake");
    hide ValidHeader;
    ChainRequestRoundTrip(Ascii(name), 2, [], 0, MAX_LIST);
    BodySizes(MAX_LIST, [], seq(32, _ => 0));
    var chain := ChainOf(look(node.files));
    if chain.Some? {
      var pairs := NewestOf(chain.value);
      SelectExactly(chain.value, 0, MAX_LIST);
      ChainRoundTrip([], 2, [], pairs);
      ChainSize(pairs);
      Exchange(who, look, node, name, 2, ChainRequest(0, MAX_LIST), ChainResponse(pairs));
    } else {
      Silence(who, look, node, name, 2, ChainRequest(0, MAX_LIST));
    }
  }

  lemma IdIsSafe(d: Digest)
    ensures !RadixPanics(HexEncode(d))
  {
    hide HexEncode, RadixDecode;
    HexRoundTrip(d);
    RadixSafe(HexEncode(d));
  }

  /** A body the node holds, under its own digest, comes back whole. */
  lemma AskObject(who: Caller, look: Lister, node: Node, seqNo: nat, body: Bytes)
    requires Able(look, node) && seqNo < TWO_64 && |body| <= MAX_BODY
    requires CidOf(body) in node.files && node.files[CidOf(body)] == body
    ensures var (node', answer) := RpcCall(HonestPeer(who, look), node, "Peer.GetObject", seqNo, BlidMap(Sha256(body)));
            node' == node && Accept(Sha256(body), answer) == Ok(Some(body))
  {
    IdIsSafe(Sha256(body));
    hide DecodeMessage, EncodeMessage, BlidMap, BytesItem, ChainView, Ascii, Head, DigestOf, HexEncode, HexDecode,
         RadixPanics;
    var name := "Peer.GetObject";
    Headers(name, seqNo);
    MethodNames(name, "Peer.Handshake");
    MethodNames(name, "Peer.Chain");
    hide ValidHeader;
    BlidRoundTrip(Ascii(name), seqNo, [], Sha256(body));
    CidDigest(body);
    HexRoundTrip(body);
    BodyRoundTrip([], seqNo, [], body);
    BodySizes(0, body, Sha256(body));
    Exchange(who, look, node, name, seqNo, BlidMap(Sha256(body)), BytesItem(body));
  }

  /** The node after it was given a body. */
  function Given(node: Node, body: Bytes): Node {
    if CidOf(body) in node.files then node else node.(files := node.files[CidOf(body) := body])
  }

  /** Any body of 1 byte to 32 MiB is taken under its own digest. */
  lemma AskPut(who: Caller, look: Lister, node: Node, seqNo: nat, body: Bytes)
    requires Able(look, node) && seqNo < TWO_64 && 1 <= |body| <= MAX_BODY
    ensures var (node', answer) := RpcCall(HonestPeer(who, look), node, "Peer.PutObject", seqNo,
                                           PutObjectRequest(Sha256(body), body, []));
            node' == Given(node, body) && Stored(CidOf(body), answer) == Ok(true)
  {
    IdIsSafe(Sha256(body));
    hide DecodeMessage, EncodeMessage, PutObjectRequest, BlidMap, ChainView, Ascii, Head, DigestOf, HexEncode,
         HexDecode, RadixPanics, StrField;
    var name := "Peer.PutObject";
    Headers(name, seqNo);
    MethodNames(name, "Peer.Handshake");
    MethodNames(name, "Peer.Chain");
    MethodNames(name, "Peer.GetObject");
    hide ValidHeader;
    PutObjectRoundTrip(Ascii(name), seqNo, [], Sha256(body), body, []);
    CidDigest(body);
    HexRoundTrip(body);
    BlidRoundTrip([], seqNo, [], Sha256(body));
    BodySizes(0, body, Sha256(body));
    Exchange(who, look, node, name, seqNo, PutObjectRequest(Sha256(body), body, []), BlidMap(Sha256(body)));
  }
}
