/**
 * The rpc2 server as its callers see it: the message that each reply frame decodes to, for every request, every
 * store and every write policy, refusals in their exact words.
 */
module Replies {
  import opened Basics
  import opened Text
  import opened Json
  import opened Cbor
  import opened Message
  import opened Builders
  import opened Limiter
  import opened Store

  // --- Refusals ---

  /** Why a request is refused. */
  datatype Reason =
    | BadCid | NotFound | Mismatch | Unknown
    | NotHex | TooFast | BadToken | StoreFull | WrongId | EmptyBody | TooLarge

  /** The words that go into E. */
  function Words(r: Reason): string {
    match r
    case BadCid => "400 bad cid"
    case NotFound => "404 not found"
    case Mismatch => "500 cid mismatch"
    case Unknown => "501 unknown method"
    case NotHex => "400 body not valid hex"
    case TooFast => "429 put rate limit exceeded"
    case BadToken => "401 bad write token"
    case StoreFull => "507 store full"
    case WrongId => "400 body sha256 != BLID"
    case EmptyBody => "400 empty body"
    case TooLarge => "413 body too large"
  }

  lemma WordsAreAscii(r: Reason)
    ensures 0 < |Words(r)| < 100 && IsAscii(Ascii(Words(r)))
  {
    if r.BadCid? || r.NotFound? || r.Mismatch? || r.Unknown? {
      ReadWords(r);
    } else {
      WriteWords(r);
    }
  }

  lemma ReadWords(r: Reason)
    requires r.BadCid? || r.NotFound? || r.Mismatch? || r.Unknown?
    ensures 0 < |Words(r)| < 100 && IsAscii(Ascii(Words(r)))
  {
    match r
    case BadCid => AsciiText("400 bad cid");
    case NotFound => AsciiText("404 not found");
    case Mismatch => AsciiText("500 cid mismatch");
    case Unknown => AsciiText("501 unknown method");
  }

  lemma WriteWords(r: Reason)
    requires !r.BadCid? && !r.NotFound? && !r.Mismatch? && !r.Unknown?
    ensures 0 < |Words(r)| < 100 && IsAscii(Ascii(Words(r)))
  {
    match r
    case NotHex => AsciiText("400 body not valid hex");
    case TooFast => AsciiText("429 put rate limit exceeded");
    case BadToken => AsciiText("401 bad write token");
    case StoreFull => AsciiText("507 store full");
    case WrongId => AsciiText("400 body sha256 != BLID");
    case EmptyBody => AsciiText("400 empty body");
    case TooLarge => AsciiText("413 body too large");
  }

  /** A refusal in a reply: no method, the number of the request, the words in E, and no payload. */
  function Refused(seqNo: nat, r: Reason): (m: Option<Rpc2Message>) {
    Some(Rpc2Message([], seqNo, Ascii(Words(r)), Null))
  }

  lemma RefusalReads(seqNo: nat, r: Reason)
    requires seqNo < TWO_64
    ensures DecodeMessage(Refusal(seqNo, Words(r))) == Refused(seqNo, r) && Ascii(Words(r)) != []
  {
    hide Words, DecodeMessage, EncodeMessage, Ascii;
    WordsAreAscii(r);
    AsciiIsUtf8(Ascii(Words(r)));
    EmptyIsValid();
    BareMessageRoundTrip([], seqNo, Ascii(Words(r)));
  }

  /** An optional text member; a missing one counts as empty. */
  function TextOf(payload: Json, name: string): Bytes {
    match StrField(payload, name)
    case Some(t) => t
    case None => []
  }

  // --- Peer.GetObject ---

  lemma GetObjectReply(p: Policy, wins: Windows, who: Caller, files: Bodies, order: seq<Bytes>, m: Rpc2Message)
    requires Readable(files) && |order| < TWO_63 && m.seqNo < TWO_64 && m.methodName == Ascii("Peer.GetObject")
    ensures var r, id := Handle(p, wins, who, files, order, m), TextOf(m.payload, "BLID");
            && r.files == files && r.wins == wins && (r.frame.None? <==> RadixPanics(id))
            && (r.frame.Some? ==>
                DecodeMessage(r.frame.value) ==
                if |id| != 64 || RadixDecode(id).None? then Refused(m.seqNo, BadCid)
                else if id !in files then Refused(m.seqNo, NotFound)
                else if RadixDecode(id) != Some(Sha256(files[id])) then Refused(m.seqNo, Mismatch)
                else Some(Rpc2Message([], m.seqNo, [], Str(HexEncode(files[id])))))
  {
    var id := TextOf(m.payload, "BLID");
    MethodsDiffer();
    hide RadixDecode, RadixPanics, HexEncode, Ascii, DecodeMessage, EncodeMessage, Refusal, Select, ChainOf, BytesItem,
         ValidUtf8;
    RefusalReads(m.seqNo, BadCid);
    RefusalReads(m.seqNo, NotFound);
    RefusalReads(m.seqNo, Mismatch);
    EmptyIsValid();
    if id in files {
      BodyRoundTrip([], m.seqNo, [], files[id]);
    }
  }

  lemma EmptyIsValid()
    ensures ValidText([])
  {
  }

  lemma MethodsDiffer()
    ensures Ascii("Peer.GetObject") != Ascii("Peer.Handshake") && Ascii("Peer.GetObject") != Ascii("Peer.Chain")
    ensures Ascii("Peer.PutObject") != Ascii("Peer.Handshake") && Ascii("Peer.PutObject") != Ascii("Peer.Chain")
    ensures Ascii("Peer.PutObject") != Ascii("Peer.GetObject") && Ascii("Peer.Chain") != Ascii("Peer.Handshake")
  {
    assert Ascii("Peer.GetObject")[5] == 71 && Ascii("Peer.PutObject")[5] == 80;
    assert Ascii("Peer.Handshake")[5] == 72 && Ascii("Peer.Chain")[5] == 67;
  }

  // --- Peer.PutObject ---

  /** A sum of u64 numbers as `saturating_add` gives it. */
  function Saturated(n: nat): nat {
    if n > 0xffff_ffff_ffff_ffff then 0xffff_ffff_ffff_ffff else n
  }

  /** What the policy says to a body. */
  function PolicyRefusal(p: Policy, rateOk: bool, used: nat, payload: Json): Option<Reason> {
    if !rateOk then Some(TooFast)
    else if p.token.Some? && TextOf(payload, "TOKEN") != p.token.value then Some(BadToken)
    else if p.maxStoreBytes > 0 && Saturated(used) > p.maxStoreBytes then Some(StoreFull)
    else None
  }

  lemma GateAnswers(p: Policy, wins: Windows, who: Caller, n: nat, payload: Json)
    ensures var (touched, rateOk) := Touch(p.putRate, wins, Call(who.ip, who.now));
            var refusal := PolicyRefusal(p, rateOk, who.used + n, payload);
            Gate(p, wins, who, n, payload) ==
              (touched, if refusal.Some? then Err(Words(refusal.value)) else Ok(()))
  {
    hide Touch;
  }

  /** The reason for which a PutObject is refused, in the order of the checks; None when it is accepted. */
  function PutRefusal(p: Policy, rateOk: bool, used: nat, payload: Json): Option<Reason> {
    var body, id := HexDecode(TextOf(payload, "BODY")), RadixDecode(TextOf(payload, "BLID"));
    if body.None? then Some(NotHex)
    else if PolicyRefusal(p, rateOk, used + |body.value|, payload).Some? then
      PolicyRefusal(p, rateOk, used + |body.value|, payload)
    else if id != Some(Sha256(body.value)) then Some(WrongId)
    else if |body.value| == 0 then Some(EmptyBody)
    else if |body.value| > 33554432 then Some(TooLarge)
    else None
  }

  lemma SameText(payload: Json)
    ensures forall name :: StrOrEmpty(payload, name) == TextOf(payload, name)
  {
  }

  lemma IdFacts(id: Bytes, d: Digest)
    ensures DigestOf(id) == Some(d) <==> RadixDecode(id) == Some(d)
    ensures RadixPanics(id) ==> RadixDecode(id).None?
  {
    hide RadixDecode, RadixPanics;
    RadixSafe(id);
  }

  lemma StoreFacts(files: Bodies, body: Bytes)
    ensures StoreBody(files, body) ==
            if |body| == 0 then (files, Err(Words(EmptyBody)))
            else if |body| > 33554432 then (files, Err(Words(TooLarge)))
            else (if CidOf(body) in files then files else files[CidOf(body) := body], Ok(CidOf(body)))
  {
    hide CidOf;
  }

  /** The handler after the policy has spoken. */
  lemma PutAfterGate(p: Policy, wins: Windows, who: Caller, files: Bodies, payload: Json)
    ensures var body, id := HexDecode(TextOf(payload, "BODY")), TextOf(payload, "BLID");
            PutObject(p, wins, who, files, payload) ==
            if body.None? then (files, wins, Some(Err(Words(NotHex)))) else
            var (wins', gate) := Gate(p, wins, who, |body.value|, payload);
            if gate.Err? then (files, wins', Some(Err(gate.error)))
            else if RadixPanics(id) then (files, wins', None)
            else if RadixDecode(id) != Some(Sha256(body.value)) then (files, wins', Some(Err(Words(WrongId))))
            else (StoreBody(files, body.value).0, wins', Some(StoreBody(files, body.value).1))
  {
    var body := HexDecode(TextOf(payload, "BODY"));
    if body.Some? {
      IdFacts(TextOf(payload, "BLID"), Sha256(body.value));
    }
    hide RadixDecode, RadixPanics, HexDecode, DigestOf, StoreBody, Gate;
  }

  /**
   * A PutObject, exactly: with a refusal, nothing is stored and its words are the answer; without one, the body is
   * stored under its digest, if it is not there, and the digest is the answer. A block id that cannot be sliced
   * leaves a request that the policy let through without an answer.
   */
  lemma PutOutcome(p: Policy, wins: Windows, who: Caller, files: Bodies, payload: Json)
    ensures var body, id := HexDecode(TextOf(payload, "BODY")), TextOf(payload, "BLID");
            var (touched, rateOk) := Touch(p.putRate, wins, Call(who.ip, who.now));
            var refusal := PutRefusal(p, rateOk, who.used, payload);
            var files' := if refusal.Some? || CidOf(body.value) in files then files
                          else files[CidOf(body.value) := body.value];
            PutObject(p, wins, who, files, payload) ==
            (files', if body.None? then wins else touched,
             if refusal == Some(WrongId) && RadixPanics(id) then None
             else Some(if refusal.Some? then Err(Words(refusal.value)) else Ok(CidOf(body.value))))
  {
    PutAfterGate(p, wins, who, files, payload);
    hide RadixDecode, RadixPanics, HexDecode, Touch, CidOf, DigestOf, StoreBody, Gate, PolicyRefusal, Words, TextOf,
         PutObject;
    var body := HexDecode(TextOf(payload, "BODY"));
    if body.Some? {
      IdFacts(TextOf(payload, "BLID"), Sha256(body.value));
      StoreFacts(files, body.value);
      GateAnswers(p, wins, who, |body.value|, payload);
      PolicyWords(p, Touch(p.putRate, wins, Call(who.ip, who.now)).1, who.used + |body.value|, payload);
    }
  }

  lemma PolicyWords(p: Policy, rateOk: bool, used: nat, payload: Json)
    ensures PolicyRefusal(p, rateOk, used, payload) != Some(WrongId)
  {
  }

  /** The frame of a PutObject: the id stored under, or the text of the refusal. */
  lemma PutFrame(p: Policy, wins: Windows, who: Caller, files: Bodies, order: seq<Bytes>, m: Rpc2Message, body: Bytes)
    requires Readable(files) && |order| < TWO_63 && m.seqNo < TWO_64 && m.methodName == Ascii("Peer.PutObject")
    ensures var reply, (files', wins', r) := Handle(p, wins, who, files, order, m),
                                             PutObject(p, wins, who, files, m.payload);
            && reply.files == files' && reply.wins == wins' && (reply.frame.None? <==> r.None?)
            && (r.Some? && r.value.Err? ==> reply.frame == Some(Refusal(m.seqNo, r.value.error)))
            && (r == Some(Ok(CidOf(body))) ==>
                reply.frame == Some(EncodeMessage([], m.seqNo, [], BlidMap(Sha256(body)))))
  {
    MethodsDiffer();
    CidDigest(body);
    hide Ascii, EncodeMessage, Refusal, Select, ChainOf, PutObject, BlidMap, CidOf, DigestOf, ServeBody, RadixPanics;
  }

  /**
   * A PutObject request: refused with the first reason that applies, nothing stored then; or accepted, the body
   * stored under its digest and the digest answered. A block id that cannot be sliced is the one way to no answer.
   */
  lemma PutObjectReply(p: Policy, wins: Windows, who: Caller, files: Bodies, order: seq<Bytes>, m: Rpc2Message)
    requires Readable(files) && |order| < TWO_63 && m.seqNo < TWO_64 && m.methodName == Ascii("Peer.PutObject")
    ensures var r, id := Handle(p, wins, who, files, order, m), TextOf(m.payload, "BLID");
            var body := HexDecode(TextOf(m.payload, "BODY"));
            var (touched, rateOk) := Touch(p.putRate, wins, Call(who.ip, who.now));
            var refusal := PutRefusal(p, rateOk, who.used, m.payload);
            && r.wins == (if body.None? then wins else touched)
            && (r.frame.None? <==> refusal == Some(WrongId) && RadixPanics(id))
            && (refusal.Some? ==>
                r.files == files && (r.frame.Some? ==> DecodeMessage(r.frame.value) == Refused(m.seqNo, refusal.value)))
            && (refusal.None? ==>
                var name := HexEncode(Sha256(body.value));
                && r.files == (if name in files then files else files[name := body.value])
                && r.frame.Some? && HasHeader(DecodeMessage(r.frame.value), [], m.seqNo, [])
                && StrField(DecodeMessage(r.frame.value).value.payload, "BLID") == Some(name))
  {
    hide RadixPanics, HexEncode, Ascii, DecodeMessage, EncodeMessage, Refusal, Handle, PutObject, BlidMap,
         ValidUtf8, HexDecode, Touch, Words, PutRefusal, TextOf, StrField, Refused;
    PutOutcome(p, wins, who, files, m.payload);
    var (_, rateOk) := Touch(p.putRate, wins, Call(who.ip, who.now));
    var body := HexDecode(TextOf(m.payload, "BODY"));
    var refusal := PutRefusal(p, rateOk, who.used, m.payload);
    PutFrame(p, wins, who, files, order, m, if body.Some? then body.value else []);
    if refusal.Some? {
      RefusalReads(m.seqNo, refusal.value);
    } else {
      PutAcceptable(p, rateOk, who.used, m.payload);
      EmptyIsValid();
      BlidRoundTrip([], m.seqNo, [], Sha256(body.value));
    }
  }

  lemma PutAcceptable(p: Policy, rateOk: bool, used: nat, payload: Json)
    requires PutRefusal(p, rateOk, used, payload).None?
    ensures HexDecode(TextOf(payload, "BODY")).Some?
  {
    hide HexDecode, RadixDecode, TextOf;
  }

  // --- Peer.Handshake and Peer.Chain ---

  /** The ledger view is the listing with every name that is no digest left out: each name by itself, in order. */
  lemma {:induction false} ViewAppends(a: seq<Bytes>, b: seq<Bytes>)
    ensures ChainView(a + b) == ChainView(a) + ChainView(b)
    decreases |b|
  {
    hide DigestOf;
    if b == [] {
      assert a + b == a;
    } else {
      var k := |b| - 1;
      assert (a + b)[..|a + b| - 1] == a + b[..k];
      ViewAppends(a, b[..k]);
    }
  }

  lemma ViewOfOne(name: Bytes)
    ensures ChainView([name]) == if |name| == 64 && RadixDecode(name).Some? then [RadixDecode(name).value] else []
  {
    hide RadixDecode;
    assert [name][..0] == [];
  }

  /** The handshake answers how many entries the ledger has, and version 1. */
  lemma HandshakeReply(p: Policy, wins: Windows, who: Caller, files: Bodies, order: seq<Bytes>, m: Rpc2Message)
    requires Readable(files) && |order| < TWO_63 && m.seqNo < TWO_64 && m.methodName == Ascii("Peer.Handshake")
    ensures var r := Handle(p, wins, who, files, order, m);
            && r.files == files && r.wins == wins
            && (r.frame.None? <==> exists i :: 0 <= i < |order| && |order[i]| == 64 && RadixPanics(order[i]))
            && (r.frame.Some? ==>
                HasHeader(DecodeMessage(r.frame.value), [], m.seqNo, [])
                && U64Field(DecodeMessage(r.frame.value).value.payload, "H") == Some(|ChainView(order)|)
                && U64Field(DecodeMessage(r.frame.value).value.payload, "N") == Some(1))
  {
    hide ChainView, RadixPanics, DecodeMessage, EncodeMessage, HandshakeResponse, Ascii, ValidUtf8;
    EmptyIsValid();
    HandshakeRoundTrip([], m.seqNo, [], |ChainView(order)|, 1);
  }

  /** Entries below height `start`, one height after the other, with their ids in hex. */
  function Downward(view: seq<Digest>, start: nat, count: nat): (items: seq<Json>)
    requires count <= start <= |view|
    ensures |items| == count
  {
    seq(count, j requires 0 <= j < count => Arr([UInt(start - 1 - j), Str(HexEncode(view[start - 1 - j]))]))
  }

  lemma SelectedItems(view: seq<Digest>, top: nat, n: nat)
    ensures var start := if top == 0 || top >= |view| then |view| else top + 1;
            var count := if n == 0 || start < n then start else n;
            ChainValue(Select(view, |view|, top, n, 0)) == Downward(view, start, count)
  {
    hide Select, HexEncode;
    SelectExactly(view, top, n);
  }

  /**
   * The chain answer, entry by entry: the walk starts at the tip for TOP = 0 or none, else at height TOP if the
   * ledger is that high; it goes down, one height an entry, for N entries, 128 if there is no N, at most 5000, and
   * to the bottom for N = 0.
   */
  lemma ChainReply(p: Policy, wins: Windows, who: Caller, files: Bodies, order: seq<Bytes>, m: Rpc2Message)
    requires Readable(files) && |order| < TWO_63 && m.seqNo < TWO_64 && m.methodName == Ascii("Peer.Chain")
    ensures var r, view := Handle(p, wins, who, files, order, m), ChainView(order);
            var top := match U64Field(m.payload, "TOP") case Some(t) => t case None => 0;
            var asked := match U64Field(m.payload, "N") case Some(n) => n case None => 128;
            var n := if asked > 5000 then 5000 else asked;
            var start := if top == 0 || top >= |view| then |view| else top + 1;
            var count := if n == 0 || start < n then start else n;
            && r.files == files && r.wins == wins
            && (r.frame.None? <==> exists i :: 0 <= i < |order| && |order[i]| == 64 && RadixPanics(order[i]))
            && (r.frame.Some? ==>
                DecodeMessage(r.frame.value) == Some(Rpc2Message([], m.seqNo, [], Arr(Downward(view, start, count)))))
  {
    MethodsDiffer();
    hide ChainView, RadixPanics, DecodeMessage, EncodeMessage, ChainResponse, Ascii, ValidUtf8, Select, Downward,
         ChainValue, U64Field;
    var view := ChainView(order);
    var top := match U64Field(m.payload, "TOP") case Some(t) => t case None => 0;
    var asked := match U64Field(m.payload, "N") case Some(n) => n case None => 128;
    var n := if asked > 5000 then 5000 else asked;
    SelectedItems(view, top, n);
    EmptyIsValid();
    ChainRoundTrip([], m.seqNo, [], Select(view, |view|, top, n, 0));
  }

  // --- Every request ---

  lemma UnknownReply(p: Policy, wins: Windows, who: Caller, files: Bodies, order: seq<Bytes>, m: Rpc2Message)
    requires Readable(files) && |order| < TWO_63 && m.seqNo < TWO_64
    requires m.methodName !in [Ascii("Peer.Handshake"), Ascii("Peer.Chain"), Ascii("Peer.GetObject"),
                               Ascii("Peer.PutObject")]
    ensures var r := Handle(p, wins, who, files, order, m);
            r.files == files && r.wins == wins && r.frame.Some?
            && DecodeMessage(r.frame.value) == Refused(m.seqNo, Unknown)
  {
    hide Ascii, DecodeMessage, Refusal;
    RefusalReads(m.seqNo, Unknown);
  }

  /** The request is served: the ledger methods always, an object that is there and sound, a body that is accepted. */
  predicate Served(p: Policy, rateOk: bool, used: nat, files: Bodies, m: Rpc2Message) {
    || m.methodName == Ascii("Peer.Handshake") || m.methodName == Ascii("Peer.Chain")
    || (m.methodName == Ascii("Peer.GetObject")
        && var id := TextOf(m.payload, "BLID");
           id in files && RadixDecode(id) == Some(Sha256(files[id])))
    || (m.methodName == Ascii("Peer.PutObject") && PutRefusal(p, rateOk, used, m.payload).None?)
  }

  /** Every reply frame decodes, carries the number of its request, and has an E exactly when it is a refusal. */
  lemma RefusedExactly(p: Policy, wins: Windows, who: Caller, files: Bodies, order: seq<Bytes>, m: Rpc2Message)
    requires Readable(files) && |order| < TWO_63 && m.seqNo < TWO_64
    requires Handle(p, wins, who, files, order, m).frame.Some?
    ensures var reply := DecodeMessage(Handle(p, wins, who, files, order, m).frame.value);
            var rateOk := Touch(p.putRate, wins, Call(who.ip, who.now)).1;
            && reply.Some? && reply.value.methodName == [] && reply.value.seqNo == m.seqNo
            && (reply.value.error == [] <==> Served(p, rateOk, who.used, files, m))
            && (reply.value.error != [] ==> exists r :: reply == Refused(m.seqNo, r))
  {
    MethodsDiffer();
    hide Ascii, DecodeMessage, EncodeMessage, Refusal, Handle, RadixDecode, RadixPanics, PutRefusal, Touch, Words,
         HexEncode, HexDecode, TextOf;
    if m.methodName == Ascii("Peer.Handshake") {
      HandshakeReply(p, wins, who, files, order, m);
    } else if m.methodName == Ascii("Peer.Chain") {
      ChainReply(p, wins, who, files, order, m);
    } else if m.methodName == Ascii("Peer.GetObject") {
      GetObjectReply(p, wins, who, files, order, m);
    } else if m.methodName == Ascii("Peer.PutObject") {
      PutObjectReply(p, wins, who, files, order, m);
    } else {
      UnknownReply(p, wins, who, files, order, m);
    }
    forall r ensures Ascii(Words(r)) != [] {
      RefusalReads(m.seqNo, r);
    }
  }

  // --- The fetch protocol ---

  /** Every outcome of a fetch, by the bytes of the response and the digest asked for. */
  lemma FetchOutcome(resp: Bytes, cid: Bytes)
    ensures var d := if |cid| == 64 then RadixDecode(cid) else None;
            ParseFetch(resp, cid) ==
            if d.None? then Err("bad cid hex")
            else if Sha256(resp) == d.value then Ok(resp)
            else if resp != [] && resp[0] == 0x00 && Sha256(resp[1..]) == d.value then Ok(resp[1..])
            else if resp != [] && resp[0] == 0x01 then Err("peer error")
            else Err("body sha256 does not match cid (tampered)")
  {
    hide RadixDecode;
  }

  /** What a node answers to a fetch is read by the client as the body, or as an error. */
  lemma ServedOutcome(files: Bodies, cid: Bytes)
    ensures ServeBody(files, cid) ==
            if |cid| != 64 || RadixDecode(cid).None? then Err("400 bad cid")
            else if cid !in files then Err("404 not found")
            else if RadixDecode(cid) != Some(Sha256(files[cid])) then Err("500 cid mismatch")
            else Ok(files[cid])
    ensures forall body :: FrameOk(body) == [0x00] + body
  {
    hide RadixDecode;
  }
}
