/** The rpc2 face of the relay verbs (handle_rpc2_fabric): from a decoded request to the reply frame and back. */
module FabricRpc {
  import opened Basics
  import opened Text
  import opened Json
  import opened Cbor
  import opened CborReads
  import opened CborRoundTrip
  import opened Message
  import opened Envelope
  import opened Limiter
  import opened Registry
  import opened Queue
  import opened Hold
  import opened Relay
  import opened Fabric
  import opened Answers

  /** The clock readings of the three verbs. */
  datatype Clock = Clock(now: nat, put: PutTimes, pop: PopTimes)

  /** No registration reaches the end of the u64 clock. */
  predicate Sane(cfg: Config, clock: Clock) {
    clock.now + cfg.limits.maxLease < TWO_64
  }

  predicate IsVerb(name: Bytes) {
    name == Ascii("Peer.FabricReg") || name == Ascii("Peer.FabricPut") || name == Ascii("Peer.FabricPop")
  }

  /** The verb that a method names, on the payload of its message. */
  ghost function RunVerb(cfg: Config, s: Relay, m: Rpc2Message, ip: Bytes, clock: Clock): (Relay, Result<Json>)
    requires WellFormed(cfg.limits, s.regs.table) && IsVerb(m.methodName)
  {
    if m.methodName == Ascii("Peer.FabricReg") then RunFreg(cfg, s, m.payload, clock.now)
    else if m.methodName == Ascii("Peer.FabricPut") then RunFput(cfg, s, m.payload, ip, clock.put)
    else RunFpop(cfg, s, m.payload, ip, clock.pop)
  }

  /** The words of a refusal: a few, all ASCII. */
  predicate IsWords(e: string) {
    0 < |e| < 100 && forall i :: 0 <= i < |e| ==> e[i] as int < 0x80
  }

  /** What can be sent: an answer that serde_json can hold, or a refusal in a few ASCII characters. */
  predicate Sendable(r: Result<Json>) {
    match r
    case Ok(v) => Valid(v)
    case Err(e) => IsWords(e)
  }

  function ReplyFrame(seqNo: nat, r: Result<Json>): Bytes
    requires seqNo < TWO_64 && Sendable(r)
  {
    match r
    case Ok(v) => EncodeMessage([], seqNo, [], ToCbor(v))
    case Err(e) => ErrorResponse(seqNo, Ascii(e))
  }

  // --- Every answer can be sent ---

  lemma {:induction false} MemberIsValid(fs: Fields, k: Bytes)
    requires FieldsValid(fs) && Lookup(fs, k).Some?
    ensures Valid(Lookup(fs, k).value)
  {
    if fs.key != k {
      MemberIsValid(fs.rest, k);
    }
  }

  lemma TextIsValid(v: Json, name: string)
    requires Valid(v) && StrField(v, name).Some?
    ensures ValidText(StrField(v, name).value)
  {
    hide ValidUtf8;
    MemberIsValid(v.fields, Ascii(name));
  }

  lemma HandleWords()
    ensures IsWords("400 freg needs handle")
    ensures IsWords("400 fput needs handle")
    ensures IsWords("400 fpop needs handle")
  {
  }

  lemma ShapeWords()
    ensures IsWords("400 handle must be 32-byte hex")
    ensures IsWords("400 freg needs token")
    ensures IsWords("400 token must be 16..=128 bytes")
  {
  }

  lemma PointerShapeWords()
    ensures IsWords("400 fput needs pointer_hex")
    ensures IsWords("400 pointer must be 74-byte hex")
    ensures IsWords("400 bad pointer payload header")
  {
  }

  lemma DeadlineWords()
    ensures IsWords("400 zero pointer deadline")
    ensures IsWords("410 gone")
    ensures IsWords("400 deadline beyond horizon cap")
  {
  }

  lemma RegistryWords()
    ensures IsWords("404 unknown handle")
    ensures IsWords("404 handle lease expired")
    ensures IsWords("403 wrong token")
  {
  }

  lemma BudgetWords()
    ensures IsWords("429 fput rate")
    ensures IsWords("429 fpop rate")
    ensures IsWords("503 fabric registry full")
  {
  }

  lemma LiveWords()
    ensures IsWords("403 live registration: prev_token required")
  {
  }

  lemma PointerWords(req: Json, accept: nat, horizon: nat)
    requires CheckPointer(req, accept, horizon).Err?
    ensures IsWords(CheckPointer(req, accept, horizon).error)
  {
    PointerShapeWords();
    DeadlineWords();
    hide IsWords, HexDecode;
  }

  lemma FputWords(cfg: Config, s: Relay, req: Json, ip: Bytes, tm: PutTimes)
    requires Admit(cfg, s, req, ip, tm).1.Err?
    ensures IsWords(Admit(cfg, s, req, ip, tm).1.error)
  {
    HandleWords();
    ShapeWords();
    RegistryWords();
    BudgetWords();
    hide IsWords, Lower, Touch, CheckPointer;
    if CheckPointer(req, tm.accept, cfg.horizon).Err? {
      PointerWords(req, tm.accept, cfg.horizon);
    }
  }

  lemma FpopWords(cfg: Config, s: Relay, req: Json, ip: Bytes, tm: PopTimes)
    requires Authorize(cfg, s, req, ip, tm).1.Err?
    ensures IsWords(Authorize(cfg, s, req, ip, tm).1.error)
  {
    HandleWords();
    ShapeWords();
    RegistryWords();
    BudgetWords();
    hide IsWords, Lower, Touch;
  }

  lemma CheckWords(req: Json)
    requires CheckFreg(req).Err?
    ensures IsWords(CheckFreg(req).error)
  {
    HandleWords();
    ShapeWords();
    hide IsWords, HexDecode;
  }

  lemma FregWords(limits: Limits, s: RegState, f: Freg, now: nat)
    requires GatedFreg(limits, s, f, now).1.Err?
    ensures IsWords(GatedFreg(limits, s, f, now).1.error)
  {
    LiveWords();
    BudgetWords();
    hide IsWords, Sweep;
  }

  lemma FregSendable(cfg: Config, s: Relay, req: Json, now: nat)
    requires Valid(req) && now + cfg.limits.maxLease < TWO_64
    ensures Sendable(RunFreg(cfg, s, req, now).1)
  {
    hide CheckFreg, GatedFreg, Valid, IsWords, FregAnswer;
    if CheckFreg(req).Err? {
      CheckWords(req);
    } else if GatedFreg(cfg.limits, s.regs, CheckFreg(req).value, now).1.Err? {
      FregWords(cfg.limits, s.regs, CheckFreg(req).value, now);
    } else {
      AcceptedFreg(cfg, s, req, now);
    }
  }

  lemma AcceptedFreg(cfg: Config, s: Relay, req: Json, now: nat)
    requires Valid(req) && now + cfg.limits.maxLease < TWO_64 && RunFreg(cfg, s, req, now).1.Ok?
    ensures Valid(RunFreg(cfg, s, req, now).1.value)
  {
    hide HexDecode, Lower, Sweep, FregAnswer, ValidUtf8, Valid;
    var f := CheckFreg(req).value;
    TextIsValid(req, "token");
    RegisteredOverRpc(f.token, Expiry(cfg.limits, f, now), []);
  }

  lemma FputSendable(cfg: Config, s: Relay, req: Json, ip: Bytes, tm: PutTimes)
    requires WellFormed(cfg.limits, s.regs.table)
    ensures Sendable(RunFput(cfg, s, req, ip, tm).1)
  {
    hide Admit, Stored, WellFormed, IsWords, Valid, QueuedAnswer;
    QueuedAnswerFlips([]);
    if Admit(cfg, s, req, ip, tm).1.Err? {
      FputWords(cfg, s, req, ip, tm);
    }
  }

  lemma FpopSendable(cfg: Config, s: Relay, req: Json, ip: Bytes, tm: PopTimes)
    ensures Sendable(RunFpop(cfg, s, req, ip, tm).1)
  {
    hide Authorize, PopAnswer, Delivered, Drained, IsWords, Valid;
    var d := Authorize(cfg, s, req, ip, tm).1;
    if d.Err? {
      FpopWords(cfg, s, req, ip, tm);
    } else {
      AtMost64(cfg, s, req, ip, tm);
      PoppedOverRpc(Delivered(s.queues, d.value, tm.drain), []);
    }
  }

  lemma AtMost64(cfg: Config, s: Relay, req: Json, ip: Bytes, tm: PopTimes)
    requires Authorize(cfg, s, req, ip, tm).1.Ok?
    ensures |Delivered(s.queues, Authorize(cfg, s, req, ip, tm).1.value, tm.drain)| <= 64
  {
    hide Touch, Lower, Delivered, Drained;
    DrainExactly(s, Authorize(cfg, s, req, ip, tm).1.value, tm.drain);
  }

  lemma VerbSendable(cfg: Config, s: Relay, m: Rpc2Message, ip: Bytes, clock: Clock)
    requires WellFormed(cfg.limits, s.regs.table) && IsVerb(m.methodName) && Valid(m.payload) && Sane(cfg, clock)
    ensures Sendable(RunVerb(cfg, s, m, ip, clock).1)
  {
    hide RunFreg, RunFput, RunFpop, Ascii, Valid, IsWords, WellFormed;
    FregSendable(cfg, s, m.payload, clock.now);
    FputSendable(cfg, s, m.payload, ip, clock.put);
    FpopSendable(cfg, s, m.payload, ip, clock.pop);
  }

  // --- The handler ---

  /** handle_rpc2_fabric: `relay` is None on a node that did not opt in. */
  ghost function ServeFabric(cfg: Config, relay: Option<Relay>, m: Rpc2Message, ip: Bytes, clock: Clock)
    : (Option<Relay>, Bytes)
    requires relay.Some? ==> WellFormed(cfg.limits, relay.value.regs.table)
    requires m.seqNo < TWO_64 && |m.methodName| < TWO_63 && Valid(m.payload) && Sane(cfg, clock)
  {
    if relay.None? then (None, ErrorResponse(m.seqNo, Ascii("501 fabric disabled")))
    else if !IsVerb(m.methodName) then
      (relay, ErrorResponse(m.seqNo, Ascii("400 bad fabric rpc2 method ") + m.methodName))
    else
      VerbSendable(cfg, relay.value, m, ip, clock);
      var (s', r) := RunVerb(cfg, relay.value, m, ip, clock);
      (Some(s'), ReplyFrame(m.seqNo, r))
  }

  /** The same on the object: the state is updated in place, the frame is written out. */
  method HandleRpc2Fabric(st: FabricState, m: Rpc2Message, ip: Bytes, clock: Clock) returns (frame: Bytes)
    requires st.Valid() && m.seqNo < TWO_64 && |m.methodName| < TWO_63 && Valid(m.payload) && Sane(st.cfg, clock)
    modifies st, st.limiter, st.hold
    ensures st.Valid()
    ensures (Some(st.State()), frame) == ServeFabric(st.cfg, Some(old(st.State())), m, ip, clock)
  {
    hide RunFreg, RunFput, RunFpop, Ascii, Valid, IsWords, WellFormed, ErrorResponse, ToCbor;
    var r: Result<Json>;
    if !IsVerb(m.methodName) {
      return ErrorResponse(m.seqNo, Ascii("400 bad fabric rpc2 method ") + m.methodName);
    }
    VerbSendable(st.cfg, st.State(), m, ip, clock);
    if m.methodName == Ascii("Peer.FabricReg") {
      r := st.Freg(m.payload, clock.now);
    } else if m.methodName == Ascii("Peer.FabricPut") {
      r := st.Fput(m.payload, ip, clock.put);
    } else {
      r := st.Fpop(m.payload, ip, clock.pop);
    }
    frame := ReplyFrame(m.seqNo, r);
  }

  // --- What the client decodes ---

  lemma ReplyReads(seqNo: nat, r: Result<Json>)
    requires seqNo < TWO_64 && Sendable(r) && (r.Ok? ==> Fits(r.value, 0))
    ensures DecodeMessage(ReplyFrame(seqNo, r)) ==
            Some(match r
                 case Ok(v) => Rpc2Message([], seqNo, [], Wire(v))
                 case Err(e) => Rpc2Message([], seqNo, Ascii(e), Null))
    ensures r.Err? ==> Ascii(r.error) != []
  {
    hide DecodeMessage, EncodeMessage, ToCbor, Wire, Fits, DecoderAt, Valid, Reads;
    assert ValidText([]);
    match r {
      case Ok(v) =>
        ValueReads(v, 0);
        CborNotEmpty(v);
        MessageRoundTrip([], seqNo, [], ToCbor(v), Wire(v));
      case Err(e) =>
        AsciiIsUtf8(Ascii(e));
        BareMessageRoundTrip([], seqNo, Ascii(e));
    }
  }

  lemma CborNotEmpty(v: Json)
    requires Valid(v)
    ensures ToCbor(v) != []
  {
    hide Head;
  }

  /** The answers of the verbs, as they come over the wire. */
  lemma VerbAnswers(cfg: Config, s: Relay, m: Rpc2Message, ip: Bytes, clock: Clock)
    requires WellFormed(cfg.limits, s.regs.table) && IsVerb(m.methodName) && Valid(m.payload) && Sane(cfg, clock)
    ensures var r := RunVerb(cfg, s, m, ip, clock).1;
            r.Ok? ==>
              Fits(r.value, 0)
              && Wire(r.value) == if m.methodName == Ascii("Peer.FabricPut") then QueuedAnswer(false) else r.value
  {
    VerbNames();
    hide Ascii, IsWords, WellFormed, Admit, Stored, GatedFreg, CheckFreg, Authorize, Drained, Valid, FregAnswer,
         PopAnswer, Delivered, Wire, Fits, QueuedAnswer;
    var r := RunVerb(cfg, s, m, ip, clock).1;
    if r.Ok? {
      if m.methodName == Ascii("Peer.FabricReg") {
        FregPlain(cfg, s, m.payload, clock.now);
      } else if m.methodName == Ascii("Peer.FabricPut") {
        QueuedFits();
      } else {
        AtMost64(cfg, s, m.payload, ip, clock.pop);
        PopPlain(Delivered(s.queues, Authorize(cfg, s, m.payload, ip, clock.pop).1.value, clock.pop.drain));
      }
    }
  }

  lemma VerbNames()
    ensures Ascii("Peer.FabricReg") != Ascii("Peer.FabricPut") && Ascii("Peer.FabricPop") != Ascii("Peer.FabricPut")
    ensures Ascii("Peer.FabricReg") != Ascii("Peer.FabricPop")
  {
    assert Ascii("Peer.FabricReg")[11] == 82;
    assert Ascii("Peer.FabricPut")[11] == 80 && Ascii("Peer.FabricPut")[12] == 117;
    assert Ascii("Peer.FabricPop")[11] == 80 && Ascii("Peer.FabricPop")[12] == 111;
  }

  lemma PlainSurvives(v: Json)
    requires Valid(v) && DecodeValue(ToCbor(v), 0) == Some(Decoded(v, |ToCbor(v)|))
    ensures Fits(v, 0) && Wire(v) == v
  {
    hide DecoderAt, DecodeValue, Plain, Fits;
    assert ToCbor(v) + [] == ToCbor(v);
    RoundTripExactly(v, 0, []);
    WireIsIdentity(v);
  }

  lemma FregPlain(cfg: Config, s: Relay, req: Json, now: nat)
    requires Valid(req) && now + cfg.limits.maxLease < TWO_64 && RunFreg(cfg, s, req, now).1.Ok?
    ensures var v := RunFreg(cfg, s, req, now).1.value; Fits(v, 0) && Wire(v) == v
  {
    hide HexDecode, Lower, Sweep, FregAnswer, ValidUtf8, Valid, DecodeValue, ToCbor;
    var f := CheckFreg(req).value;
    TextIsValid(req, "token");
    var v := FregAnswer(f.token, Expiry(cfg.limits, f, now));
    RegisteredOverRpc(f.token, Expiry(cfg.limits, f, now), []);
    assert ToCbor(v) + [] == ToCbor(v);
    PlainSurvives(v);
  }

  lemma PopPlain(ps: seq<Pointer>)
    requires |ps| <= 64
    ensures var v := PopAnswer(ps); Fits(v, 0) && Wire(v) == v
  {
    hide PopAnswer, DecodeValue, ToCbor, Valid;
    var v := PopAnswer(ps);
    PoppedOverRpc(ps, []);
    assert ToCbor(v) + [] == ToCbor(v);
    PlainSurvives(v);
  }

  lemma QueuedFits()
    ensures Fits(QueuedAnswer(true), 0) && Wire(QueuedAnswer(true)) == QueuedAnswer(false)
  {
    hide Ascii;
    var fs := Entry(Ascii("queued"), Bool(true), Empty);
    assert FieldsFit(fs.rest, 1) && WireFields(fs.rest) == Empty && Fits(fs.value, 1);
    assert FieldsFit(fs, 1) && WireFields(fs) == Entry(Ascii("queued"), Bool(false), Empty);
  }

  /**
   * Over the wire: every reply decodes to the number of its request and either the words of the refusal in E, without
   * a payload, or the answer of the verb; only that of an fput comes out changed, as {"queued": false}.
   */
  lemma FabricReplies(cfg: Config, relay: Option<Relay>, m: Rpc2Message, ip: Bytes, clock: Clock)
    requires relay.Some? ==> WellFormed(cfg.limits, relay.value.regs.table)
    requires m.seqNo < TWO_64 && ValidUtf8(m.methodName) && |m.methodName| < TWO_63 - 100
    requires Valid(m.payload) && Sane(cfg, clock)
    ensures DecodeMessage(ServeFabric(cfg, relay, m, ip, clock).1) ==
            Some(
              if relay.None? then Rpc2Message([], m.seqNo, Ascii("501 fabric disabled"), Null)
              else if !IsVerb(m.methodName) then
                Rpc2Message([], m.seqNo, Ascii("400 bad fabric rpc2 method ") + m.methodName, Null)
              else
                match RunVerb(cfg, relay.value, m, ip, clock).1
                case Err(e) => Rpc2Message([], m.seqNo, Ascii(e), Null)
                case Ok(v) => Rpc2Message([], m.seqNo, [],
                                          if m.methodName == Ascii("Peer.FabricPut") then QueuedAnswer(false) else v))
    ensures relay.Some? && IsVerb(m.methodName) && RunVerb(cfg, relay.value, m, ip, clock).1.Err? ==>
            Ascii(RunVerb(cfg, relay.value, m, ip, clock).1.error) != []
  {
    hide RunVerb, DecodeMessage, ReplyFrame, Sendable, WellFormed, Valid, Ascii, Fits, Wire, QueuedAnswer, IsVerb,
         EncodeMessage;
    assert ValidText([]);
    if relay.None? {
      Disabled();
      BareMessageRoundTrip([], m.seqNo, Ascii("501 fabric disabled"));
    } else if !IsVerb(m.methodName) {
      BadMethod(m.methodName);
      BareMessageRoundTrip([], m.seqNo, Ascii("400 bad fabric rpc2 method ") + m.methodName);
    } else {
      VerbSendable(cfg, relay.value, m, ip, clock);
      VerbAnswers(cfg, relay.value, m, ip, clock);
      ReplyReads(m.seqNo, RunVerb(cfg, relay.value, m, ip, clock).1);
    }
  }

  lemma Disabled()
    ensures ValidText(Ascii("501 fabric disabled"))
  {
    AsciiText("501 fabric disabled");
  }

  lemma BadMethod(name: Bytes)
    requires ValidUtf8(name) && |name| < TWO_63 - 100
    ensures ValidText(Ascii("400 bad fabric rpc2 method ") + name)
  {
    BadMethodWords();
    hide Ascii, ValidUtf8;
    AsciiBefore(Ascii("400 bad fabric rpc2 method "), name);
  }

  lemma BadMethodWords()
    ensures IsAscii(Ascii("400 bad fabric rpc2 method ")) && |Ascii("400 bad fabric rpc2 method ")| == 27
  {
    AsciiText("400 bad fabric rpc2 method ");
  }

  lemma {:induction false} AsciiBefore(a: Bytes, b: Bytes)
    requires IsAscii(a) && ValidUtf8(b)
    ensures ValidUtf8(a + b)
  {
    if a == [] {
      assert a + b == b;
    } else {
      AsciiBefore(a[1..], b);
      assert (a + b)[1..] == a[1..] + b && (a + b)[0] == a[0];
    }
  }

  /**
   * A drain, end to end: the frame that answers it decodes to the first min(max, live) pointers that were live in
   * the queue, in their order, and what is left of the queue is the rest.
   */
  lemma PoppedOverTheWire(cfg: Config, s: Relay, m: Rpc2Message, ip: Bytes, clock: Clock)
    requires WellFormed(cfg.limits, s.regs.table) && m.seqNo < TWO_64 && Valid(m.payload) && Sane(cfg, clock)
    requires m.methodName == Ascii("Peer.FabricPop") && RunFpop(cfg, s, m.payload, ip, clock.pop).1.Ok?
    ensures StrField(m.payload, "handle").Some?
    ensures var h := Lower(StrField(m.payload, "handle").value);
            var reply := DecodeMessage(ServeFabric(cfg, Some(s), m, ip, clock).1);
            && reply.Some? && reply.value.seqNo == m.seqNo && reply.value.error == []
            && ReadPointers(reply.value.payload) ==
               Some(FirstLive(QueueOf(s.queues, h), clock.pop.drain, Wanted(m.payload)))
  {
    PoppedAnswer(cfg, s, m.payload, ip, clock.pop);
    PopIsServed(cfg, s, m, ip, clock);
    hide RunFpop, DecodeMessage, WellFormed, Valid, ReadPointers, Wanted, FirstLive, Lower, StrField, ServeFabric,
         Ascii;
  }

  /** The reply to a drain carries its answer. */
  lemma PopIsServed(cfg: Config, s: Relay, m: Rpc2Message, ip: Bytes, clock: Clock)
    requires WellFormed(cfg.limits, s.regs.table) && m.seqNo < TWO_64 && Valid(m.payload) && Sane(cfg, clock)
    requires m.methodName == Ascii("Peer.FabricPop") && RunFpop(cfg, s, m.payload, ip, clock.pop).1.Ok?
    ensures |m.methodName| == 14 && DecodeMessage(ServeFabric(cfg, Some(s), m, ip, clock).1) ==
            Some(Rpc2Message([], m.seqNo, [], RunFpop(cfg, s, m.payload, ip, clock.pop).1.value))
  {
    VerbNames();
    PopNameIsText();
    hide RunFpop, RunFput, RunFreg, DecodeMessage, WellFormed, Valid, ServeFabric, Ascii;
    FabricReplies(cfg, Some(s), m, ip, clock);
  }

  lemma PopNameIsText()
    ensures ValidUtf8(Ascii("Peer.FabricPop")) && |Ascii("Peer.FabricPop")| == 14
  {
    AsciiText("Peer.FabricPop");
  }
}
