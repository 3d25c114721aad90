/** The content-addressed body store and the rpc2 server over it (src/spore_peer.rs). */
module Store {
  import opened Basics
  import opened Text
  import opened Json
  import opened Cbor
  import opened Message
  import opened Builders
  import opened Limiter

  /** `<stem>.body` files, by stem. */
  type Bodies = map<Bytes, Bytes>

  /** 32 MiB. */
  const MAX_BODY: nat := 33554432

  function CidOf(body: Bytes): (c: Bytes)
    ensures |c| == 64
  {
    HexEncode(Sha256(body))
  }

  // --- store_body and serve_body ---

  /** A body is stored under the hash computed here, never under a name from outside. */
  function StoreBody(files: Bodies, body: Bytes): (Bodies, Result<Bytes>) {
    if body == [] then (files, Err("400 empty body"))
    else if |body| > MAX_BODY then (files, Err("413 body too large"))
    else if CidOf(body) in files then (files, Ok(CidOf(body)))
    else (files[CidOf(body) := body], Ok(CidOf(body)))
  }

  function DigestOf(cid: Bytes): (r: Option<Bytes>)
    ensures r.Some? ==> |r.value| == 32
  {
    match RadixDecode(cid)
    case Some(d) => if |d| == 32 then Some(d) else None
    case None => None
  }

  function ServeBody(files: Bodies, cid: Bytes): Result<Bytes> {
    if DigestOf(cid).None? then Err("400 bad cid")
    else if cid !in files then Err("404 not found")
    else if Sha256(files[cid]) != DigestOf(cid).value then Err("500 cid mismatch")
    else Ok(files[cid])
  }

  /** Every file holds the body its name is the digest of. */
  ghost predicate Sound(files: Bodies) {
    forall c :: c in files ==> DigestOf(c) == Some(Sha256(files[c]))
  }

  /** `after` has every file of `before`, unchanged. */
  ghost predicate Grows(before: Bodies, after: Bodies) {
    forall c :: c in before ==> c in after && after[c] == before[c]
  }

  lemma CidDigest(body: Bytes)
    ensures DigestOf(CidOf(body)) == Some(Sha256(body))
  {
    hide HexEncode, RadixDecode;
    HexRoundTrip(Sha256(body));
  }

  lemma StoreKeepsSound(files: Bodies, body: Bytes)
    ensures Grows(files, StoreBody(files, body).0)
    ensures Sound(files) ==> Sound(StoreBody(files, body).0)
    ensures StoreBody(files, body).1.Ok? ==> StoreBody(files, body).1.value in StoreBody(files, body).0
  {
    hide DigestOf, CidOf;
    CidDigest(body);
  }

  /** A store of verified files serves each of them under every name it is asked by, and nothing else. */
  lemma ServedExactly(files: Bodies, cid: Bytes, body: Bytes)
    requires Sound(files)
    ensures ServeBody(files, cid) == Ok(body) <==> cid in files && files[cid] == body
    ensures ServeBody(files, cid) == Ok(body) ==> DigestOf(cid) == Some(Sha256(body))
  {
    hide DigestOf;
  }

  // --- The fetch protocol ---

  function FrameOk(body: Bytes): Bytes {
    [0] + body
  }

  /** The error text of the peer is not kept. */
  function ParseFetch(resp: Bytes, cid: Bytes): Result<Bytes> {
    match DigestOf(cid)
    case None => Err("bad cid hex")
    case Some(expected) =>
      if Sha256(resp) == expected then Ok(resp)
      else if resp != [] && resp[0] == 0 then
        if Sha256(resp[1..]) != expected then Err("body sha256 does not match cid (tampered)") else Ok(resp[1..])
      else if resp != [] && resp[0] == 1 then Err("peer error")
      else Err("body sha256 does not match cid (tampered)")
  }

  /**
   * Whatever the peer sends: a body is accepted exactly when it has the digest asked for and came either raw
   * or, unless the raw reading also has that digest, after a status byte of 0.
   */
  lemma FetchedExactly(resp: Bytes, cid: Bytes, body: Bytes)
    ensures ParseFetch(resp, cid) == Ok(body) <==>
            DigestOf(cid) == Some(Sha256(body))
            && (resp == body || (resp == FrameOk(body) && Sha256(resp) != Sha256(body)))
  {
    hide DigestOf;
    assert FrameOk(body)[1..] == body;
    if resp != [] && resp[0] == 0 {
      assert resp == FrameOk(resp[1..]);
    }
  }

  /** A raw legacy frame parses to its body, whatever its first byte. */
  lemma LegacyFrameParses(body: Bytes)
    ensures ParseFetch(body, CidOf(body)) == Ok(body)
  {
    hide CidOf, DigestOf;
    CidDigest(body);
  }

  /** A status-prefixed frame parses to its body exactly when the prefix does not collide with it. */
  lemma StatusFrameParsesExactly(body: Bytes)
    ensures ParseFetch(FrameOk(body), CidOf(body)) == Ok(body) <==> Sha256(FrameOk(body)) != Sha256(body)
  {
    hide CidOf, DigestOf;
    CidDigest(body);
    assert FrameOk(body)[1..] == body;
    assert |FrameOk(body)| == |body| + 1;
  }

  /** What a node answers to a fetch, as the client reads it: the body, or an error. */
  lemma FetchRoundTrip(files: Bodies, cid: Bytes)
    requires ServeBody(files, cid).Ok?
    requires Sha256(FrameOk(files[cid])) != Sha256(files[cid])
    ensures ParseFetch(FrameOk(ServeBody(files, cid).value), cid) == Ok(files[cid])
  {
    hide DigestOf;
    assert FrameOk(files[cid])[1..] == files[cid];
  }

  // --- The store as a ledger ---

  /** A directory listing by modification time, ties in any order. */
  ghost predicate IsListing(order: seq<Bytes>, files: Bodies) {
    (forall c :: c in order <==> c in files)
    && (forall i, j :: 0 <= i < j < |order| ==> order[i] != order[j])
    && |order| < TWO_63
  }

  /** chain_view: the digests of the listed names that are 64 hex digits; heights are positions. */
  function ChainView(order: seq<Bytes>): (v: seq<Digest>)
    ensures |v| <= |order|
  {
    if order == [] then [] else
    var last := order[|order| - 1];
    ChainView(order[..|order| - 1]) + if |last| == 64 && DigestOf(last).Some? then [DigestOf(last).value] else []
  }

  /** chain_view runs hex_decode over every name of 64 bytes, and some it cannot slice. */
  predicate ListingPanics(order: seq<Bytes>) {
    exists i :: 0 <= i < |order| && |order[i]| == 64 && RadixPanics(order[i])
  }

  /** What chain_view returns, when it returns. */
  function ChainOf(order: seq<Bytes>): (v: Option<seq<Digest>>)
    ensures v.Some? ==> |v.value| <= |order|
  {
    if ListingPanics(order) then None else Some(ChainView(order))
  }

  /** Entries from `view[..end]`, newest first, heights at most `top` unless it is 0, stopping at `n`. */
  function Select(view: seq<Digest>, end: nat, top: nat, n: nat, taken: nat): (r: seq<ChainEntry>)
    requires end <= |view|
    ensures |r| <= end && forall i :: 0 <= i < |r| ==> r[i].height < end
  {
    if end == 0 then []
    else if top != 0 && end - 1 > top then Select(view, end - 1, top, n, taken)
    else
      var e := ChainEntry(end - 1, view[end - 1]);
      if taken + 1 == n then [e] else [e] + Select(view, end - 1, top, n, taken + 1)
  }

  /** How many of the oldest entries a walk down from `top` passes; 0 means from the tip. */
  function Eligible(end: nat, top: nat): nat {
    if top == 0 then end else Min(end, top + 1)
  }

  /** The `m` entries below height `k`, newest first. */
  function Newest(view: seq<Digest>, k: nat, m: nat): (r: seq<ChainEntry>)
    requires m <= k <= |view|
    ensures |r| == m
  {
    seq(m, j requires 0 <= j < m => ChainEntry(k - 1 - j, view[k - 1 - j]))
  }

  function UpTo(k: nat, n: nat, taken: nat): (m: nat)
    requires n == 0 || taken <= n
    ensures m <= k
  {
    if n == 0 then k else Min(k, n - taken)
  }

  lemma NewestNext(view: seq<Digest>, k: nat, m: nat)
    requires 0 < m <= k <= |view|
    ensures Newest(view, k, m) == [ChainEntry(k - 1, view[k - 1])] + Newest(view, k - 1, m - 1)
  {
  }

  lemma {:induction false} SelectFrom(view: seq<Digest>, end: nat, top: nat, n: nat, taken: nat)
    requires end <= |view| && (n == 0 || taken < n)
    ensures var k := Eligible(end, top);
            Select(view, end, top, n, taken) == Newest(view, k, UpTo(k, n, taken))
  {
    hide Newest;
    if end == 0 {
    } else if top != 0 && end - 1 > top {
      SelectFrom(view, end - 1, top, n, taken);
    } else {
      var k := Eligible(end, top);
      NewestNext(view, k, UpTo(k, n, taken));
      if taken + 1 != n {
        SelectFrom(view, end - 1, top, n, taken + 1);
      }
    }
  }

  /**
   * A chain answer: the entries at heights up to `top`, newest first, `n` of them if there are; all of them
   * for n = 0.
   */
  lemma SelectExactly(view: seq<Digest>, top: nat, n: nat)
    ensures var r, k := Select(view, |view|, top, n, 0), Eligible(|view|, top);
            |r| == (if n == 0 then k else Min(k, n))
            && forall j :: 0 <= j < |r| ==> r[j] == ChainEntry(k - 1 - j, view[k - 1 - j])
  {
    SelectFrom(view, |view|, top, n, 0);
    hide Select;
  }

  // --- The rpc2 server ---

  /** Write policy: 0 means unlimited; no token means open. */
  datatype Policy = Policy(maxStoreBytes: nat, putRate: nat, token: Option<Bytes>)

  const OPEN := Policy(0, 0, None)

  /** Who asks, when, and the bytes the store holds by the walk of store_bytes. */
  datatype Caller = Caller(ip: Bytes, now: nat, used: nat)

  /** enforce_write_policy: rate, then token, then quota; the sum saturates. */
  function Gate(p: Policy, wins: Windows, who: Caller, bodyLen: nat, payload: Json): (Windows, Result<()>) {
    var (wins', ok) := Touch(p.putRate, wins, Call(who.ip, who.now));
    if !ok then (wins', Err("429 put rate limit exceeded"))
    else if p.token.Some? && StrOrEmpty(payload, "TOKEN") != p.token.value then (wins', Err("401 bad write token"))
    else if p.maxStoreBytes > 0 && Min(who.used + bodyLen, TWO_64 - 1) > p.maxStoreBytes then
      (wins', Err("507 store full"))
    else (wins', Ok(()))
  }

  /**
   * A PutObject: the server recomputes the digest and stores under what it computed. None: the handler
   * panics over the block id, and answers nothing.
   */
  function PutObject(p: Policy, wins: Windows, who: Caller, files: Bodies, payload: Json)
    : (Bodies, Windows, Option<Result<Bytes>>)
  {
    match HexDecode(StrOrEmpty(payload, "BODY"))
    case None => (files, wins, Some(Err("400 body not valid hex")))
    case Some(body) =>
      var (wins', gate) := Gate(p, wins, who, |body|, payload);
      if gate.Err? then (files, wins', Some(Err(gate.error)))
      else if RadixPanics(StrOrEmpty(payload, "BLID")) then (files, wins', None)
      else if DigestOf(StrOrEmpty(payload, "BLID")) != Some(Sha256(body)) then
        (files, wins', Some(Err("400 body sha256 != BLID")))
      else
        var (files', r) := StoreBody(files, body);
        (files', wins', Some(r))
  }

  predicate MayWrite(p: Policy, wins: Windows, who: Caller, bodyLen: nat, payload: Json) {
    && Touch(p.putRate, wins, Call(who.ip, who.now)).1
    && (p.token.Some? ==> StrOrEmpty(payload, "TOKEN") == p.token.value)
    && (p.maxStoreBytes > 0 ==> Min(who.used + bodyLen, TWO_64 - 1) <= p.maxStoreBytes)
  }

  /**
   * A PutObject is accepted exactly when its body is hex, the policy lets it through, BLID is the digest
   * of the body, and the body has 1 byte to 32 MiB. It then adds that body under that digest, if it is
   * not there; otherwise nothing is stored. It gets no answer exactly when a BLID that hex_decode cannot
   * slice comes with a body that the policy lets through.
   */
  lemma PutAcceptedExactly(p: Policy, wins: Windows, who: Caller, files: Bodies, payload: Json)
    ensures var (files', wins', r) := PutObject(p, wins, who, files, payload);
            var body := HexDecode(StrOrEmpty(payload, "BODY"));
            && (Accepted(r) <==> (body.Some? && MayWrite(p, wins, who, |body.value|, payload)
                                  && DigestOf(StrOrEmpty(payload, "BLID")) == Some(Sha256(body.value))
                                  && 1 <= |body.value| <= MAX_BODY))
            && (Accepted(r) ==> r.value.value == CidOf(body.value) && files'.Keys == files.Keys + {CidOf(body.value)})
            && (!Accepted(r) ==> files' == files)
            && (r.None? <==> (body.Some? && MayWrite(p, wins, who, |body.value|, payload)
                              && RadixPanics(StrOrEmpty(payload, "BLID"))))
  {
    RadixSafe(StrOrEmpty(payload, "BLID"));
    hide HexDecode, RadixDecode, RadixPanics, Touch, CidOf;
  }

  predicate Accepted(r: Option<Result<Bytes>>) {
    r.Some? && r.value.Ok?
  }

  /** A node's store and rate windows, and the frame it answers with; None when the handler panics. */
  datatype Reply = Reply(files: Bodies, wins: Windows, frame: Option<Bytes>)

  predicate Readable(files: Bodies) {
    forall c :: c in files ==> |files[c]| < TWO_63
  }

  /** handle_rpc2: the four methods of the sync subset. */
  function Handle(p: Policy, wins: Windows, who: Caller, files: Bodies, order: seq<Bytes>, m: Rpc2Message): Reply
    requires Readable(files) && |order| < TWO_63 && m.seqNo < TWO_64
  {
    if m.methodName == Ascii("Peer.Handshake") then
      match ChainOf(order)
      case None => Reply(files, wins, None)
      case Some(view) => Reply(files, wins, Some(EncodeMessage([], m.seqNo, [], HandshakeResponse(|view|, 1))))
    else if m.methodName == Ascii("Peer.Chain") then
      var top := match U64Field(m.payload, "TOP") case Some(n) => n case None => 0;
      var n := Min(match U64Field(m.payload, "N") case Some(n) => n case None => 128, 5000);
      match ChainOf(order)
      case None => Reply(files, wins, None)
      case Some(view) =>
        Reply(files, wins, Some(EncodeMessage([], m.seqNo, [], ChainResponse(Select(view, |view|, top, n, 0)))))
    else if m.methodName == Ascii("Peer.GetObject") then
      if RadixPanics(StrOrEmpty(m.payload, "BLID")) then Reply(files, wins, None) else
      match ServeBody(files, StrOrEmpty(m.payload, "BLID"))
      case Ok(body) => Reply(files, wins, Some(EncodeMessage([], m.seqNo, [], BytesItem(body))))
      case Err(e) => Reply(files, wins, Some(Refusal(m.seqNo, e)))
    else if m.methodName == Ascii("Peer.PutObject") then
      var (files', wins', r) := PutObject(p, wins, who, files, m.payload);
      match r
      case None => Reply(files', wins', None)
      case Some(Ok(cid)) =>
        var blid: Digest := match DigestOf(cid) case Some(d) => d case None => seq(32, _ => 0);
        Reply(files', wins', Some(EncodeMessage([], m.seqNo, [], BlidMap(blid))))
      case Some(Err(e)) => Reply(files', wins', Some(Refusal(m.seqNo, e)))
    else Reply(files, wins, Some(Refusal(m.seqNo, "501 unknown method")))
  }

  function Refusal(seqNo: nat, e: string): Bytes
    requires seqNo < TWO_64
  {
    if |e| < 1000 then ErrorResponse(seqNo, Ascii(e)) else ErrorResponse(seqNo, [])
  }

  /** Whatever request arrives, a sound store stays sound and loses nothing. */
  lemma ServerKeepsStore(p: Policy, wins: Windows, who: Caller, files: Bodies, order: seq<Bytes>, m: Rpc2Message)
    requires Readable(files) && |order| < TWO_63 && m.seqNo < TWO_64
    ensures var files' := Handle(p, wins, who, files, order, m).files;
            Grows(files, files') && (Sound(files) ==> Sound(files'))
  {
    hide ChainOf, Select, ServeBody, Gate, EncodeMessage, ChainResponse, HandshakeResponse, BlidMap, StoreBody,
         DigestOf, HexDecode, RadixPanics, Ascii, Sound, Grows;
    SameGrows(files);
    if HexDecode(StrOrEmpty(m.payload, "BODY")).Some? {
      StoreKeepsSound(files, HexDecode(StrOrEmpty(m.payload, "BODY")).value);
    }
  }

  lemma SameGrows(files: Bodies)
    ensures Grows(files, files)
  {
  }
}
