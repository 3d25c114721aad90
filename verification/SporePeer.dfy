/** The store and the sync loops as the program runs them: files and counters updated in place (src/spore_peer.rs). */
module SporePeer {
  import opened Basics
  import opened Text
  import opened Json
  import opened Cbor
  import opened Message
  import opened Builders
  import opened Limiter
  import opened Store
  import opened Sync

  /** chain_view: the listed names that are digests, oldest first; None when hex_decode panics over a name. */
  method ReadChain(order: seq<Bytes>) returns (chain: Option<seq<Digest>>)
    ensures chain == ChainOf(order)
  {
    hide DigestOf, RadixPanics;
    var view: seq<Digest> := [];
    for i := 0 to |order|
      invariant view == ChainView(order[..i])
      invariant forall j :: 0 <= j < i && |order[j]| == 64 ==> !RadixPanics(order[j])
    {
      assert order[..i + 1][..i] == order[..i];
      if |order[i]| == 64 {
        if RadixPanics(order[i]) {
          return None;
        }
        var d := DigestOf(order[i]);
        if d.Some? {
          view := view + [d.value];
        }
      }
    }
    assert order[..|order|] == order;
    chain := Some(view);
  }

  /** The Peer.Chain arm: walk down from the tip, newest first. */
  method WalkDown(view: seq<Digest>, top: nat, n: nat) returns (selected: seq<ChainEntry>)
    ensures selected == Select(view, |view|, top, n, 0)
  {
    hide Select, Midway;
    selected := [];
    var h: nat := |view|;
    WalkStarts(view, top, n);
    while h > 0
      invariant h <= |view| && Midway(view, h, top, n, selected)
    {
      WalkStep(view, h, top, n, selected);
      h := h - 1;
      if top != 0 && h > top {
        continue;
      }
      selected := selected + [ChainEntry(h, view[h])];
      if |selected| == n {
        return;
      }
    }
    WalkEnds(view, top, n, selected);
  }

  /** What is selected so far, and what the rest of the walk adds, is the specified selection. */
  ghost predicate Midway(view: seq<Digest>, h: nat, top: nat, n: nat, selected: seq<ChainEntry>) {
    h <= |view| && selected + Select(view, h, top, n, |selected|) == Select(view, |view|, top, n, 0)
  }

  lemma WalkStarts(view: seq<Digest>, top: nat, n: nat)
    ensures Midway(view, |view|, top, n, [])
  {
    hide Select;
  }

  lemma WalkEnds(view: seq<Digest>, top: nat, n: nat, selected: seq<ChainEntry>)
    requires Midway(view, 0, top, n, selected)
    ensures selected == Select(view, |view|, top, n, 0)
  {
    assert Select(view, 0, top, n, |selected|) == [];
    hide Select;
  }

  /** One turn of the walk. */
  lemma WalkStep(view: seq<Digest>, h: nat, top: nat, n: nat, selected: seq<ChainEntry>)
    requires 0 < h <= |view| && Midway(view, h, top, n, selected)
    ensures var next := selected + [ChainEntry(h - 1, view[h - 1])];
            if top != 0 && h - 1 > top then Midway(view, h - 1, top, n, selected)
            else if |next| == n then next == Select(view, |view|, top, n, 0)
            else Midway(view, h - 1, top, n, next)
  {
    SelectStep(view, h, top, n, |selected|);
    hide Select;
    Regroup(selected, ChainEntry(h - 1, view[h - 1]), Select(view, h - 1, top, n, |selected| + 1));
  }

  lemma Regroup<T>(a: seq<T>, e: T, b: seq<T>)
    ensures a + ([e] + b) == a + [e] + b && |a + [e]| == |a| + 1
  {
  }

  lemma SelectStep(view: seq<Digest>, h: nat, top: nat, n: nat, taken: nat)
    requires 0 < h <= |view|
    ensures var e := ChainEntry(h - 1, view[h - 1]);
            Select(view, h, top, n, taken) ==
            if top != 0 && h - 1 > top then Select(view, h - 1, top, n, taken)
            else if taken + 1 == n then [e]
            else [e] + Select(view, h - 1, top, n, taken + 1)
  {
  }

  lemma {:induction false} BadEntry(entries: seq<Json>, i: nat)
    requires i < |entries| && !IsPair(entries[i])
    ensures PeerHas(entries) == Err("chain entry must be [topoheight, blid]")
  {
    var n := |entries| - 1;
    if i < n {
      BadEntry(entries[..n], i);
    }
  }

  /** The ids in the peer's list. */
  method ReadPeerHas(entries: seq<Json>) returns (r: Result<set<Bytes>>)
    ensures r == PeerHas(entries)
  {
    var names := {};
    for i := 0 to |entries|
      invariant PeerHas(entries[..i]) == Ok(names)
    {
      if !IsPair(entries[i]) {
        BadEntry(entries, i);
        return Err("chain entry must be [topoheight, blid]");
      }
      assert entries[..i + 1][..i] == entries[..i];
      names := names + {BlidText(entries[i])};
    }
    assert entries[..|entries|] == entries;
    r := Ok(names);
  }

  lemma GetFits(files: Bodies, cid: Bytes)
    requires Readable(files) && ServeBody(files, cid).Ok?
    ensures |ServeBody(files, cid).value| < TWO_63
  {
  }

  class BodyStore {
    var files: Bodies

    constructor ()
      ensures files == map[]
    {
      files := map[];
    }

    method StoreBody(body: Bytes) returns (r: Result<Bytes>)
      modifies this
      ensures (files, r) == Store.StoreBody(old(files), body)
    {
      if |body| == 0 {
        return Err("400 empty body");
      }
      if |body| > MAX_BODY {
        return Err("413 body too large");
      }
      var cid := HexEncode(Sha256(body));
      if cid !in files {
        files := files[cid := body];
      }
      r := Ok(cid);
    }

    method EnforceWritePolicy(p: Policy, limiter: RateLimiter, who: Caller, bodyLen: nat, payload: Json)
      returns (r: Result<()>)
      requires limiter.Valid() && limiter.max == p.putRate
      modifies limiter
      ensures limiter.Valid()
      ensures (limiter.wins, r) == Gate(p, old(limiter.wins), who, bodyLen, payload)
    {
      var ok := limiter.Allow(who.ip, who.now);
      if !ok {
        return Err("429 put rate limit exceeded");
      }
      if p.token.Some? {
        var same := CtEq(StrOrEmpty(payload, "TOKEN"), p.token.value);
        if !same {
          return Err("401 bad write token");
        }
      }
      if p.maxStoreBytes > 0 {
        if Min(who.used + bodyLen, TWO_64 - 1) > p.maxStoreBytes {
          return Err("507 store full");
        }
      }
      r := Ok(());
    }

    method PutObject(p: Policy, limiter: RateLimiter, who: Caller, payload: Json) returns (r: Option<Result<Bytes>>)
      requires limiter.Valid() && limiter.max == p.putRate
      modifies this, limiter
      ensures limiter.Valid()
      ensures (files, limiter.wins, r) == Store.PutObject(p, old(limiter.wins), who, old(files), payload)
    {
      hide DigestOf, HexDecode, RadixPanics, Gate, Store.StoreBody;
      var body := HexDecode(StrOrEmpty(payload, "BODY"));
      if body.None? {
        return Some(Err("400 body not valid hex"));
      }
      var gate := EnforceWritePolicy(p, limiter, who, |body.value|, payload);
      if gate.Err? {
        return Some(Err(gate.error));
      }
      if RadixPanics(StrOrEmpty(payload, "BLID")) {
        return None;
      }
      if DigestOf(StrOrEmpty(payload, "BLID")) != Some(Sha256(body.value)) {
        return Some(Err("400 body sha256 != BLID"));
      }
      var stored := StoreBody(body.value);
      r := Some(stored);
    }

    /** The four arms of handle_rpc2; `order` is how the directory lists now. */
    method HandleRpc2(p: Policy, limiter: RateLimiter, who: Caller, order: seq<Bytes>, m: Rpc2Message)
      returns (frame: Option<Bytes>)
      requires limiter.Valid() && limiter.max == p.putRate
      requires Readable(files) && |order| < TWO_63 && m.seqNo < TWO_64
      modifies this, limiter
      ensures limiter.Valid()
      ensures Reply(files, limiter.wins, frame) == Handle(p, old(limiter.wins), who, old(files), order, m)
    {
      hide Ascii, DigestOf, ServeBody, Store.PutObject, ChainOf, Select, EncodeMessage, HandshakeResponse,
           ChainResponse, BlidMap, Refusal, Readable, RadixPanics;
      if m.methodName == Ascii("Peer.Handshake") {
        var view := ReadChain(order);
        if view.None? {
          return None;
        }
        frame := Some(EncodeMessage([], m.seqNo, [], HandshakeResponse(|view.value|, 1)));
      } else if m.methodName == Ascii("Peer.Chain") {
        var t, n := U64Field(m.payload, "TOP"), U64Field(m.payload, "N");
        var view := ReadChain(order);
        if view.None? {
          return None;
        }
        var selected := WalkDown(view.value, if t.Some? then t.value else 0,
                                 Min(if n.Some? then n.value else 128, 5000));
        frame := Some(EncodeMessage([], m.seqNo, [], ChainResponse(selected)));
      } else if m.methodName == Ascii("Peer.GetObject") {
        if RadixPanics(StrOrEmpty(m.payload, "BLID")) {
          return None;
        }
        var body := ServeBody(files, StrOrEmpty(m.payload, "BLID"));
        if body.Err? {
          return Some(Refusal(m.seqNo, body.error));
        }
        GetFits(files, StrOrEmpty(m.payload, "BLID"));
        frame := Some(EncodeMessage([], m.seqNo, [], BytesItem(body.value)));
      } else if m.methodName == Ascii("Peer.PutObject") {
        var outcome := PutObject(p, limiter, who, m.payload);
        if outcome.None? {
          return None;
        }
        var stored := outcome.value;
        if stored.Err? {
          return Some(Refusal(m.seqNo, stored.error));
        }
        var blid: Digest := seq(32, _ => 0);
        var d := DigestOf(stored.value);
        if d.Some? {
          blid := d.value;
        }
        frame := Some(EncodeMessage([], m.seqNo, [], BlidMap(blid)));
      } else {
        frame := Some(Refusal(m.seqNo, "501 unknown method"));
      }
    }

    /** sync_stream: one pass over the peer's chain list. */
    method SyncStream<S>(peer: Peer<S>, s: S) returns (s': S, outcome: Result<Counts>)
      modifies this
      ensures Stream(s', files, outcome) == PullStream(peer, s, old(files))
    {
      hide RpcCall, OpenStream, DigestOf, HexDecode, RadixPanics, BlidMap, PullFrom;
      var (s1, start) := OpenStream(peer, s);
      s' := s1;
      if start.Err? {
        return s', Err(start.error);
      }
      var (height, entries) := start.value;
      var fetched, have := 0, 0;
      for i := 0 to |entries|
        invariant PullFrom(peer, s', files, entries, i, Counts(height, fetched, have)) ==
          PullStream(peer, s, old(files))
      {
        PullNext(peer, s', files, entries, i, Counts(height, fetched, have));
        if !IsPair(entries[i]) {
          return s', Err("chain entry must be [topoheight, blid]");
        }
        var blidHex := BlidText(entries[i]);
        if RadixPanics(blidHex) {
          return s', Err(PANIC);
        }
        var expected := DigestOf(blidHex);
        if expected.None? {
          continue;
        }
        if blidHex in files {
          have := have + 1;
          continue;
        }
        if i >= MAX_MOVES {
          return s', Ok(Counts(height, fetched, have));
        }
        var (s2, obj) := RpcCall(peer, s', "Peer.GetObject", 100 + i, BlidMap(expected.value));
        s' := s2;
        if obj.None? {
          return s', Err("get failed");
        }
        if obj.value.error != [] {
          continue;
        }
        if !obj.value.payload.Str? {
          return s', Err("object payload not bytes");
        }
        var body := HexDecode(obj.value.payload.text);
        if body.None? {
          return s', Err("object payload not hex");
        }
        if Sha256(body.value) != expected.value {
          return s', Err("body sha256 != blid (tampered)");
        }
        files := files[blidHex := body.value];
        fetched := fetched + 1;
      }
      PullEnd(peer, s', files, entries, Counts(height, fetched, have));
      outcome := Ok(Counts(height, fetched, have));
    }

    /** push_stream: every local body the peer did not list, oldest first. */
    method PushAll<S>(peer: Peer<S>, s: S, order: seq<Bytes>, token: Bytes) returns (s': S, outcome: Result<Counts>)
      requires |token| < TWO_63
      ensures Stream(s', files, outcome) == PushStream(peer, s, files, order, token)
    {
      hide RpcCall, OpenStream, PeerHas, ChainOf, PutObjectRequest, HexEncode, Mentions, StrOrEmpty, Ascii;
      var (s1, start) := OpenStream(peer, s);
      s' := s1;
      if start.Err? {
        return s', Err(start.error);
      }
      var (height, entries) := start.value;
      var names := ReadPeerHas(entries);
      if names.Err? {
        return s', Err(names.error);
      }
      var chain := ReadChain(order);
      if chain.None? {
        return s', Err(PANIC);
      }
      var view := chain.value;
      var pushed, attempted := 0, 0;
      for k := 0 to |view|
        invariant PushFrom(peer, s', files, view, k, names.value, token, attempted, pushed)
                  == PushFrom(peer, s1, files, view, 0, names.value, token, 0, 0)
      {
        var name := HexEncode(view[k]);
        if name in names.value {
          continue;
        }
        if attempted >= MAX_MOVES {
          return s', Ok(Counts(height, pushed, |names.value|));
        }
        if name !in files || |files[name]| >= TWO_63 {
          return s', Err("read failed");
        }
        attempted := attempted + 1;
        if Sha256(files[name]) != view[k] {
          continue;
        }
        var request := PutObjectRequest(view[k], files[name], token);
        var (s2, resp) := RpcCall(peer, s', "Peer.PutObject", 200 + attempted, request);
        s' := s2;
        if resp.None? {
          return s', Err("put failed");
        }
        if resp.value.error != [] {
          if Mentions(resp.value.error, Ascii("401")) {
            return s', Err("write token rejected by peer");
          }
          continue;
        }
        if StrOrEmpty(resp.value.payload, "BLID") != name {
          return s', Err("peer stored different hash");
        }
        pushed := pushed + 1;
      }
      outcome := Ok(Counts(height, pushed, |names.value|));
    }

    /**
     * sync_pass: pull, then push, peer by peer; a failing or dead peer is counted and skipped, and a panic
     * ends the pass.
     */
    method SyncPass<S>(conn: nat -> Peer<S>, look: nat -> Lister, peers: seq<Option<S>>)
      returns (after: seq<Option<S>>, ok: nat, failed: nat, transferred: nat, ended: bool)
      modifies this
      ensures PassState(files, after, ok, failed, transferred, ended) == Pass(conn, look, old(files), peers)
    {
      hide PullStream, PushStream;
      after, ok, failed, transferred, ended := [], 0, 0, 0, false;
      for i := 0 to |peers|
        invariant PassState(files, after, ok, failed, transferred, false) == Pass(conn, look, old(files), peers[..i])
      {
        assert peers[..i + 1][..i] == peers[..i];
        if peers[i].None? {
          failed := failed + 1;
          after := after + [None];
          continue;
        }
        var s1, pull := SyncStream(conn(i), peers[i].value);
        if pull.Err? {
          after := after + [Some(s1)];
          if pull.error == PANIC {
            EndedPass(conn, look, old(files), peers, i + 1);
            return after + peers[i + 1..], ok, failed, transferred, true;
          }
          failed := failed + 1;
          continue;
        }
        var s2, push := PushAll(conn(i), s1, look(i)(files), []);
        after := after + [Some(s2)];
        if push.Err? {
          if push.error == PANIC {
            EndedPass(conn, look, old(files), peers, i + 1);
            return after + peers[i + 1..], ok, failed, transferred, true;
          }
          failed := failed + 1;
        } else {
          ok := ok + 1;
          transferred := transferred + pull.value.moved + push.value.moved;
        }
      }
      assert peers[..|peers|] == peers;
    }
  }
}
