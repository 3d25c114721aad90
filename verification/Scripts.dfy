/**
 * Streams against peers that refuse: a peer follows a script, one frame for each request, and some of the frames
 * are refusals. What a pull and a push then do is stated over the list, the files and the script alone.
 */
module Scripts {
  import opened Basics
  import opened Text
  import opened Json
  import opened Message
  import opened Builders
  import opened Store
  import opened Sync

  /** The frames that come back, by the place of what was asked for; None is a broken connection. */
  type Script = seq<Option<Bytes>>

  /** The message in a frame. */
  function Said(frame: Option<Bytes>): Option<Rpc2Message> {
    match frame
    case None => None
    case Some(f) => DecodeMessage(f)
  }

  predicate Refuses(frame: Option<Bytes>) {
    Said(frame).Some? && Said(frame).value.error != []
  }

  // --- sync_stream ---

  /** A chain entry [height, c] whose second half is the hex of a digest. */
  predicate Lists(entry: Json, c: Bytes) {
    entry.Arr? && |entry.items| == 2 && entry.items[1] == Str(c) && |c| == 64 && RadixDecode(c).Some?
  }

  /** An entry the loop can pass: two halves, and a text in the second that hex_decode can slice. */
  predicate Passable(entry: Json) {
    entry.Arr? && |entry.items| == 2 && (entry.items[1].Str? ==> !RadixPanics(entry.items[1].text))
  }

  /** The frame is an answer without an error that carries this body in hex. */
  predicate Carries(frame: Option<Bytes>, body: Bytes) {
    && Said(frame).Some? && Said(frame).value.error == [] && Said(frame).value.payload.Str?
    && HexDecode(Said(frame).value.payload.text) == Some(body)
  }

  /** The request for the object that entry `i` lists. */
  function Fetch(i: nat, c: Bytes): Bytes
    requires i < 2000 && |c| == 64 && RadixDecode(c).Some?
  {
    EncodeMessage(Ascii("Peer.GetObject"), 100 + i, [], BlidMap(RadixDecode(c).value))
  }

  /** Entry `i` lists `c`, and the frame for it is no refusal. */
  predicate Offered(entries: seq<Json>, script: Script, i: nat, c: Bytes) {
    i < |entries| == |script| && i < 2000 && Lists(entries[i], c) && !Refuses(script[i])
  }

  /** Entry `i` lists an id that is neither there nor offered by an earlier entry. */
  ghost predicate Wants(files: Bodies, entries: seq<Json>, script: Script, i: nat, c: Bytes) {
    i < |entries| && Lists(entries[i], c) && c !in files && forall j: nat :: j < i ==> !Offered(entries, script, j, c)
  }

  /** Whatever its state, the peer answers the request for entry `i` with frame `i`. */
  ghost predicate Follows<S(!new)>(peer: Peer<S>, files: Bodies, entries: seq<Json>, script: Script) {
    |script| == |entries|
    && forall s: S, i: nat, c: Bytes ::
         i < 2000 && Wants(files, entries, script, i, c) ==> peer(s, Fetch(i, c)).1 == script[i]
  }

  /** Entry `i` can be passed; if its id is wanted, it is refused, or the body of that id comes. */
  ghost predicate Civil(files: Bodies, entries: seq<Json>, script: Script, i: nat) {
    i < |entries| == |script| && Passable(entries[i])
    && forall c :: i < 2000 && Wants(files, entries, script, i, c) ==>
         Refuses(script[i]) || exists body :: Carries(script[i], body) && RadixDecode(c) == Some(Sha256(body))
  }

  /** `files` together with the bodies that came for what the first `k` entries wanted. */
  ghost predicate Gathered(files: Bodies, after: Bodies, entries: seq<Json>, script: Script, k: nat) {
    && |script| == |entries|
    && (forall c :: c in files ==> c in after && after[c] == files[c])
    && (forall c :: c in after && c !in files ==>
          exists i: nat :: i < k && i < 2000 && Wants(files, entries, script, i, c) && Carries(script[i], after[c]))
    && (forall i: nat, c :: i < k && Offered(entries, script, i, c) ==> c in after)
  }

  /** Entry `i` lists an id that is not wanted. */
  ghost predicate Known(files: Bodies, entries: seq<Json>, script: Script, i: nat, c: Bytes) {
    i < |entries| && Lists(entries[i], c) && !Wants(files, entries, script, i, c)
  }

  ghost predicate IsKnown(files: Bodies, entries: seq<Json>, script: Script, i: nat) {
    exists c :: Known(files, entries, script, i, c)
  }

  /** How many of the first `k` entries list an id that was there, or had come, by then. */
  ghost function Present(files: Bodies, entries: seq<Json>, script: Script, k: nat): nat
    requires k <= |entries|
  {
    if k == 0 then 0
    else if IsKnown(files, entries, script, k - 1) then
      Present(files, entries, script, k - 1) + 1
    else Present(files, entries, script, k - 1)
  }

  lemma CivilPassable(files: Bodies, entries: seq<Json>, script: Script, i: nat)
    requires Civil(files, entries, script, i)
    ensures i < |entries| && Passable(entries[i])
  {
  }

  lemma IdOf(entry: Json)
    requires Passable(entry)
    ensures IsPair(entry) && !RadixPanics(BlidText(entry))
    ensures forall c :: Lists(entry, c) <==> DigestOf(BlidText(entry)).Some? && c == BlidText(entry)
    ensures DigestOf(BlidText(entry)).Some? ==>
            Lists(entry, BlidText(entry)) && DigestOf(BlidText(entry)) == RadixDecode(BlidText(entry))
  {
    hide RadixDecode, RadixPanics;
    assert RadixDecode([]) == Some([]) && !RadixPanics([]) by { NothingToDecode(); }
  }

  lemma NothingToDecode()
    ensures RadixDecode([]) == Some([]) && !RadixPanics([])
  {
  }

  /** After the first `k` entries, an id listed next is there exactly when it is not wanted. */
  lemma WantedIsMissing(files: Bodies, after: Bodies, entries: seq<Json>, script: Script, k: nat, c: Bytes)
    requires Gathered(files, after, entries, script, k) && k < |entries| && Lists(entries[k], c)
    ensures Wants(files, entries, script, k, c) <==> c !in after
  {
    hide Lists, Refuses, Carries;
    if Wants(files, entries, script, k, c) && c in after {
      var i: nat :| i < k && i < 2000 && Wants(files, entries, script, i, c) && Carries(script[i], after[c]);
      CarriedIsOffered(entries, script, i, c, after[c]);
      assert false;
    }
  }

  lemma CarriedIsOffered(entries: seq<Json>, script: Script, i: nat, c: Bytes, body: Bytes)
    requires i < |entries| == |script| && i < 2000 && Lists(entries[i], c) && Carries(script[i], body)
    ensures Offered(entries, script, i, c)
  {
    hide Lists, DecodeMessage, HexDecode;
  }

  /** The state of the loop before entry `k`. */
  ghost predicate Midway(files: Bodies, entries: seq<Json>, script: Script, k: nat, after: Bodies, c: Counts) {
    k <= |entries| && Gathered(files, after, entries, script, k)
    && c.moved == |after| - |files| && c.had == Present(files, entries, script, k)
  }

  lemma GatherNothing(files: Bodies, entries: seq<Json>, script: Script, k: nat, after: Bodies)
    requires Gathered(files, after, entries, script, k)
    requires k < |entries| && forall c :: !Offered(entries, script, k, c) || c in after
    ensures Gathered(files, after, entries, script, k + 1)
  {
    hide Offered, Wants, Carries;
  }

  lemma GatherOne(files: Bodies, entries: seq<Json>, script: Script, k: nat, after: Bodies, c: Bytes, body: Bytes)
    requires Gathered(files, after, entries, script, k) && k < |entries| && k < 2000
    requires Wants(files, entries, script, k, c) && c !in after && Carries(script[k], body)
    requires forall d :: Lists(entries[k], d) ==> d == c
    ensures Gathered(files, after[c := body], entries, script, k + 1)
  {
    hide Wants, Carries, Refuses, Lists;
    var next := after[c := body];
    assert c !in files by { WantsMissing(files, entries, script, k, c); }
    forall d | d in next && d !in files
      ensures exists i: nat ::
                i < k + 1 && i < 2000 && Wants(files, entries, script, i, d) && Carries(script[i], next[d])
    {
      if d == c {
        assert Wants(files, entries, script, k, d) && Carries(script[k], next[d]);
      } else {
        var i: nat :| i < k && i < 2000 && Wants(files, entries, script, i, d) && Carries(script[i], after[d]);
        assert Wants(files, entries, script, i, d) && Carries(script[i], next[d]);
      }
    }
  }

  lemma WantsMissing(files: Bodies, entries: seq<Json>, script: Script, i: nat, c: Bytes)
    requires Wants(files, entries, script, i, c)
    ensures c !in files
  {
  }

  /** What the loop makes of the answer to a request. */
  lemma AnswerOf(frame: Option<Bytes>, d: Digest)
    ensures Refuses(frame) ==> Accept(d, Said(frame)) == Ok(None)
    ensures forall body :: Carries(frame, body) && d == Sha256(body) ==> Accept(d, Said(frame)) == Ok(Some(body))
  {
    hide DecodeMessage, HexDecode;
  }

  /** The call for entry `i` brings back the frame of the script. */
  lemma CallFollows<S(!new)>(peer: Peer<S>, s: S, files: Bodies, entries: seq<Json>, script: Script, i: nat, c: Bytes)
    requires Follows(peer, files, entries, script) && i < 2000 && Wants(files, entries, script, i, c)
    ensures |c| == 64 && RadixDecode(c).Some? && |script| == |entries| && i < |script|
    ensures RpcCall(peer, s, "Peer.GetObject", 100 + i, BlidMap(RadixDecode(c).value)).1 == Said(script[i])
  {
    hide RadixDecode, EncodeMessage, DecodeMessage, BlidMap, Offered;
    assert peer(s, Fetch(i, c)).1 == script[i];
  }

  lemma OneId(entry: Json, c: Bytes, d: Bytes)
    requires Lists(entry, c) && Lists(entry, d)
    ensures c == d
  {
  }

  lemma NothingListed(files: Bodies, entries: seq<Json>, script: Script, k: nat, after: Bodies)
    requires Gathered(files, after, entries, script, k) && k < |entries| && forall c :: !Lists(entries[k], c)
    ensures Gathered(files, after, entries, script, k + 1)
    ensures Present(files, entries, script, k + 1) == Present(files, entries, script, k)
  {
    hide Lists, Wants;
    GatherNothing(files, entries, script, k, after);
  }

  lemma OnceListed(files: Bodies, entries: seq<Json>, script: Script, k: nat, after: Bodies, c: Bytes)
    requires Gathered(files, after, entries, script, k) && k < |entries| && Lists(entries[k], c) && c in after
    ensures Gathered(files, after, entries, script, k + 1)
    ensures Present(files, entries, script, k + 1) == Present(files, entries, script, k) + 1
  {
    WantedIsMissing(files, after, entries, script, k, c);
    hide Lists, Wants, Gathered;
    assert Known(files, entries, script, k, c);
    forall d | Offered(entries, script, k, d) ensures d in after {
      OneId(entries[k], c, d);
    }
    GatherNothing(files, entries, script, k, after);
  }

  lemma WantedIsUncounted(files: Bodies, entries: seq<Json>, script: Script, k: nat, c: Bytes)
    requires Wants(files, entries, script, k, c)
    ensures forall d :: Lists(entries[k], d) ==> d == c
    ensures Present(files, entries, script, k + 1) == Present(files, entries, script, k)
  {
    assert Lists(entries[k], c);
    hide Lists, Wants;
    forall d | Lists(entries[k], d) ensures d == c {
      OneId(entries[k], c, d);
    }
  }

  lemma NothingOffered(files: Bodies, entries: seq<Json>, script: Script, k: nat, after: Bodies)
    requires Gathered(files, after, entries, script, k) && k < |entries| && Refuses(script[k])
    ensures Gathered(files, after, entries, script, k + 1)
  {
    hide Lists, Wants, Refuses;
    GatherNothing(files, entries, script, k, after);
  }

  /** One turn of the loop, by the outcome of the call. */
  lemma Turn<S>(peer: Peer<S>, s: S, files: Bodies, entry: Json, i: nat, n: Counts)
    requires IsPair(entry) && !RadixPanics(BlidText(entry)) && i < 2000
    ensures var c := BlidText(entry);
            PullEntry(peer, s, files, entry, i, n) ==
            if DigestOf(c).None? then More(s, files, n)
            else if c in files then More(s, files, n.(had := n.had + 1)) else
            var (s', answer) := RpcCall(peer, s, "Peer.GetObject", 100 + i, BlidMap(DigestOf(c).value));
            match Accept(DigestOf(c).value, answer)
            case Err(e) => Done(Stream(s', files, Err(e)))
            case Ok(None) => More(s', files, n)
            case Ok(Some(body)) => More(s', files[c := body], n.(moved := n.moved + 1))
  {
    hide DigestOf, RadixPanics, RpcCall, BlidMap, Accept, IsPair, BlidText;
  }

  lemma RefusedTurn(files: Bodies, entries: seq<Json>, script: Script, k: nat, after: Bodies, n: Counts, c: Bytes)
    requires Midway(files, entries, script, k, after, n) && Wants(files, entries, script, k, c) && k < |entries|
    requires |script| == |entries| && Refuses(script[k])
    ensures Midway(files, entries, script, k + 1, after, n)
  {
    hide Refuses, Wants, Lists, Gathered, Present;
    WantedIsUncounted(files, entries, script, k, c);
    NothingOffered(files, entries, script, k, after);
  }

  lemma CarriedTurn(files: Bodies, entries: seq<Json>, script: Script, k: nat, after: Bodies, n: Counts, c: Bytes,
                    body: Bytes)
    requires Midway(files, entries, script, k, after, n) && Wants(files, entries, script, k, c) && k < |entries|
    requires |script| == |entries| && k < 2000 && c !in after && Carries(script[k], body)
    ensures Midway(files, entries, script, k + 1, after[c := body], n.(moved := n.moved + 1))
  {
    hide Carries, Wants, Lists, Gathered, Present;
    WantedIsUncounted(files, entries, script, k, c);
    AddCounts(after, c, body);
    GatherOne(files, entries, script, k, after, c, body);
  }

  /** What the answer for a wanted id does to the store and the counts. */
  lemma WantedTurn(files: Bodies, entries: seq<Json>, script: Script, k: nat, after: Bodies, n: Counts, c: Bytes)
    requires Midway(files, entries, script, k, after, n) && Civil(files, entries, script, k)
    requires k < 2000 && Wants(files, entries, script, k, c)
    ensures |c| == 64 && RadixDecode(c).Some? && |script| == |entries| && k < |script| && c !in after
    ensures var r := Accept(RadixDecode(c).value, Said(script[k]));
            && r.Ok? && (r.value.None? ==> Midway(files, entries, script, k + 1, after, n))
            && (r.value.Some? ==> Midway(files, entries, script, k + 1, after[c := r.value.value],
                                         n.(moved := n.moved + 1)))
  {
    WantsListed(files, entries, script, k, c);
    assert |script| == |entries| && Gathered(files, after, entries, script, k);
    hide RadixDecode, Refuses, Carries, Wants, Lists, Accept, Gathered, Passable, Present, Midway, Said;
    WantedIsMissing(files, after, entries, script, k, c);
    AnswerOf(script[k], RadixDecode(c).value);
    if Refuses(script[k]) {
      RefusedTurn(files, entries, script, k, after, n, c);
    } else {
      var body :| Carries(script[k], body) && RadixDecode(c) == Some(Sha256(body));
      CarriedTurn(files, entries, script, k, after, n, c, body);
    }
  }

  lemma WantsListed(files: Bodies, entries: seq<Json>, script: Script, i: nat, c: Bytes)
    requires Wants(files, entries, script, i, c)
    ensures i < |entries| && Lists(entries[i], c) && |c| == 64 && RadixDecode(c).Some?
  {
    hide RadixDecode;
  }

  /** One turn of the loop over an entry whose id is wanted. */
  lemma AskedTurn<S(!new)>(peer: Peer<S>, s: S, files: Bodies, entries: seq<Json>, script: Script, k: nat,
                           after: Bodies, n: Counts, c: Bytes) returns (s': S, after': Bodies, n': Counts)
    requires Follows(peer, files, entries, script) && k < |entries| && k < 2000
    requires Midway(files, entries, script, k, after, n) && Civil(files, entries, script, k)
    requires Wants(files, entries, script, k, c) && Passable(entries[k]) && c == BlidText(entries[k])
    ensures PullEntry(peer, s, after, entries[k], k, n) == More(s', after', n') && n'.height == n.height
    ensures Midway(files, entries, script, k + 1, after', n')
  {
    IdOf(entries[k]);
    WantsListed(files, entries, script, k, c);
    Turn(peer, s, after, entries[k], k, n);
    hide RadixDecode, RadixPanics, BlidMap, Wants, Lists, RpcCall, Accept, BlidText, IsPair, Passable, DigestOf,
         PullEntry, Follows, Said, Midway, Civil;
    CallFollows(peer, s, files, entries, script, k, c);
    WantedTurn(files, entries, script, k, after, n, c);
    var (s1, answer) := RpcCall(peer, s, "Peer.GetObject", 100 + k, BlidMap(DigestOf(c).value));
    var r := Accept(DigestOf(c).value, answer).value;
    s' := s1;
    after', n' := if r.None? then after else after[c := r.value], if r.None? then n else n.(moved := n.moved + 1);
  }

  /** One turn of the loop over an entry that lists nothing, or an id that is there. */
  lemma PassedTurn<S>(peer: Peer<S>, s: S, files: Bodies, entries: seq<Json>, script: Script, k: nat,
                      after: Bodies, n: Counts) returns (n': Counts)
    requires k < |entries| && k < 2000 && Midway(files, entries, script, k, after, n) && Passable(entries[k])
    requires DigestOf(BlidText(entries[k])).None? || BlidText(entries[k]) in after
    ensures PullEntry(peer, s, after, entries[k], k, n) == More(s, after, n') && n'.height == n.height
    ensures Midway(files, entries, script, k + 1, after, n')
  {
    var c := BlidText(entries[k]);
    IdOf(entries[k]);
    Turn(peer, s, after, entries[k], k, n);
    hide RadixDecode, RadixPanics, BlidMap, Lists, RpcCall, Accept, BlidText, IsPair, Passable, DigestOf, PullEntry,
         Gathered, Present;
    if DigestOf(c).None? {
      n' := n;
      NothingListed(files, entries, script, k, after);
    } else {
      n' := n.(had := n.had + 1);
      OnceListed(files, entries, script, k, after, c);
    }
  }

  /** One turn of the loop over an entry that it can pass, below the cap. */
  lemma PullTurn<S(!new)>(peer: Peer<S>, s: S, files: Bodies, entries: seq<Json>, script: Script, k: nat,
                          after: Bodies, n: Counts) returns (s': S, after': Bodies, n': Counts)
    requires Follows(peer, files, entries, script) && k < |entries| && k < 2000
    requires Midway(files, entries, script, k, after, n) && Civil(files, entries, script, k)
    ensures PullEntry(peer, s, after, entries[k], k, n) == More(s', after', n') && n'.height == n.height
    ensures Midway(files, entries, script, k + 1, after', n')
  {
    CivilPassable(files, entries, script, k);
    IdOf(entries[k]);
    var c := BlidText(entries[k]);
    assert Gathered(files, after, entries, script, k);
    hide RadixDecode, RadixPanics, Wants, Lists, BlidText, IsPair, Passable, DigestOf, PullEntry, Follows, Midway,
         Civil, Gathered;
    if DigestOf(c).None? || c in after {
      n' := PassedTurn(peer, s, files, entries, script, k, after, n);
      s', after' := s, after;
    } else {
      WantedIsMissing(files, after, entries, script, k, c);
      s', after', n' := AskedTurn(peer, s, files, entries, script, k, after, n, c);
    }
  }

  /** The loop gets past any entries that can be passed, up to the cap, and has gathered what was offered. */
  lemma {:induction false} PullReaches<S(!new)>(peer: Peer<S>, s: S, files: Bodies, entries: seq<Json>, script: Script,
                                                height: nat, k: nat)
    returns (s': S, after: Bodies, n: Counts)
    requires Follows(peer, files, entries, script) && k <= |entries| && k <= 2000
    requires forall i: nat :: i < k ==> Civil(files, entries, script, i)
    ensures PullFrom(peer, s, files, entries, 0, Counts(height, 0, 0)) == PullFrom(peer, s', after, entries, k, n)
    ensures Midway(files, entries, script, k, after, n) && n.height == height
  {
    if k == 0 {
      s', after, n := s, files, Counts(height, 0, 0);
    } else {
      var s1, after1, n1 := PullReaches(peer, s, files, entries, script, height, k - 1);
      hide Follows, Civil, Midway, PullEntry, PullFrom;
      assert Civil(files, entries, script, k - 1);
      s', after, n := PullTurn(peer, s1, files, entries, script, k - 1, after1, n1);
      PullNext(peer, s1, after1, entries, k - 1, n1);
    }
  }

  /** Beyond the cap nothing is asked for: the loop counts what is there and stops at what is not. */
  lemma {:induction false} PullTail<S>(peer: Peer<S>, s: S, files: Bodies, entries: seq<Json>, k: nat, n: Counts)
    requires 2000 <= k <= |entries| && forall i :: k <= i < |entries| ==> Passable(entries[i])
    ensures var r := PullFrom(peer, s, files, entries, k, n);
            r.files == files && r.outcome.Ok? && r.outcome.value.height == n.height && r.outcome.value.moved == n.moved
    decreases |entries| - k
  {
    hide PullEntry, PullFrom, Passable;
    if k == |entries| {
      PullEnd(peer, s, files, entries, n);
    } else {
      PullNext(peer, s, files, entries, k, n);
      LateTurn(peer, s, files, entries[k], k, n);
      var p := PullEntry(peer, s, files, entries[k], k, n);
      if p.More? {
        PullTail(peer, p.peer, p.files, entries, k + 1, p.counts);
      }
    }
  }

  lemma LateTurn<S>(peer: Peer<S>, s: S, files: Bodies, entry: Json, i: nat, n: Counts)
    requires Passable(entry) && i >= 2000
    ensures var p := PullEntry(peer, s, files, entry, i, n);
            if p.Done? then p.stream == Stream(s, files, Ok(n))
            else p.peer == s && p.files == files && p.counts in {n, n.(had := n.had + 1)}
  {
    IdOf(entry);
    hide Passable, RadixPanics, DigestOf, RpcCall, BlidText, IsPair;
  }

  lemma GatheredBeyond(files: Bodies, after: Bodies, entries: seq<Json>, script: Script, k: nat)
    requires Gathered(files, after, entries, script, 2000) && 2000 <= k
    ensures Gathered(files, after, entries, script, k)
  {
    hide Wants, Refuses, Carries, Lists;
  }

  /**
   * A pull from a peer that refuses some of what it lists ends well: the store has every file it had, and the body
   * that came for each id among the first 2000 entries that was missing and not refused, and nothing else; the count
   * is the number of bodies. Refused ids, ids that are no digests and ids that are there are passed over.
   */
  lemma PullPastRefusals<S(!new)>(peer: Peer<S>, s: S, files: Bodies, entries: seq<Json>, script: Script, height: nat)
    requires Follows(peer, files, entries, script)
    requires forall i: nat :: i < |entries| ==> Civil(files, entries, script, i)
    ensures var r := PullFrom(peer, s, files, entries, 0, Counts(height, 0, 0));
            && r.outcome.Ok? && r.outcome.value.height == height
            && r.outcome.value.moved == |r.files| - |files|
            && Gathered(files, r.files, entries, script, |entries|)
            && (|entries| <= 2000 ==> r.outcome.value.had == Present(files, entries, script, |entries|))
  {
    var k := Min(|entries|, 2000);
    var s', after, n := PullReaches(peer, s, files, entries, script, height, k);
    if k == |entries| {
      PullEnd(peer, s', after, entries, n);
    } else {
      hide Follows, Civil, Passable, PullFrom, Gathered;
      forall i | k <= i < |entries| ensures Passable(entries[i]) {
        assert Civil(files, entries, script, i);
        CivilPassable(files, entries, script, i);
      }
      GatheredBeyond(files, after, entries, script, |entries|);
      PullTail(peer, s', after, entries, k, n);
    }
  }

  /** The frame ends the pull with `e`: nothing came, or no text, or no hex, or not the body of the id. */
  predicate Spoils(frame: Option<Bytes>, c: Bytes, e: string) {
    var m := Said(frame);
    if m.None? then e == "get failed"
    else if m.value.error != [] then false
    else if !m.value.payload.Str? then e == "object payload not bytes"
    else if HexDecode(m.value.payload.text).None? then e == "object payload not hex"
    else
      RadixDecode(c) != Some(Sha256(HexDecode(m.value.payload.text).value)) && e == "body sha256 != blid (tampered)"
  }

  /** Entry `k` ends the pull with `e`: by its form, by a text that cannot be sliced, or by what comes for it. */
  ghost predicate Fatal(files: Bodies, entries: seq<Json>, script: Script, k: nat, e: string) {
    k < |entries| == |script|
    && if !entries[k].Arr? || |entries[k].items| != 2 then e == "chain entry must be [topoheight, blid]"
       else if entries[k].items[1].Str? && RadixPanics(entries[k].items[1].text) then e == PANIC
       else exists c :: Wants(files, entries, script, k, c) && Spoils(script[k], c, e)
  }

  lemma SpoiledAnswer(frame: Option<Bytes>, c: Bytes, e: string)
    requires |c| == 64 && RadixDecode(c).Some? && Spoils(frame, c, e)
    ensures Accept(RadixDecode(c).value, Said(frame)) == Err(e)
  {
    hide DecodeMessage, HexDecode, RadixDecode;
  }

  lemma MalformedTurn<S>(peer: Peer<S>, s: S, files: Bodies, entry: Json, i: nat, n: Counts, e: string)
    requires if !entry.Arr? || |entry.items| != 2 then e == "chain entry must be [topoheight, blid]"
             else entry.items[1].Str? && RadixPanics(entry.items[1].text) && e == PANIC
    ensures PullEntry(peer, s, files, entry, i, n) == Done(Stream(s, files, Err(e)))
  {
    hide RadixPanics, DigestOf, RpcCall;
  }

  lemma SpoiledTurn<S(!new)>(peer: Peer<S>, s: S, files: Bodies, entries: seq<Json>, script: Script, k: nat,
                             after: Bodies, n: Counts, c: Bytes, e: string) returns (s': S)
    requires Follows(peer, files, entries, script) && k < |entries| == |script| && k < 2000
    requires Midway(files, entries, script, k, after, n) && Passable(entries[k])
    requires Wants(files, entries, script, k, c) && Spoils(script[k], c, e)
    ensures PullEntry(peer, s, after, entries[k], k, n) == Done(Stream(s', after, Err(e)))
  {
    IdOf(entries[k]);
    WantsListed(files, entries, script, k, c);
    assert c == BlidText(entries[k]) && DigestOf(c) == RadixDecode(c);
    Turn(peer, s, after, entries[k], k, n);
    hide RadixDecode, RadixPanics, BlidMap, Refuses, Carries, Wants, Lists, RpcCall, Accept, BlidText, IsPair, Gathered,
         Passable, DigestOf, PullEntry, Present, Follows, Said, Spoils;
    WantedIsMissing(files, after, entries, script, k, c);
    CallFollows(peer, s, files, entries, script, k, c);
    SpoiledAnswer(script[k], c, e);
    s' := RpcCall(peer, s, "Peer.GetObject", 100 + k, BlidMap(DigestOf(c).value)).0;
  }

  /** The first entry that spoils a pull ends it there, with what was gathered before. */
  lemma PullEnds<S(!new)>(peer: Peer<S>, s: S, files: Bodies, entries: seq<Json>, script: Script, height: nat, k: nat,
                          e: string)
    requires Follows(peer, files, entries, script) && k < 2000 && Fatal(files, entries, script, k, e)
    requires forall i: nat :: i < k ==> Civil(files, entries, script, i)
    ensures var r := PullFrom(peer, s, files, entries, 0, Counts(height, 0, 0));
            r.outcome == Err(e) && Gathered(files, r.files, entries, script, k)
  {
    hide Civil, Follows, PullFrom, PullEntry, RadixPanics, Wants, Spoils, Gathered, Lists;
    var s1, after, n := PullReaches(peer, s, files, entries, script, height, k);
    PullNext(peer, s1, after, entries, k, n);
    if Passable(entries[k]) {
      var c :| Wants(files, entries, script, k, c) && Spoils(script[k], c, e);
      var s2 := SpoiledTurn(peer, s1, files, entries, script, k, after, n, c, e);
    } else {
      MalformedTurn(peer, s1, after, entries[k], k, n, e);
    }
  }

  // --- Every peer follows a script ---

  /** The peer without a state that answers request 100 + i with frame i. */
  function Prompt(script: Script): Peer<()> {
    (u, request) => ((), Cue(script, DecodeMessage(request)))
  }

  function Cue(script: Script, m: Option<Rpc2Message>): Option<Bytes> {
    if m.Some? && 100 <= m.value.seqNo < 100 + |script| then script[m.value.seqNo - 100] else None
  }

  lemma PromptAnswers(script: Script, i: nat, d: Digest)
    requires i < |script| && i < 2000
    ensures Prompt(script)((), EncodeMessage(Ascii("Peer.GetObject"), 100 + i, [], BlidMap(d))) == ((), script[i])
  {
    hide DecodeMessage, EncodeMessage, BlidMap;
    NameIsText();
    BlidRoundTrip(Ascii("Peer.GetObject"), 100 + i, [], d);
  }

  lemma NameIsText()
    ensures ValidText(Ascii("Peer.GetObject")) && ValidText([])
  {
    AsciiText("Peer.GetObject");
  }

  /** The frame that comes for entry `i`, if it is asked for. */
  function Heard<S>(peer: Peer<S>, s: S, files: Bodies, entry: Json, i: nat): Option<Bytes> {
    match Consider(files, entry, i)
    case Ask(d) => peer(s, EncodeMessage(Ascii("Peer.GetObject"), 100 + i, [], BlidMap(d))).1
    case _ => None
  }

  /** The frames that a pull from `peer` receives from entry i on, each at the place of its entry. */
  function Spoken<S>(peer: Peer<S>, s: S, files: Bodies, entries: seq<Json>, i: nat, n: Counts): (script: Script)
    requires i <= |entries|
    ensures |script| == |entries| - i
    decreases |entries| - i
  {
    if i == |entries| then [] else
    [Heard(peer, s, files, entries[i], i)] +
    match PullEntry(peer, s, files, entries[i], i, n)
    case Done(_) => seq(|entries| - i - 1, _ => None)
    case More(s', files', n') => Spoken(peer, s', files', entries, i + 1, n')
  }

  lemma PromptedEntry<S>(peer: Peer<S>, s: S, files: Bodies, entry: Json, i: nat, n: Counts, script: Script)
    requires i < |script| && script[i] == Heard(peer, s, files, entry, i)
    ensures var p, q := PullEntry(peer, s, files, entry, i, n), PullEntry(Prompt(script), (), files, entry, i, n);
            && (p.More? <==> q.More?) && (p.More? ==> q == More((), p.files, p.counts))
            && (p.Done? ==> q.stream.files == p.stream.files && q.stream.outcome == p.stream.outcome)
  {
    hide Accept, BlidMap, BlidText, Prompt, EncodeMessage, DecodeMessage;
    var asked := Consider(files, entry, i);
    if asked.Ask? {
      assert i < 2000;
      PromptAnswers(script, i, asked.blid);
    }
  }

  lemma {:induction false} PromptedFrom<S>(peer: Peer<S>, s: S, files: Bodies, entries: seq<Json>, i: nat, n: Counts,
                                           script: Script)
    requires i <= |entries| == |script| && script[i..] == Spoken(peer, s, files, entries, i, n)
    ensures var p, q := PullFrom(peer, s, files, entries, i, n), PullFrom(Prompt(script), (), files, entries, i, n);
            q.files == p.files && q.outcome == p.outcome
    decreases |entries| - i
  {
    hide PullEntry, Heard, Prompt;
    if i < |entries| {
      var spoken := Spoken(peer, s, files, entries, i, n);
      assert script[i] == spoken[0] && script[i + 1..] == spoken[1..];
      PromptedEntry(peer, s, files, entries[i], i, n, script);
      var p := PullEntry(peer, s, files, entries[i], i, n);
      if p.More? {
        PromptedFrom(peer, p.peer, p.files, entries, i + 1, p.counts, script);
      }
    }
  }

  /**
   * No generality is lost by scripts: whatever a peer does, and whatever its answers depend on, the pull from it is
   * the pull from a peer that follows the script of the frames it sent.
   */
  lemma EveryPeerFollowsAScript<S>(peer: Peer<S>, s: S, files: Bodies, entries: seq<Json>, n: Counts)
    ensures var script := Spoken(peer, s, files, entries, 0, n);
            var p, q := PullFrom(peer, s, files, entries, 0, n), PullFrom(Prompt(script), (), files, entries, 0, n);
            Follows(Prompt(script), files, entries, script) && q.files == p.files && q.outcome == p.outcome
  {
    hide PullFrom, Prompt, RadixDecode, BlidMap, EncodeMessage, Wants, Lists;
    var script := Spoken(peer, s, files, entries, 0, n);
    assert script[0..] == script;
    PromptedFrom(peer, s, files, entries, 0, n, script);
    forall u: (), i: nat, c: Bytes | i < 2000 && Wants(files, entries, script, i, c)
      ensures |c| == 64 && RadixDecode(c).Some? && i < |script| && Prompt(script)(u, Fetch(i, c)).1 == script[i]
    {
      WantsListed(files, entries, script, i, c);
      PromptAnswers(script, i, RadixDecode(c).value);
      assert u == ();
    }
  }
}
