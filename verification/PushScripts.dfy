/**
 * Pushes to peers that refuse: what is sent, what each answer leads to, and what is counted, over the listing, the
 * files and a script of answers.
 */
module PushScripts {
  import opened Basics
  import opened Text
  import opened Json
  import opened Message
  import opened Builders
  import opened Store
  import opened Sync
  import opened Scripts

  // --- push_stream ---

  /** The ids of the local ledger that the peer did not list, oldest first: one attempt each. */
  function Missing(view: seq<Digest>, has: set<Bytes>): (ids: seq<Digest>)
    ensures |ids| <= |view|
  {
    if view == [] then [] else
    var last := view[|view| - 1];
    Missing(view[..|view| - 1], has) + if HexEncode(last) in has then [] else [last]
  }

  predicate Readable(files: Bodies, d: Digest) {
    HexEncode(d) in files && |files[HexEncode(d)]| < TWO_63
  }

  /** The local file is the body of its id; another is never sent. */
  predicate Intact(files: Bodies, d: Digest) {
    Readable(files, d) && Sha256(files[HexEncode(d)]) == d
  }

  /** Attempt number `a`: the id, the body and, if there is one, the token, in request 201 + a. */
  function Offer(a: nat, d: Digest, body: Bytes, token: Bytes): Bytes
    requires a < 2000 && |body| < TWO_63 && |token| < TWO_63
  {
    EncodeMessage(Ascii("Peer.PutObject"), 201 + a, [], PutObjectRequest(d, body, token))
  }

  /** Whatever its state, the peer answers attempt `a` with frame `a`. */
  ghost predicate Obeys<S(!new)>(peer: Peer<S>, files: Bodies, ids: seq<Digest>, token: Bytes, script: Script)
    requires |token| < TWO_63
  {
    |script| == |ids|
    && forall s: S, a: nat ::
         a < |ids| && a < 2000 && Intact(files, ids[a]) ==>
         peer(s, Offer(a, ids[a], files[HexEncode(ids[a])], token)).1 == script[a]
  }

  /** The three characters 401, anywhere in a text. */
  predicate Has401(e: Bytes) {
    exists i :: 0 <= i <= |e| - 3 && Is401(e, i)
  }

  predicate Is401(e: Bytes, i: nat) {
    i + 3 <= |e| && e[i] == 52 && e[i + 1] == 48 && e[i + 2] == 49
  }

  /** The peer names the id as stored. */
  predicate Takes(frame: Option<Bytes>, d: Digest) {
    Said(frame).Some? && Said(frame).value.error == []
    && StrField(Said(frame).value.payload, "BLID") == Some(HexEncode(d))
  }

  /** A refusal, but not of the write token. */
  predicate Declines(frame: Option<Bytes>) {
    Said(frame).Some? && Said(frame).value.error != [] && !Has401(Said(frame).value.error)
  }

  /** The answer ends the push with `e`. */
  predicate Breaks(frame: Option<Bytes>, d: Digest, e: string) {
    var m := Said(frame);
    if m.None? then e == "put failed"
    else if m.value.error != [] then Has401(m.value.error) && e == "write token rejected by peer"
    else StrField(m.value.payload, "BLID") != Some(HexEncode(d)) && e == "peer stored different hash"
  }

  /** Attempt `a` does not end the push: the file is read, and sent only if it is intact, then taken or declined. */
  predicate GoesOn(files: Bodies, ids: seq<Digest>, script: Script, a: nat) {
    a < |ids| == |script| && Readable(files, ids[a])
    && (Intact(files, ids[a]) ==> Takes(script[a], ids[a]) || Declines(script[a]))
  }

  /** How many of the first `k` attempts were taken. */
  function Taken(files: Bodies, ids: seq<Digest>, script: Script, k: nat): nat
    requires k <= |ids| == |script|
  {
    if k == 0 then 0
    else if Intact(files, ids[k - 1]) && Takes(script[k - 1], ids[k - 1]) then Taken(files, ids, script, k - 1) + 1
    else Taken(files, ids, script, k - 1)
  }

  /** str::contains, on the text the push looks for. */
  lemma {:induction false} Mentions401(e: Bytes)
    ensures Mentions(e, Ascii("401")) <==> Has401(e)
  {
    assert Ascii("401") == [52, 48, 49];
    if |e| < 3 {
      ShortMentionsNothing(e);
    } else {
      Mentions401(e[1..]);
      assert Ascii("401") <= e <==> Is401(e, 0);
      assert forall i :: 0 <= i <= |e[1..]| - 3 ==> (Is401(e[1..], i) <==> Is401(e, i + 1));
      if Has401(e) && !Is401(e, 0) {
        var i :| 0 <= i <= |e| - 3 && Is401(e, i);
        assert Is401(e[1..], i - 1);
      }
    }
  }

  lemma {:induction false} ShortMentionsNothing(e: Bytes)
    requires |e| < 3
    ensures !Mentions(e, [52, 48, 49])
  {
    if e != [] {
      ShortMentionsNothing(e[1..]);
    }
  }

  lemma AnswerToPut(frame: Option<Bytes>, d: Digest)
    ensures Takes(frame, d) ==> Stored(HexEncode(d), Said(frame)) == Ok(true)
    ensures Declines(frame) ==> Stored(HexEncode(d), Said(frame)) == Ok(false)
    ensures !(Takes(frame, d) && Declines(frame))
  {
    if Said(frame).Some? {
      Mentions401(Said(frame).value.error);
    }
    hide HexEncode, Said, Mentions, Has401, StrField, Ascii;
  }

  lemma BrokenAnswer(frame: Option<Bytes>, d: Digest, e: string)
    requires Breaks(frame, d, e)
    ensures Stored(HexEncode(d), Said(frame)) == Err(e)
  {
    if Said(frame).Some? && Said(frame).value.error != [] {
      hide HexEncode, Said, Mentions, Has401, StrField, Ascii, StrOrEmpty;
      Mentions401(Said(frame).value.error);
    } else {
      hide HexEncode, Said, Mentions, Has401, Get, Ascii;
      assert |HexEncode(d)| == 64;
    }
  }

  // --- The loop over the listing ---

  lemma MissingNext(view: seq<Digest>, has: set<Bytes>, k: nat)
    requires k < |view|
    ensures Missing(view[..k + 1], has) == Missing(view[..k], has) + if HexEncode(view[k]) in has then [] else [view[k]]
  {
    hide HexEncode;
    assert view[..k + 1][..k] == view[..k];
  }

  /** The attempts made over a part of the listing are the first ones. */
  lemma {:induction false} MissingPrefix(view: seq<Digest>, has: set<Bytes>, k: nat)
    requires k <= |view|
    ensures |Missing(view[..k], has)| <= |Missing(view, has)|
    ensures Missing(view, has)[..|Missing(view[..k], has)|] == Missing(view[..k], has)
    decreases |view| - k
  {
    hide Missing;
    if k == |view| {
      assert view[..k] == view;
    } else {
      MissingNext(view, has, k);
      MissingPrefix(view, has, k + 1);
      var short, long, all := Missing(view[..k], has), Missing(view[..k + 1], has), Missing(view, has);
      assert all[..|short|] == all[..|long|][..|short|] == short;
    }
  }

  /** Where attempt `a` stands in the listing. */
  lemma {:induction false} AttemptAt(view: seq<Digest>, has: set<Bytes>, a: nat) returns (k: nat)
    requires a < |Missing(view, has)|
    ensures k < |view| && |Missing(view[..k], has)| == a && HexEncode(view[k]) !in has
    ensures Missing(view, has)[a] == view[k]
  {
    var n := |view| - 1;
    assert view[..n + 1] == view;
    MissingNext(view, has, n);
    if a < |Missing(view[..n], has)| {
      k := AttemptAt(view[..n], has, a);
      assert view[..n][..k] == view[..k];
    } else {
      k := n;
    }
  }

  /** One turn of the loop, by the outcome of the call. */
  lemma PushTurn<S>(peer: Peer<S>, s: S, files: Bodies, d: Digest, has: set<Bytes>, token: Bytes, a: nat, n: nat)
    requires |token| < TWO_63
    ensures var name := HexEncode(d);
            PushEntry(peer, s, files, d, has, token, a, n) ==
            if name in has then Next(s, a, n)
            else if a >= 2000 then Over(s, Ok(n))
            else if !Readable(files, d) then Over(s, Err("read failed"))
            else if !Intact(files, d) then Next(s, a + 1, n)
            else
              var (s', answer) := RpcCall(peer, s, "Peer.PutObject", 201 + a, PutObjectRequest(d, files[name], token));
              match Stored(name, answer)
              case Err(e) => Over(s', Err(e))
              case Ok(stored) => Next(s', a + 1, if stored then n + 1 else n)
  {
    hide HexEncode, RpcCall, PutObjectRequest, Stored;
  }

  /** The call for attempt `a` brings back the frame of the script. */
  lemma CallObeys<S(!new)>(peer: Peer<S>, s: S, files: Bodies, ids: seq<Digest>, token: Bytes, script: Script, a: nat)
    requires |token| < TWO_63 && Obeys(peer, files, ids, token, script)
    requires a < |ids| && a < 2000 && Intact(files, ids[a])
    ensures |script| == |ids| && a < |script|
    ensures RpcCall(peer, s, "Peer.PutObject", 201 + a, PutObjectRequest(ids[a], files[HexEncode(ids[a])], token)).1
            == Said(script[a])
  {
    hide EncodeMessage, DecodeMessage, PutObjectRequest, HexEncode;
    assert peer(s, Offer(a, ids[a], files[HexEncode(ids[a])], token)).1 == script[a];
  }

  /** The loop before listing entry `k`: so many attempts made, so many taken. */
  predicate Reached(files: Bodies, view: seq<Digest>, has: set<Bytes>, script: Script, k: nat, a: nat, n: nat) {
    k <= |view| && a == |Missing(view[..k], has)| && a <= |Missing(view, has)| == |script|
    && n == Taken(files, Missing(view, has), script, a)
  }

  lemma AttemptTurn<S(!new)>(peer: Peer<S>, s: S, files: Bodies, ids: seq<Digest>, has: set<Bytes>, token: Bytes,
                             script: Script, a: nat, n: nat) returns (s': S, n': nat)
    requires |token| < TWO_63 && Obeys(peer, files, ids, token, script) && a < |ids| == |script| && a < 2000
    requires HexEncode(ids[a]) !in has && GoesOn(files, ids, script, a) && n == Taken(files, ids, script, a)
    ensures PushEntry(peer, s, files, ids[a], has, token, a, n) == Next(s', a + 1, n')
    ensures n' == Taken(files, ids, script, a + 1)
  {
    PushTurn(peer, s, files, ids[a], has, token, a, n);
    hide EncodeMessage, DecodeMessage, PutObjectRequest, HexEncode, PushEntry, Stored, Takes, Declines, RpcCall, Obeys,
         Said, Readable;
    if Intact(files, ids[a]) {
      CallObeys(peer, s, files, ids, token, script, a);
      AnswerToPut(script[a], ids[a]);
      s' := RpcCall(peer, s, "Peer.PutObject", 201 + a,
                    PutObjectRequest(ids[a], files[HexEncode(ids[a])], token)).0;
      n' := if Takes(script[a], ids[a]) then n + 1 else n;
    } else {
      s', n' := s, n;
    }
  }

  lemma PushFromNext<S>(peer: Peer<S>, s: S, files: Bodies, view: seq<Digest>, k: nat, has: set<Bytes>, token: Bytes,
                        a: nat, n: nat)
    requires k < |view| && |token| < TWO_63
    ensures var p := PushEntry(peer, s, files, view[k], has, token, a, n);
            PushFrom(peer, s, files, view, k, has, token, a, n) ==
            if p.Over? then (p.peer, p.outcome)
            else PushFrom(peer, p.peer, files, view, k + 1, has, token, p.attempted, p.pushed)
  {
    hide PushEntry;
  }

  /** One listing entry further, while the attempts go on. */
  lemma ReachNext<S(!new)>(peer: Peer<S>, s: S, files: Bodies, view: seq<Digest>, has: set<Bytes>, token: Bytes,
                           script: Script, k: nat, a: nat, n: nat) returns (s': S, a': nat, n': nat)
    requires |token| < TWO_63 && Obeys(peer, files, Missing(view, has), token, script)
    requires k < |view| && |Missing(view[..k + 1], has)| <= 2000 && Reached(files, view, has, script, k, a, n)
    requires HexEncode(view[k]) !in has ==> GoesOn(files, Missing(view, has), script, a)
    ensures PushFrom(peer, s, files, view, k, has, token, a, n) ==
            PushFrom(peer, s', files, view, k + 1, has, token, a', n')
    ensures Reached(files, view, has, script, k + 1, a', n')
  {
    var ids := Missing(view, has);
    hide Obeys, GoesOn, PushFrom, PushEntry, Missing, HexEncode, Taken, Stored;
    MissingNext(view, has, k);
    MissingPrefix(view, has, k + 1);
    PushFromNext(peer, s, files, view, k, has, token, a, n);
    if HexEncode(view[k]) in has {
      PushTurn(peer, s, files, view[k], has, token, a, n);
      s', a', n' := s, a, n;
    } else {
      assert ids[a] == Missing(view[..k + 1], has)[a] == view[k];
      s', n' := AttemptTurn(peer, s, files, ids, has, token, script, a, n);
      a' := a + 1;
    }
  }

  /** The loop gets past every attempt that goes on, up to the cap. */
  lemma {:induction false} PushReaches<S(!new)>(peer: Peer<S>, s: S, files: Bodies, view: seq<Digest>, has: set<Bytes>,
                                                token: Bytes, script: Script, k: nat)
    returns (s': S, a: nat, n: nat)
    requires |token| < TWO_63 && Obeys(peer, files, Missing(view, has), token, script)
    requires k <= |view| && |Missing(view[..k], has)| <= 2000
    requires forall i: nat :: i < |Missing(view[..k], has)| ==> GoesOn(files, Missing(view, has), script, i)
    ensures PushFrom(peer, s, files, view, 0, has, token, 0, 0) == PushFrom(peer, s', files, view, k, has, token, a, n)
    ensures Reached(files, view, has, script, k, a, n)
  {
    hide Obeys, GoesOn, PushFrom, HexEncode;
    if k == 0 {
      assert Missing(view[..0], has) == [];
      assert |script| == |Missing(view, has)| by { ObeyedLength(peer, files, Missing(view, has), token, script); }
      s', a, n := s, 0, 0;
    } else {
      hide Missing, Taken;
      MissingNext(view, has, k - 1);
      var s1, a1, n1 := PushReaches(peer, s, files, view, has, token, script, k - 1);
      s', a, n := ReachNext(peer, s1, files, view, has, token, script, k - 1, a1, n1);
    }
  }

  lemma ObeyedLength<S(!new)>(peer: Peer<S>, files: Bodies, ids: seq<Digest>, token: Bytes, script: Script)
    requires |token| < TWO_63 && Obeys(peer, files, ids, token, script)
    ensures |script| == |ids|
  {
  }

  /**
   * A push against a peer that refuses some of what it is offered ends well: every missing id is attempted, up to
   * 2000, the intact ones are sent with the token, and the count is how many of them the peer took.
   */
  lemma PushPastRefusals<S(!new)>(peer: Peer<S>, s: S, files: Bodies, view: seq<Digest>, has: set<Bytes>, token: Bytes,
                                  script: Script)
    requires |token| < TWO_63 && Obeys(peer, files, Missing(view, has), token, script)
    requires forall i: nat :: i < |Missing(view, has)| && i < 2000 ==> GoesOn(files, Missing(view, has), script, i)
    ensures var ids := Missing(view, has);
            PushFrom(peer, s, files, view, 0, has, token, 0, 0).1 ==
              Ok(Taken(files, ids, script, if |ids| < 2000 then |ids| else 2000))
  {
    hide Obeys, GoesOn, PushEntry, Missing, HexEncode, Taken;
    var ids := Missing(view, has);
    assert view[..|view|] == view;
    if |ids| <= 2000 {
      var s1, a, n := PushReaches(peer, s, files, view, has, token, script, |view|);
    } else {
      var k := AttemptAt(view, has, 2000);
      MissingPrefix(view, has, k);
      var s1, a, n := PushReaches(peer, s, files, view, has, token, script, k);
      hide PushFrom;
      PushFromNext(peer, s1, files, view, k, has, token, a, n);
      PushTurn(peer, s1, files, view[k], has, token, a, n);
    }
  }

  /** The first attempt that breaks a push ends it: an answer that breaks it, or a file that cannot be read. */
  lemma PushEnds<S(!new)>(peer: Peer<S>, s: S, files: Bodies, view: seq<Digest>, has: set<Bytes>, token: Bytes,
                          script: Script, i: nat, e: string)
    requires |token| < TWO_63 && Obeys(peer, files, Missing(view, has), token, script)
    requires i < |Missing(view, has)| == |script| && i < 2000
    requires forall j: nat :: j < i ==> GoesOn(files, Missing(view, has), script, j)
    requires if !Readable(files, Missing(view, has)[i]) then e == "read failed"
             else Intact(files, Missing(view, has)[i]) && Breaks(script[i], Missing(view, has)[i], e)
    ensures PushFrom(peer, s, files, view, 0, has, token, 0, 0).1 == Err(e)
  {
    hide Obeys, GoesOn, PushEntry, Missing, HexEncode, Taken, PushFrom, Breaks, Readable, Said, RpcCall, Stored,
         PutObjectRequest;
    var k := AttemptAt(view, has, i);
    MissingPrefix(view, has, k);
    var s1, a, n := PushReaches(peer, s, files, view, has, token, script, k);
    PushFromNext(peer, s1, files, view, k, has, token, a, n);
    PushTurn(peer, s1, files, view[k], has, token, a, n);
    if Readable(files, view[k]) {
      CallObeys(peer, s1, files, Missing(view, has), token, script, i);
      BrokenAnswer(script[i], view[k], e);
    }
  }

  // --- Every peer follows a script ---

  /** The peer without a state that answers request 201 + a with frame a. */
  function PutPrompt(script: Script): Peer<()> {
    (u, request) => ((), PutCue(script, DecodeMessage(request)))
  }

  function PutCue(script: Script, m: Option<Rpc2Message>): Option<Bytes> {
    if m.Some? && 201 <= m.value.seqNo < 201 + |script| then script[m.value.seqNo - 201] else None
  }

  lemma PutPromptAnswers(script: Script, a: nat, d: Digest, body: Bytes, token: Bytes)
    requires a < |script| && a < 2000 && |body| < TWO_63 && ValidText(token)
    ensures PutPrompt(script)((), Offer(a, d, body, token)) == ((), script[a])
  {
    hide DecodeMessage, EncodeMessage, PutObjectRequest, ValidUtf8;
    PutNameIsText();
    PutObjectRoundTrip(Ascii("Peer.PutObject"), 201 + a, [], d, body, token);
  }

  lemma PutNameIsText()
    ensures ValidText(Ascii("Peer.PutObject")) && ValidText([])
  {
    AsciiText("Peer.PutObject");
  }

  /** How many attempts the listing still holds from entry k on. */
  function AttemptsFrom(view: seq<Digest>, k: nat, has: set<Bytes>): nat
    requires k <= |view|
    decreases |view| - k
  {
    if k == |view| then 0
    else AttemptsFrom(view, k + 1, has) + if HexEncode(view[k]) in has then 0 else 1
  }

  lemma {:induction false} AttemptsCount(view: seq<Digest>, k: nat, has: set<Bytes>)
    requires k <= |view|
    ensures |Missing(view[..k], has)| + AttemptsFrom(view, k, has) == |Missing(view, has)|
    decreases |view| - k
  {
    hide Missing, HexEncode;
    if k == |view| {
      assert view[..k] == view;
    } else {
      MissingNext(view, has, k);
      AttemptsCount(view, k + 1, has);
    }
  }

  /** The frame that comes for attempt `a`, if the body is sent. */
  function Reply<S>(peer: Peer<S>, s: S, files: Bodies, d: Digest, token: Bytes, a: nat): Option<Bytes>
    requires |token| < TWO_63
  {
    if a < 2000 && Intact(files, d) then peer(s, Offer(a, d, files[HexEncode(d)], token)).1 else None
  }

  /** The frames that a push to `peer` receives from listing entry k on, each at the place of its attempt. */
  function Replied<S>(peer: Peer<S>, s: S, files: Bodies, view: seq<Digest>, k: nat, has: set<Bytes>, token: Bytes,
                      a: nat, n: nat): (script: Script)
    requires k <= |view| && |token| < TWO_63
    ensures |script| == AttemptsFrom(view, k, has)
    decreases |view| - k
  {
    if k == |view| then []
    else if HexEncode(view[k]) in has then Replied(peer, s, files, view, k + 1, has, token, a, n)
    else
      [Reply(peer, s, files, view[k], token, a)] +
      match PushEntry(peer, s, files, view[k], has, token, a, n)
      case Over(_, _) => seq(AttemptsFrom(view, k + 1, has), _ => None)
      case Next(s', a', n') => Replied(peer, s', files, view, k + 1, has, token, a', n')
  }

  lemma PromptedPut<S>(peer: Peer<S>, s: S, files: Bodies, d: Digest, has: set<Bytes>, token: Bytes, a: nat, n: nat,
                       script: Script)
    requires ValidText(token) && HexEncode(d) !in has
    requires a < |script| && script[a] == Reply(peer, s, files, d, token, a)
    ensures var p, q := PushEntry(peer, s, files, d, has, token, a, n),
                        PushEntry(PutPrompt(script), (), files, d, has, token, a, n);
            && (p.Over? <==> q.Over?) && (p.Over? ==> q.outcome == p.outcome)
            && (p.Next? ==> p.attempted == a + 1 && q == Next((), a + 1, p.pushed))
  {
    PushTurn(peer, s, files, d, has, token, a, n);
    PushTurn(PutPrompt(script), (), files, d, has, token, a, n);
    hide HexEncode, PutPrompt, PushEntry, Stored, PutObjectRequest, EncodeMessage, DecodeMessage, ValidUtf8, Readable;
    if a < 2000 && Intact(files, d) {
      assert |files[HexEncode(d)]| < TWO_63 by { IntactReads(files, d); }
      PutPromptAnswers(script, a, d, files[HexEncode(d)], token);
    }
  }

  lemma IntactReads(files: Bodies, d: Digest)
    requires Intact(files, d)
    ensures HexEncode(d) in files && |files[HexEncode(d)]| < TWO_63
  {
    hide HexEncode;
  }

  lemma {:induction false} PromptedPush<S>(peer: Peer<S>, s: S, files: Bodies, view: seq<Digest>, k: nat,
                                           has: set<Bytes>, token: Bytes, a: nat, n: nat, script: Script)
    requires k <= |view| && ValidText(token) && a + AttemptsFrom(view, k, has) == |script|
    requires script[a..] == Replied(peer, s, files, view, k, has, token, a, n)
    ensures PushFrom(PutPrompt(script), (), files, view, k, has, token, a, n).1 ==
            PushFrom(peer, s, files, view, k, has, token, a, n).1
    decreases |view| - k
  {
    hide HexEncode, PutPrompt, PushEntry, Reply, ValidUtf8;
    if k < |view| {
      hide PushFrom;
      PushFromNext(peer, s, files, view, k, has, token, a, n);
      PushFromNext(PutPrompt(script), (), files, view, k, has, token, a, n);
      if HexEncode(view[k]) in has {
        PushTurn(peer, s, files, view[k], has, token, a, n);
        PushTurn(PutPrompt(script), (), files, view[k], has, token, a, n);
        PromptedPush(peer, s, files, view, k + 1, has, token, a, n, script);
      } else {
        var replied := Replied(peer, s, files, view, k, has, token, a, n);
        assert script[a] == replied[0] && script[a + 1..] == replied[1..];
        PromptedPut(peer, s, files, view[k], has, token, a, n, script);
        var p := PushEntry(peer, s, files, view[k], has, token, a, n);
        if p.Next? {
          PromptedPush(peer, p.peer, files, view, k + 1, has, token, a + 1, p.pushed, script);
        }
      }
    }
  }

  /** Whatever a peer does, the push to it is the push to a peer that follows the script of the frames it sent. */
  lemma EveryPeerObeysAScript<S>(peer: Peer<S>, s: S, files: Bodies, view: seq<Digest>, has: set<Bytes>, token: Bytes)
    requires ValidText(token)
    ensures var script := Replied(peer, s, files, view, 0, has, token, 0, 0);
            && Obeys(PutPrompt(script), files, Missing(view, has), token, script)
            && PushFrom(PutPrompt(script), (), files, view, 0, has, token, 0, 0).1 ==
               PushFrom(peer, s, files, view, 0, has, token, 0, 0).1
  {
    hide PushFrom, PutPrompt, HexEncode, ValidUtf8, Missing, AttemptsFrom, EncodeMessage, PutObjectRequest;
    var script := Replied(peer, s, files, view, 0, has, token, 0, 0);
    var ids := Missing(view, has);
    AttemptsCount(view, 0, has);
    assert |Missing(view[..0], has)| == 0 by { NoAttempts(view, has); }
    assert script[0..] == script;
    PromptedPush(peer, s, files, view, 0, has, token, 0, 0, script);
    forall u: (), a: nat | a < |ids| && a < 2000 && Intact(files, ids[a])
      ensures PutPrompt(script)(u, Offer(a, ids[a], files[HexEncode(ids[a])], token)).1 == script[a]
    {
      PutPromptAnswers(script, a, ids[a], files[HexEncode(ids[a])], token);
      assert u == ();
    }
  }

  lemma NoAttempts(view: seq<Digest>, has: set<Bytes>)
    ensures |Missing(view[..0], has)| == 0
  {
  }
}
