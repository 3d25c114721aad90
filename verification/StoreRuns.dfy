/** Integrity of the body store over whole runs: any requests in, any replies back. */
module StoreRuns {
  import opened Basics
  import opened Json
  import opened Message
  import opened Builders
  import opened Limiter
  import opened Store
  import opened Sync

  /** The frames a peer will send, one for each request; None or the end of the tape is a broken connection. */
  type Tape = seq<Option<Bytes>>

  function Play(tape: Tape, request: Bytes): (Tape, Option<Bytes>) {
    if tape == [] then (tape, None) else (tape[1..], tape[0])
  }

  /** The tape peer: it answers whatever is asked with what comes next. */
  function Player(): Peer<Tape> {
    (tape, request) => Play(tape, request)
  }

  /** The frames that a pull from `peer` would receive from entry i on. */
  function Recorded<S>(peer: Peer<S>, s: S, files: Bodies, entries: seq<Json>, i: nat, c: Counts): Tape
    requires i <= |entries|
    decreases |entries| - i
  {
    if i == |entries| then [] else
    var heard := Heard(peer, s, files, entries[i], i);
    match PullEntry(peer, s, files, entries[i], i, c)
    case Done(_) => heard
    case More(s', files', c') => heard + Recorded(peer, s', files', entries, i + 1, c')
  }

  function AskFrame<S>(peer: Peer<S>, s: S, i: nat, blid: Digest): Option<Bytes>
    requires i < MAX_MOVES
  {
    peer(s, EncodeMessage(Ascii("Peer.GetObject"), 100 + i, [], BlidMap(blid))).1
  }

  function Heard<S>(peer: Peer<S>, s: S, files: Bodies, entry: Json, i: nat): Tape {
    var asked := Consider(files, entry, i);
    if asked.Ask? then [AskFrame(peer, s, i, asked.blid)] else []
  }

  lemma PlaysEntry<S>(peer: Peer<S>, s: S, files: Bodies, entry: Json, i: nat, c: Counts, rest: Tape)
    ensures var tape := Heard(peer, s, files, entry, i) + rest;
            var p, q := PullEntry(peer, s, files, entry, i, c), PullEntry(Player(), tape, files, entry, i, c);
            && (p.More? <==> q.More?)
            && (p.More? ==> q == More(rest, p.files, p.counts))
            && (p.Done? ==> q.stream.files == p.stream.files && q.stream.outcome == p.stream.outcome)
  {
    hide Consider, Accept, RpcCall, AskFrame, BlidMap, BlidText, Player;
    var asked := Consider(files, entry, i);
    if asked.Ask? {
      AskIsPair(files, entry, i);
      PlaysCall(peer, s, i, asked.blid, rest);
    } else {
      assert [] + rest == rest;
    }
  }

  lemma AskIsPair(files: Bodies, entry: Json, i: nat)
    requires Consider(files, entry, i).Ask?
    ensures IsPair(entry) && i < MAX_MOVES
  {
  }

  lemma PlaysCall<S>(peer: Peer<S>, s: S, i: nat, blid: Digest, rest: Tape)
    requires i < MAX_MOVES
    ensures RpcCall(Player(), [AskFrame(peer, s, i, blid)] + rest, "Peer.GetObject", 100 + i, BlidMap(blid)) ==
            (rest, RpcCall(peer, s, "Peer.GetObject", 100 + i, BlidMap(blid)).1)
  {
    hide EncodeMessage, BlidMap, DecodeMessage;
    var tape: Tape := [AskFrame(peer, s, i, blid)] + rest;
    assert tape[1..] == rest;
  }

  /** Any peer, with any state, acts on a pull like a tape. */
  lemma {:induction false} TapeIsAnyPeer<S>(peer: Peer<S>, s: S, files: Bodies, entries: seq<Json>, i: nat, c: Counts)
    requires i <= |entries|
    ensures var tape := Recorded(peer, s, files, entries, i, c);
            var p, q := PullFrom(peer, s, files, entries, i, c), PullFrom(Player(), tape, files, entries, i, c);
            q.files == p.files && q.outcome == p.outcome
    decreases |entries| - i
  {
    hide PullEntry, Heard, Player;
    if i < |entries| {
      var heard := Heard(peer, s, files, entries[i], i);
      var p := PullEntry(peer, s, files, entries[i], i, c);
      if p.More? {
        var rest := Recorded(peer, p.peer, p.files, entries, i + 1, p.counts);
        PlaysEntry(peer, s, files, entries[i], i, c, rest);
        TapeIsAnyPeer(peer, p.peer, p.files, entries, i + 1, p.counts);
      } else {
        PlaysEntry(peer, s, files, entries[i], i, c, []);
        assert heard + [] == heard;
      }
    }
  }

  /** What can happen to a store: a request served under some policy, or a pull from some peer. */
  datatype Event =
    | Served(policy: Policy, wins: Windows, who: Caller, order: seq<Bytes>, request: Rpc2Message)
    | Pulled(height: nat, entries: seq<Json>, tape: Tape)

  function After(files: Bodies, e: Event): Bodies {
    match e
    case Served(p, wins, who, order, m) =>
      if !Readable(files) || |order| >= TWO_63 || m.seqNo >= TWO_64 then files
      else Handle(p, wins, who, files, order, m).files
    case Pulled(height, entries, tape) => PullFrom(Player(), tape, files, entries, 0, Counts(height, 0, 0)).files
  }

  function Run(files: Bodies, events: seq<Event>): Bodies {
    if events == [] then files else After(Run(files, events[..|events| - 1]), events[|events| - 1])
  }

  /** From any moment of any run on: no body is lost or changed, and verified stores stay verified. */
  lemma {:induction false} RunKeeps(files: Bodies, events: seq<Event>, i: nat)
    requires i <= |events|
    ensures Keeps(Run(files, events[..i]), Run(files, events))
  {
    hide Keeps, After;
    if i == |events| {
      assert events[..i] == events;
      KeepsSame(Run(files, events));
    } else {
      var n := |events| - 1;
      RunKeeps(files, events[..n], i);
      assert events[..n][..i] == events[..i];
      AfterKeeps(Run(files, events[..n]), events[n]);
      KeepsTransitive(Run(files, events[..i]), Run(files, events[..n]), Run(files, events));
    }
  }

  lemma AfterKeeps(files: Bodies, e: Event)
    ensures Keeps(files, After(files, e))
  {
    hide Handle, PullFrom, Sound, Grows, Readable;
    KeepsSame(files);
    match e
    case Served(p, wins, who, order, m) =>
      if Readable(files) && |order| < TWO_63 && m.seqNo < TWO_64 {
        ServerKeepsStore(p, wins, who, files, order, m);
      }
    case Pulled(height, entries, tape) =>
      PullKeeps(Player(), tape, files, entries, 0, Counts(height, 0, 0));
  }

  /**
   * Whatever a store that started empty once held, it serves unchanged at every later moment, and a fetching
   * client takes it, raw or, without a collision, behind a status byte.
   */
  lemma StoredStaysServed(events: seq<Event>, i: nat, cid: Bytes)
    requires i <= |events| && cid in Run(map[], events[..i])
    ensures var body := Run(map[], events[..i])[cid];
            && ServeBody(Run(map[], events), cid) == Ok(body) && ParseFetch(body, cid) == Ok(body)
            && (Sha256(FrameOk(body)) != Sha256(body) ==> ParseFetch(FrameOk(body), cid) == Ok(body))
  {
    hide After, Run, DigestOf, ServeBody, ParseFetch;
    var body := Run(map[], events[..i])[cid];
    RunIsSound(events[..i]);
    RunIsSound(events);
    RunKeeps(map[], events, i);
    ServedExactly(Run(map[], events), cid, body);
    FetchedExactly(body, cid, body);
    FetchedExactly(FrameOk(body), cid, body);
  }

  /** A store that started empty only ever holds bodies under their own digests. */
  lemma RunIsSound(events: seq<Event>)
    ensures Sound(Run(map[], events))
  {
    hide After;
    RunKeeps(map[], events, 0);
    assert events[..0] == [];
    assert Sound(map[]);
  }
}
