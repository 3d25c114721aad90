/** The client side of the rpc2 sync subset, against any peer whatever (src/spore_peer.rs, src/p2p.rs). */
module Sync {
  import opened Basics
  import opened Text
  import opened Json
  import opened Message
  import opened Builders
  import opened Store

  /** A peer of any kind: its state and a request frame give its next state and a response frame, if one arrives. */
  type Peer<!S> = (S, Bytes) -> (S, Option<Bytes>)

  /** rpc2_call: None is an I/O error or a response that does not decode. */
  function RpcCall<S>(peer: Peer<S>, s: S, name: string, seqNo: nat, body: Bytes): (S, Option<Rpc2Message>)
    requires |name| < TWO_64 && seqNo < TWO_64
  {
    var (s', frame) := peer(s, EncodeMessage(Ascii(name), seqNo, [], body));
    (s', match frame case None => None case Some(f) => DecodeMessage(f))
  }

  /** The cap on transfers in one stream. */
  const MAX_MOVES: nat := 2000

  /** The longest chain list asked for. */
  const MAX_LIST: nat := 5000

  /** The outcome that stands for a panic of hex_decode: nothing after it runs, and the program ends. */
  const PANIC := "panic"

  /** Peer height, bodies moved, bodies already there. */
  datatype Counts = Counts(height: nat, moved: nat, had: nat)

  /** The peer and the local store after a stream, and what the stream returned. */
  datatype Stream<S> = Stream(peer: S, files: Bodies, outcome: Result<Counts>)

  /** The stream went well: this height, this many bodies moved. */
  predicate Moved<S>(r: Stream<S>, height: nat, n: int) {
    r.outcome.Ok? && r.outcome.value.height == height && r.outcome.value.moved == n
  }

  // --- The opening both streams share ---

  /** Learns the peer's height. */
  function Handshake<S>(peer: Peer<S>, s: S): (S, Result<nat>) {
    var (s', hs) := RpcCall(peer, s, "Peer.Handshake", 1, HandshakeRequest(1));
    (s', HeightOf(hs))
  }

  function HeightOf(hs: Option<Rpc2Message>): Result<nat> {
    if hs.None? then Err("handshake failed")
    else if hs.value.error != [] then Err("handshake refused")
    else Ok(match U64Field(hs.value.payload, "H") case Some(h) => h case None => 0)
  }

  /** Asks for the whole chain list; a payload that is no array counts as empty. */
  function ListChain<S>(peer: Peer<S>, s: S): (S, Result<seq<Json>>) {
    var (s', chain) := RpcCall(peer, s, "Peer.Chain", 2, ChainRequest(0, MAX_LIST));
    (s', EntriesOf(chain))
  }

  function EntriesOf(chain: Option<Rpc2Message>): Result<seq<Json>> {
    if chain.None? then Err("chain failed")
    else if chain.value.error != [] then Err("chain refused")
    else Ok(if chain.value.payload.Arr? then chain.value.payload.items else [])
  }

  function OpenStream<S>(peer: Peer<S>, s: S): (S, Result<(nat, seq<Json>)>) {
    match Handshake(peer, s)
    case (s1, Err(e)) => (s1, Err(e))
    case (s1, Ok(height)) =>
      match ListChain(peer, s1)
      case (s2, Err(e)) => (s2, Err(e))
      case (s2, Ok(entries)) => (s2, Ok((height, entries)))
  }

  predicate IsPair(entry: Json) {
    entry.Arr? && |entry.items| == 2
  }

  /** The block id of an entry, or nothing when it is not a text. */
  function BlidText(entry: Json): Bytes
    requires IsPair(entry)
  {
    match entry.items[1]
    case Str(t) => t
    case _ => []
  }

  // --- sync_stream ---

  /** What one chain entry makes of the pull loop. */
  datatype PullStep = Fail(error: string) | Stop | Skip | Had | Ask(blid: Digest)

  /** Up to the point where the body has to be asked for. */
  function Consider(files: Bodies, entry: Json, i: nat): PullStep {
    if !IsPair(entry) then Fail("chain entry must be [topoheight, blid]")
    else if RadixPanics(BlidText(entry)) then Fail(PANIC)
    else if DigestOf(BlidText(entry)).None? then Skip
    else if BlidText(entry) in files then Had
    else if i >= MAX_MOVES then Stop
    else Ask(DigestOf(BlidText(entry)).value)
  }

  /** The answer to an ask: the verified body, a skip (None), or the end of the stream. */
  function Accept(blid: Digest, answer: Option<Rpc2Message>): Result<Option<Bytes>> {
    if answer.None? then Err("get failed")
    else if answer.value.error != [] then Ok(None)
    else
      match answer.value.payload
      case Str(text) =>
        (match HexDecode(text)
         case None => Err("object payload not hex")
         case Some(body) => if Sha256(body) != blid then Err("body sha256 != blid (tampered)") else Ok(Some(body)))
      case _ => Err("object payload not bytes")
  }

  /** The loop goes on from a new state, or the stream is over. */
  datatype Progress<S> = More(peer: S, files: Bodies, counts: Counts) | Done(stream: Stream<S>)

  /** The pull loop on entry number i. */
  function PullEntry<S>(peer: Peer<S>, s: S, files: Bodies, entry: Json, i: nat, c: Counts): Progress<S> {
    match Consider(files, entry, i)
    case Fail(e) => Done(Stream(s, files, Err(e)))
    case Stop => Done(Stream(s, files, Ok(c)))
    case Skip => More(s, files, c)
    case Had => More(s, files, c.(had := c.had + 1))
    case Ask(blid) =>
      var (s', answer) := RpcCall(peer, s, "Peer.GetObject", 100 + i, BlidMap(blid));
      match Accept(blid, answer)
      case Err(e) => Done(Stream(s', files, Err(e)))
      case Ok(None) => More(s', files, c)
      case Ok(Some(body)) => More(s', files[BlidText(entry) := body], c.(moved := c.moved + 1))
  }

  function PullFrom<S>(peer: Peer<S>, s: S, files: Bodies, entries: seq<Json>, i: nat, c: Counts): Stream<S>
    requires i <= |entries|
    decreases |entries| - i
  {
    if i == |entries| then Stream(s, files, Ok(c)) else
    match PullEntry(peer, s, files, entries[i], i, c)
    case Done(stream) => stream
    case More(s', files', c') => PullFrom(peer, s', files', entries, i + 1, c')
  }

  /** One turn of the pull loop, and its end. */
  lemma PullNext<S>(peer: Peer<S>, s: S, files: Bodies, entries: seq<Json>, i: nat, c: Counts)
    requires i < |entries|
    ensures var p := PullEntry(peer, s, files, entries[i], i, c);
            PullFrom(peer, s, files, entries, i, c) ==
            if p.Done? then p.stream else PullFrom(peer, p.peer, p.files, entries, i + 1, p.counts)
  {
    hide PullEntry;
  }

  lemma PullEnd<S>(peer: Peer<S>, s: S, files: Bodies, entries: seq<Json>, c: Counts)
    ensures PullFrom(peer, s, files, entries, |entries|, c) == Stream(s, files, Ok(c))
  {
  }

  function PullStream<S>(peer: Peer<S>, s: S, files: Bodies): Stream<S> {
    match OpenStream(peer, s)
    case (s', Err(e)) => Stream(s', files, Err(e))
    case (s', Ok((height, entries))) => PullFrom(peer, s', files, entries, 0, Counts(height, 0, 0))
  }

  // --- push_stream ---

  /** str::contains. */
  predicate Mentions(text: Bytes, part: Bytes) {
    part <= text || (text != [] && Mentions(text[1..], part))
  }

  /** The ids the peer lists; one entry of another shape ends the stream. */
  function PeerHas(entries: seq<Json>): Result<set<Bytes>> {
    if entries == [] then Ok({})
    else if !IsPair(entries[|entries| - 1]) then Err("chain entry must be [topoheight, blid]")
    else
      match PeerHas(entries[..|entries| - 1])
      case Err(e) => Err(e)
      case Ok(names) => Ok(names + {BlidText(entries[|entries| - 1])})
  }

  /** The answer to a PutObject: stored, refused and skipped, or the end of the stream. */
  function Stored(name: Bytes, answer: Option<Rpc2Message>): Result<bool> {
    if answer.None? then Err("put failed")
    else if answer.value.error != [] then
      if Mentions(answer.value.error, Ascii("401")) then Err("write token rejected by peer") else Ok(false)
    else if StrOrEmpty(answer.value.payload, "BLID") != name then Err("peer stored different hash")
    else Ok(true)
  }

  /** The push loop goes on, or is over. */
  datatype PushStep<S> = Next(peer: S, attempted: nat, pushed: nat) | Over(peer: S, outcome: Result<nat>)

  /** The push loop on one local body. */
  function PushEntry<S>(peer: Peer<S>, s: S, files: Bodies, cid: Digest, peerHas: set<Bytes>, token: Bytes,
                        attempted: nat, pushed: nat): PushStep<S>
    requires |token| < TWO_63
  {
    var name := HexEncode(cid);
    if name in peerHas then Next(s, attempted, pushed)
    else if attempted >= MAX_MOVES then Over(s, Ok(pushed))
    else if name !in files || |files[name]| >= TWO_63 then Over(s, Err("read failed"))
    else if Sha256(files[name]) != cid then Next(s, attempted + 1, pushed)
    else
      var request := PutObjectRequest(cid, files[name], token);
      var (s', answer) := RpcCall(peer, s, "Peer.PutObject", 201 + attempted, request);
      match Stored(name, answer)
      case Err(e) => Over(s', Err(e))
      case Ok(stored) => Next(s', attempted + 1, if stored then pushed + 1 else pushed)
  }

  function PushFrom<S>(peer: Peer<S>, s: S, files: Bodies, view: seq<Digest>, k: nat, peerHas: set<Bytes>,
                       token: Bytes, attempted: nat, pushed: nat): (S, Result<nat>)
    requires k <= |view| && |token| < TWO_63
    decreases |view| - k
  {
    if k == |view| then (s, Ok(pushed)) else
    match PushEntry(peer, s, files, view[k], peerHas, token, attempted, pushed)
    case Over(s', outcome) => (s', outcome)
    case Next(s', attempted', pushed') => PushFrom(peer, s', files, view, k + 1, peerHas, token, attempted', pushed')
  }

  /** The local directory is listed, in `order`, after the peer's chain has arrived. */
  function PushStream<S>(peer: Peer<S>, s: S, files: Bodies, order: seq<Bytes>, token: Bytes): Stream<S>
    requires |token| < TWO_63
  {
    match OpenStream(peer, s)
    case (s', Err(e)) => Stream(s', files, Err(e))
    case (s', Ok((height, entries))) =>
      match PeerHas(entries)
      case Err(e) => Stream(s', files, Err(e))
      case Ok(names) =>
        match ChainOf(order)
        case None => Stream(s', files, Err(PANIC))
        case Some(view) => Sent(PushFrom(peer, s', files, view, 0, names, token, 0, 0), files, height, |names|)
  }

  function Sent<S>(r: (S, Result<nat>), files: Bodies, height: nat, had: nat): Stream<S> {
    Stream(r.0, files, if r.1.Ok? then Ok(Counts(height, r.1.value, had)) else Err(r.1.error))
  }

  // --- sync_pass ---

  /** How a directory is listed at one moment. */
  type Lister = Bodies -> seq<Bytes>

  /** A pull and, when that went well, a push over the same connection: sync_pass on one peer. */
  function Visit<S>(peer: Peer<S>, s: S, files: Bodies, look: Lister): Stream<S> {
    var pull := PullStream(peer, s, files);
    if pull.outcome.Err? then pull else
    var push := PushStream(peer, pull.peer, pull.files, look(pull.files), []);
    match push.outcome
    case Err(_) => push
    case Ok(c) => push.(outcome := Ok(c.(moved := pull.outcome.value.moved + c.moved)))
  }

  /** The local store, the peers (None: unreachable), the three counters of a pass, and whether a panic ended it. */
  datatype PassState<S> =
    PassState(files: Bodies, peers: seq<Option<S>>, ok: nat, failed: nat, transferred: nat, ended: bool)

  /** A pass over `peers`; `conn(i)` is how peer i behaves, `look(i)` how the local store is listed for it. */
  function Pass<S>(conn: nat -> Peer<S>, look: nat -> Lister, files: Bodies, peers: seq<Option<S>>): (r: PassState<S>)
    ensures |r.peers| == |peers|
  {
    if peers == [] then PassState(files, [], 0, 0, 0, false) else
    var n := |peers| - 1;
    NextPeer(conn(n), look(n), Pass(conn, look, files, peers[..n]), peers[n])
  }

  function NextPeer<S>(conn: Peer<S>, look: Lister, p: PassState<S>, peer: Option<S>): (r: PassState<S>)
    ensures |r.peers| == |p.peers| + 1
  {
    if p.ended then p.(peers := p.peers + [peer]) else
    match peer
    case None => p.(peers := p.peers + [None], failed := p.failed + 1)
    case Some(s) =>
      var v := Visit(conn, s, p.files, look);
      var seen := p.(files := v.files, peers := p.peers + [Some(v.peer)]);
      match v.outcome
      case Err(e) => if e == PANIC then seen.(ended := true) else seen.(failed := p.failed + 1)
      case Ok(c) => seen.(ok := p.ok + 1, transferred := p.transferred + c.moved)
  }

  /** A pass that comes to its end counts every peer, as synced or as failed. */
  lemma {:induction false} PassCounts<S>(conn: nat -> Peer<S>, look: nat -> Lister, files: Bodies,
                                         peers: seq<Option<S>>)
    ensures var p := Pass(conn, look, files, peers);
            !p.ended ==> p.ok + p.failed == |peers|
  {
    hide Visit;
    if peers != [] {
      PassCounts(conn, look, files, peers[..|peers| - 1]);
    }
  }

  /** After a panic, no further peer is visited. */
  lemma {:induction false} EndedPass<S>(conn: nat -> Peer<S>, look: nat -> Lister, files: Bodies,
                                        peers: seq<Option<S>>, k: nat)
    requires k <= |peers| && Pass(conn, look, files, peers[..k]).ended
    ensures var p := Pass(conn, look, files, peers[..k]);
            Pass(conn, look, files, peers) == p.(peers := p.peers + peers[k..])
  {
    hide Visit;
    if k == |peers| {
      assert peers[..k] == peers && peers[k..] == [];
    } else {
      var n := |peers| - 1;
      assert peers[..n][..k] == peers[..k];
      EndedPass(conn, look, files, peers[..n], k);
      assert peers[k..] == peers[..n][k..] + [peers[n]];
    }
  }

  // --- Integrity against arbitrary peers ---

  /** No file is lost or changed, and a store of verified files stays one. */
  ghost predicate Keeps(before: Bodies, after: Bodies) {
    Grows(before, after) && (Sound(before) ==> Sound(after))
  }

  lemma KeepsSame(files: Bodies)
    ensures Keeps(files, files)
  {
  }

  lemma KeepsTransitive(a: Bodies, b: Bodies, c: Bodies)
    requires Keeps(a, b) && Keeps(b, c)
    ensures Keeps(a, c)
  {
    hide Sound;
  }

  /** An accepted body hashes to the id it was asked under. */
  lemma AcceptedIsAsked(blid: Digest, answer: Option<Rpc2Message>)
    requires Accept(blid, answer).Ok? && Accept(blid, answer).value.Some?
    ensures Sha256(Accept(blid, answer).value.value) == blid
  {
  }

  lemma AddKeeps(files: Bodies, name: Bytes, body: Bytes)
    requires name !in files && DigestOf(name) == Some(Sha256(body))
    ensures Keeps(files, files[name := body])
  {
    hide DigestOf;
  }

  function FilesAfter<S>(p: Progress<S>): Bodies {
    if p.Done? then p.stream.files else p.files
  }

  lemma EntryKeeps<S>(peer: Peer<S>, s: S, files: Bodies, entry: Json, i: nat, c: Counts)
    ensures Keeps(files, FilesAfter(PullEntry(peer, s, files, entry, i, c)))
  {
    hide Keeps, DigestOf, RadixPanics, Accept, RpcCall, BlidMap;
    KeepsSame(files);
    var step := Consider(files, entry, i);
    if step.Ask? {
      var (s', answer) := RpcCall(peer, s, "Peer.GetObject", 100 + i, BlidMap(step.blid));
      if Accept(step.blid, answer).Ok? && Accept(step.blid, answer).value.Some? {
        AcceptedIsAsked(step.blid, answer);
        AddKeeps(files, BlidText(entry), Accept(step.blid, answer).value.value);
      }
    }
  }

  /** Whatever list and bodies the peer sends, and however the pull ends: no file is lost, every file stays verified. */
  lemma {:induction false} PullKeeps<S>(peer: Peer<S>, s: S, files: Bodies, entries: seq<Json>, i: nat, c: Counts)
    requires i <= |entries|
    ensures Keeps(files, PullFrom(peer, s, files, entries, i, c).files)
    decreases |entries| - i
  {
    hide Keeps, PullEntry;
    KeepsSame(files);
    if i < |entries| {
      EntryKeeps(peer, s, files, entries[i], i, c);
      var p := PullEntry(peer, s, files, entries[i], i, c);
      if p.More? {
        PullKeeps(peer, p.peer, p.files, entries, i + 1, p.counts);
        KeepsTransitive(files, p.files, PullFrom(peer, s, files, entries, i, c).files);
      }
    }
  }

  lemma AddCounts(files: Bodies, name: Bytes, body: Bytes)
    requires name !in files
    ensures |files[name := body]| == |files| + 1
  {
    assert files[name := body].Keys == files.Keys + {name};
  }

  lemma EntryCounts<S>(peer: Peer<S>, s: S, files: Bodies, entry: Json, i: nat, c: Counts)
    ensures var p := PullEntry(peer, s, files, entry, i, c);
            if p.More? then p.counts.moved - c.moved == |p.files| - |files|
            else p.stream.files == files && (p.stream.outcome.Ok? ==> p.stream.outcome == Ok(c))
  {
    hide DigestOf, RadixPanics, Accept, RpcCall, BlidMap, IsPair, BlidText;
    var step := Consider(files, entry, i);
    if step.Ask? {
      var got := Accept(step.blid, RpcCall(peer, s, "Peer.GetObject", 100 + i, BlidMap(step.blid)).1);
      if got.Ok? && got.value.Some? {
        AddCounts(files, BlidText(entry), got.value.value);
      }
    }
  }

  /** The fetch count of a finished pull is the number of files it added, whatever the peer sent. */
  lemma {:induction false} PullCounts<S>(peer: Peer<S>, s: S, files: Bodies, entries: seq<Json>, i: nat, c: Counts)
    requires i <= |entries| && PullFrom(peer, s, files, entries, i, c).outcome.Ok?
    ensures var r := PullFrom(peer, s, files, entries, i, c);
            r.outcome.value.moved - c.moved == |r.files| - |files|
    decreases |entries| - i
  {
    hide PullEntry;
    if i < |entries| {
      EntryCounts(peer, s, files, entries[i], i, c);
      var p := PullEntry(peer, s, files, entries[i], i, c);
      if p.More? {
        PullCounts(peer, p.peer, p.files, entries, i + 1, p.counts);
      }
    }
  }

  lemma VisitKeeps<S>(peer: Peer<S>, s: S, files: Bodies, look: Lister)
    ensures Keeps(files, Visit(peer, s, files, look).files)
  {
    hide Keeps, PullFrom, PushFrom, Handshake, ListChain, PeerHas, ChainOf;
    KeepsSame(files);
    var (s', start) := OpenStream(peer, s);
    if start.Ok? {
      PullKeeps(peer, s', files, start.value.1, 0, Counts(start.value.0, 0, 0));
    }
  }

  /** Integrity over a whole pass, against peers that answer anything at all. */
  lemma {:induction false} PassKeeps<S>(conn: nat -> Peer<S>, look: nat -> Lister, files: Bodies, peers: seq<Option<S>>)
    ensures Keeps(files, Pass(conn, look, files, peers).files)
  {
    hide Keeps, Visit;
    if peers == [] {
      KeepsSame(files);
    } else {
      var n := |peers| - 1;
      PassKeeps(conn, look, files, peers[..n]);
      var before := Pass(conn, look, files, peers[..n]).files;
      if peers[n].Some? {
        VisitKeeps(conn(n), peers[n].value, before, look(n));
        KeepsTransitive(files, before, Visit(conn(n), peers[n].value, before, look(n)).files);
      }
    }
  }
}
