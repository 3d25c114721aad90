/**
 * Whole streams and passes against peers that refuse: how a stream opens, what a visit brings, and what a pass
 * counts.
 */
module Visits {
  import opened Basics
  import opened Json
  import opened Message
  import opened Builders
  import opened Store
  import opened Sync
  import opened Scripts
  import opened PushScripts
  import opened Vectors

  // --- Whole streams ---

  /**
   * How every stream opens: two requests, byte for byte, and what is made of their answers. A refusal or a missing
   * answer ends it; a missing height counts as 0, a payload that is no list as an empty one.
   */
  lemma StreamOpens<S>(peer: Peer<S>, s: S)
    ensures var (s1, hello) := peer(s, HELLO);
            var (s2, list) := peer(s1, LIST);
            OpenStream(peer, s) ==
            if Said(hello).None? then (s1, Err("handshake failed"))
            else if Said(hello).value.error != [] then (s1, Err("handshake refused"))
            else if Said(list).None? then (s2, Err("chain failed"))
            else if Said(list).value.error != [] then (s2, Err("chain refused"))
            else
              var height := match U64Field(Said(hello).value.payload, "H") case Some(h) => h case None => 0;
              var entries := if Said(list).value.payload.Arr? then Said(list).value.payload.items else [];
              (s2, Ok((height, entries)))
  {
    OpeningBytes();
    hide EncodeMessage, DecodeMessage, HandshakeRequest, ChainRequest, Ascii, U64Field;
  }

  predicate IsEntry(entry: Json) {
    entry.Arr? && |entry.items| == 2
  }

  /** The second half of an entry, empty when it is no text. */
  function IdText(entry: Json): Bytes
    requires IsEntry(entry)
  {
    if entry.items[1].Str? then entry.items[1].text else []
  }

  /** The ids of a list of pairs; an entry of another form is refused. */
  lemma {:induction false} ListedIds(entries: seq<Json>)
    ensures PeerHas(entries).Ok? <==> forall i :: 0 <= i < |entries| ==> IsEntry(entries[i])
    ensures PeerHas(entries).Err? ==> PeerHas(entries).error == "chain entry must be [topoheight, blid]"
    ensures PeerHas(entries).Ok? ==>
            forall c :: c in PeerHas(entries).value <==> exists i :: 0 <= i < |entries| && c == IdText(entries[i])
  {
    if entries != [] {
      var k := |entries| - 1;
      ListedIds(entries[..k]);
      ListedNext(entries);
      hide PeerHas, IsEntry, IdText;
    }
  }

  lemma ListedNext(entries: seq<Json>)
    requires entries != []
    ensures var k := |entries| - 1;
            var rest := PeerHas(entries[..k]);
            PeerHas(entries) ==
            if !IsEntry(entries[k]) then Err("chain entry must be [topoheight, blid]")
            else if rest.Err? then rest
            else Ok(rest.value + {IdText(entries[k])})
  {
  }

  /**
   * A visit to a peer that refuses some of what it lists and some of what it is offered: the pull gathers, then the
   * push offers, without a token, what the peer does not list of the store as it then is. The visit ends well and
   * counts the bodies gathered and the bodies taken together.
   */
  lemma VisitPastRefusals<S(!new)>(peer: Peer<S>, s: S, files: Bodies, look: Lister, entries: seq<Json>,
                                   view: seq<Digest>, has: set<Bytes>, pulled: Script, pushed: Script)
    requires OpenStream(peer, s).1.Ok? && OpenStream(peer, s).1.value.1 == entries
    requires Follows(peer, files, entries, pulled)
    requires forall i: nat :: i < |entries| ==> Civil(files, entries, pulled, i)
    requires var pull := PullStream(peer, s, files);
             && OpenStream(peer, pull.peer).1.Ok? && PeerHas(OpenStream(peer, pull.peer).1.value.1) == Ok(has)
             && ChainOf(look(pull.files)) == Some(view)
             && Obeys(peer, pull.files, Missing(view, has), [], pushed)
             && forall i: nat :: i < |Missing(view, has)| && i < 2000 ==>
                  GoesOn(pull.files, Missing(view, has), pushed, i)
    ensures var v, ids := Visit(peer, s, files, look), Missing(view, has);
            && Gathered(files, v.files, entries, pulled, |entries|) && v.outcome.Ok?
            && v.outcome.value.moved ==
                 |v.files| - |files| + Taken(v.files, ids, pushed, if |ids| < 2000 then |ids| else 2000)
            && v.outcome.value.had == |has|
  {
    hide Follows, Civil, Gathered, Obeys, GoesOn, PullFrom, PushFrom, OpenStream, Missing, Taken, PeerHas, ChainOf;
    var (s1, start) := OpenStream(peer, s);
    PullPastRefusals(peer, s1, files, entries, pulled, start.value.0);
    var pull := PullStream(peer, s, files);
    PushPastRefusals(peer, OpenStream(peer, pull.peer).0, pull.files, view, has, [], pushed);
  }

  /** A visit whose pull or push ends badly ends as that does; nothing is pushed after a bad pull. */
  lemma VisitEnds<S>(peer: Peer<S>, s: S, files: Bodies, look: Lister)
    ensures var pull, v := PullStream(peer, s, files), Visit(peer, s, files, look);
            && v.files == pull.files && (pull.outcome.Err? ==> v == pull)
            && (pull.outcome.Ok? ==>
                var push := PushStream(peer, pull.peer, pull.files, look(pull.files), []);
                v.peer == push.peer && (v.outcome.Err? <==> push.outcome.Err?)
                && (push.outcome.Err? ==> v.outcome == push.outcome))
  {
    hide PullStream, PushFrom, OpenStream, PeerHas, ChainOf;
  }

  // --- A pass ---

  /** A pass over the first `k` peers. */
  function PassTo<S>(conn: nat -> Peer<S>, look: nat -> Lister, files: Bodies, peers: seq<Option<S>>, k: nat)
    : PassState<S>
    requires k <= |peers|
  {
    Pass(conn, look, files, peers[..k])
  }

  /** The visit to peer `i`, when the pass comes to it. */
  function VisitAt<S>(conn: nat -> Peer<S>, look: nat -> Lister, files: Bodies, peers: seq<Option<S>>, i: nat)
    : Stream<S>
    requires i < |peers| && peers[i].Some?
  {
    Visit(conn(i), peers[i].value, PassTo(conn, look, files, peers, i).files, look(i))
  }

  predicate Synced<S>(conn: nat -> Peer<S>, look: nat -> Lister, files: Bodies, peers: seq<Option<S>>, i: nat) {
    i < |peers| && peers[i].Some? && VisitAt(conn, look, files, peers, i).outcome.Ok?
  }

  /** How many of the first `k` peers were reached and visited to a good end. */
  function SyncedPeers<S>(conn: nat -> Peer<S>, look: nat -> Lister, files: Bodies, peers: seq<Option<S>>, k: nat)
    : nat
  {
    if k == 0 then 0
    else SyncedPeers(conn, look, files, peers, k - 1) + if Synced(conn, look, files, peers, k - 1) then 1 else 0
  }

  /** The bodies moved by the visit to peer `i`, if it ended well. */
  function Gain<S>(conn: nat -> Peer<S>, look: nat -> Lister, files: Bodies, peers: seq<Option<S>>, i: nat): nat {
    if Synced(conn, look, files, peers, i) then VisitAt(conn, look, files, peers, i).outcome.value.moved else 0
  }

  function Total<S>(conn: nat -> Peer<S>, look: nat -> Lister, files: Bodies, peers: seq<Option<S>>, k: nat): nat {
    if k == 0 then 0
    else Total(conn, look, files, peers, k - 1) + Gain(conn, look, files, peers, k - 1)
  }

  lemma PassNext<S>(conn: nat -> Peer<S>, look: nat -> Lister, files: Bodies, peers: seq<Option<S>>, k: nat)
    requires k < |peers|
    ensures Pass(conn, look, files, peers[..k + 1]) ==
            NextPeer(conn(k), look(k), Pass(conn, look, files, peers[..k]), peers[k])
  {
    hide NextPeer;
    assert peers[..k + 1][..k] == peers[..k];
  }

  /** One peer of a pass that has not ended. */
  lemma PeerTurn<S>(conn: nat -> Peer<S>, look: nat -> Lister, files: Bodies, peers: seq<Option<S>>, k: nat)
    requires k < |peers| && !PassTo(conn, look, files, peers, k + 1).ended
    ensures var p, q := PassTo(conn, look, files, peers, k), PassTo(conn, look, files, peers, k + 1);
            var good := Synced(conn, look, files, peers, k);
            && !p.ended && q.ok == p.ok + (if good then 1 else 0) && q.failed == p.failed + (if good then 0 else 1)
            && q.transferred == p.transferred + Gain(conn, look, files, peers, k)
            && q.peers == p.peers + [if peers[k].None? then None else Some(VisitAt(conn, look, files, peers, k).peer)]
            && q.files == if peers[k].None? then p.files else VisitAt(conn, look, files, peers, k).files
  {
    hide Visit, Pass;
    PassNext(conn, look, files, peers, k);
  }

  /** The peers after a pass, each after its own visit. */
  ghost predicate AllVisited<S>(conn: nat -> Peer<S>, look: nat -> Lister, files: Bodies, peers: seq<Option<S>>,
                                after: seq<Option<S>>) {
    |after| <= |peers|
    && forall i :: 0 <= i < |after| ==>
         after[i] == if peers[i].None? then None else Some(VisitAt(conn, look, files, peers, i).peer)
  }

  lemma VisitedNext<S>(conn: nat -> Peer<S>, look: nat -> Lister, files: Bodies, peers: seq<Option<S>>,
                       after: seq<Option<S>>)
    requires AllVisited(conn, look, files, peers, after) && |after| < |peers|
    ensures var k := |after|;
            var next := if peers[k].None? then None else Some(VisitAt(conn, look, files, peers, k).peer);
            AllVisited(conn, look, files, peers, after + [next])
  {
    hide VisitAt;
  }

  /**
   * The three counters of a pass that came to its end, each by itself: the peers whose visit ended well, the peers
   * that were dead or whose visit failed, and the bodies that the good visits moved.
   */
  lemma {:induction false} CountersExactly<S>(conn: nat -> Peer<S>, look: nat -> Lister, files: Bodies,
                                              peers: seq<Option<S>>, k: nat)
    requires k <= |peers| && !PassTo(conn, look, files, peers, k).ended
    ensures var p := PassTo(conn, look, files, peers, k);
            && p.ok == SyncedPeers(conn, look, files, peers, k) && p.failed == k - p.ok
            && p.transferred == Total(conn, look, files, peers, k)
  {
    hide PassTo, Synced, VisitAt, Gain;
    if k == 0 {
      PassStarts(conn, look, files, peers);
    } else {
      PeerTurn(conn, look, files, peers, k - 1);
      CountersExactly(conn, look, files, peers, k - 1);
    }
  }

  /** Every peer of such a pass is left as its own visit left it; a dead one is left alone. */
  lemma {:induction false} PeersExactly<S>(conn: nat -> Peer<S>, look: nat -> Lister, files: Bodies,
                                           peers: seq<Option<S>>, k: nat)
    requires k <= |peers| && !PassTo(conn, look, files, peers, k).ended
    ensures var p := PassTo(conn, look, files, peers, k);
            |p.peers| == k && AllVisited(conn, look, files, peers, p.peers)
  {
    if k == 0 {
      PassStarts(conn, look, files, peers);
    } else {
      hide PassTo, Synced, VisitAt, Gain, AllVisited;
      PeerTurn(conn, look, files, peers, k - 1);
      PeersExactly(conn, look, files, peers, k - 1);
      VisitedNext(conn, look, files, peers, PassTo(conn, look, files, peers, k - 1).peers);
    }
  }

  /** The visit to peer `i` comes about, and ends in a panic. */
  predicate Panics<S>(conn: nat -> Peer<S>, look: nat -> Lister, files: Bodies, peers: seq<Option<S>>, i: nat) {
    i < |peers| && peers[i].Some? && !PassTo(conn, look, files, peers, i).ended
    && VisitAt(conn, look, files, peers, i).outcome == Err("panic")
  }

  /** A pass stops short exactly when one of its visits panics. */
  lemma {:induction false} EndsExactly<S>(conn: nat -> Peer<S>, look: nat -> Lister, files: Bodies,
                                          peers: seq<Option<S>>, k: nat)
    requires k <= |peers|
    ensures PassTo(conn, look, files, peers, k).ended <==> exists i: nat :: i < k && Panics(conn, look, files, peers, i)
  {
    hide PassTo, Panics;
    if k == 0 {
      PassStarts(conn, look, files, peers);
    } else {
      EndsExactly(conn, look, files, peers, k - 1);
      EndTurn(conn, look, files, peers, k - 1);
      if Panics(conn, look, files, peers, k - 1) {
        assert exists i: nat :: i < k && Panics(conn, look, files, peers, i);
      }
    }
  }

  lemma PassStarts<S>(conn: nat -> Peer<S>, look: nat -> Lister, files: Bodies, peers: seq<Option<S>>)
    ensures PassTo(conn, look, files, peers, 0) == PassState(files, [], 0, 0, 0, false)
  {
    assert peers[..0] == [];
  }

  lemma EndTurn<S>(conn: nat -> Peer<S>, look: nat -> Lister, files: Bodies, peers: seq<Option<S>>, k: nat)
    requires k < |peers|
    ensures PassTo(conn, look, files, peers, k + 1).ended <==>
            PassTo(conn, look, files, peers, k).ended || Panics(conn, look, files, peers, k)
  {
    hide Visit, Pass;
    PassNext(conn, look, files, peers, k);
  }
}
