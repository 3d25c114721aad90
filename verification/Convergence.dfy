/** Multi-peer convergence: two passes over any list of honest peers make all stores equal to the union. */
module Convergence {
  import opened Basics
  import opened Text
  import opened Store
  import opened Sync
  import opened Honest
  import opened Pulling
  import opened Pushing

  /** All the bodies there are, at most 2000 of them, every store a part of it. */
  ghost predicate Fits(files: Bodies, u: Bodies) {
    InLedger(files, u) && |u| <= MAX_MOVES
  }

  lemma SameFiles(a: Bodies, b: Bodies, u: Bodies)
    requires Grows(a, u) && Grows(b, u) && a.Keys == b.Keys
    ensures a == b
  {
    assert forall c :: c in a ==> c in b && a[c] == b[c];
  }

  lemma JoinFits(a: Bodies, b: Bodies, u: Bodies)
    requires Fits(a, u) && Fits(b, u)
    ensures Fits(a + b, u) && (a + b).Keys == a.Keys + b.Keys && b.Keys <= (a + b).Keys
    ensures Grows(a, a + b) && Grows(b, a + b)
  {
    hide Canonical;
    assert forall c :: c in a && c in b ==> a[c] == b[c];
  }

  lemma GainedFits(a: Bodies, r: Bodies, b: Bodies, u: Bodies)
    requires Fits(a, u) && Fits(b, u) && Gained(a, r, b, b.Keys)
    ensures r == a + b
  {
    hide Canonical;
    assert forall c :: c in a && c in b ==> a[c] == b[c];
  }

  /** The number of bodies that only one of the two stores has. */
  function Apart(a: Bodies, b: Bodies): nat {
    |a.Keys - b.Keys| + |b.Keys - a.Keys|
  }

  // --- One visit ---

  lemma PullJoins(who: Caller, look: Lister, node: Node, files: Bodies, u: Bodies)
    requires Lists(look) && Fits(files, u) && Fits(node.files, u)
    ensures var r := PullStream(HonestPeer(who, look), node, files);
            r.peer == node && r.files == files + node.files
            && Moved(r, |node.files|, |node.files.Keys - files.Keys|)
  {
    hide PullStream, Canonical, Lists, HonestPeer, Gained, Reach, IsListing;
    LedgerPart(node.files, u);
    PullExactly(who, look, node, files);
    assert IsListing(look(node.files), node.files) by {
      ListsAt(look, node.files);
    }
    AllInReach(look(node.files), node.files);
    GainedFits(files, PullStream(HonestPeer(who, look), node, files).files, node.files, u);
    JoinCount(files, node.files);
  }

  lemma ListsAt(look: Lister, files: Bodies)
    requires Lists(look) && |files| < TWO_63
    ensures IsListing(look(files), files)
  {
    hide IsListing;
  }

  lemma JoinCount(a: Bodies, b: Bodies)
    ensures |a + b| == |a| + |b.Keys - a.Keys|
    ensures (a + b).Keys - b.Keys == a.Keys - b.Keys
  {
    SplitCount(a.Keys, a.Keys + b.Keys);
    assert (a + b).Keys == a.Keys + b.Keys;
    assert (a.Keys + b.Keys) - a.Keys == b.Keys - a.Keys;
  }

  lemma PushJoins(who: Caller, look: Lister, node: Node, files: Bodies, order: seq<Bytes>, u: Bodies)
    requires Lists(look) && Fits(files, u) && Fits(node.files, u) && IsListing(order, files)
    requires node.files.Keys <= files.Keys
    ensures var r := PushStream(HonestPeer(who, look), node, files, order, []);
            r.files == files && r.peer.files == files && Moved(r, |node.files|, |files.Keys - node.files.Keys|)
  {
    hide PushStream, Canonical, Lists, HonestPeer, IsListing, Readable;
    PushExactly(who, look, node, files, order, u);
    LedgerPart(files, u);
    SubsetSize(files.Keys - node.files.Keys, u.Keys);
    var after := PushStream(HonestPeer(who, look), node, files, order, []).peer.files;
    NothingLeft(files.Keys, after.Keys);
    SameFiles(after, files, u);
  }

  /** A visit leaves both sides with the union, and transfers exactly what they were apart. */
  lemma VisitJoins(who: Caller, look: Lister, node: Node, files: Bodies, own: Lister, u: Bodies)
    requires Lists(look) && Lists(own) && Fits(files, u) && Fits(node.files, u)
    ensures var v := Visit(HonestPeer(who, look), node, files, own);
            v.files == files + node.files && v.peer.files == files + node.files
            && v.outcome.Ok? && v.outcome.value.moved == Apart(files, node.files)
  {
    hide PullStream, PushStream, Lists, HonestPeer, IsListing, Fits, Readable, Grows, Canonical;
    var joined := files + node.files;
    PullJoins(who, look, node, files, u);
    JoinFits(files, node.files, u);
    FitsMeans(joined, u);
    ListsAt(own, joined);
    PushJoins(who, look, node, joined, own(joined), u);
    JoinCount(files, node.files);
  }

  lemma FitsMeans(files: Bodies, u: Bodies)
    requires Fits(files, u)
    ensures Readable(files) && |files| <= MAX_MOVES && Grows(files, u) && Canonical(files)
  {
    LedgerPart(files, u);
  }

  // --- One pass ---

  /** The bodies of a client and the reachable ones of its peers. */
  function Joined(files: Bodies, peers: seq<Option<Node>>): Bodies {
    if peers == [] then files else
    var front := Joined(files, peers[..|peers| - 1]);
    match peers[|peers| - 1]
    case None => front
    case Some(node) => front + node.files
  }

  /** The sum, over the reachable peers, of what the client and the peer are apart when the peer's turn comes. */
  function Distances(files: Bodies, peers: seq<Option<Node>>): nat {
    if peers == [] then 0 else
    var front := peers[..|peers| - 1];
    Distances(files, front) +
    match peers[|peers| - 1]
    case None => 0
    case Some(node) => Apart(Joined(files, front), node.files)
  }

  function Live(peers: seq<Option<Node>>): (n: nat)
    ensures n <= |peers|
  {
    if peers == [] then 0 else
    Live(peers[..|peers| - 1]) + if peers[|peers| - 1].Some? then 1 else 0
  }

  ghost predicate AllFit(peers: seq<Option<Node>>, u: Bodies) {
    forall i :: 0 <= i < |peers| && peers[i].Some? ==> Fits(peers[i].value.files, u)
  }

  /** Peer by peer: dead ones stay dead, and a live one holds what the client held after its turn. */
  ghost predicate Settled(after: seq<Option<Node>>, files: Bodies, peers: seq<Option<Node>>) {
    |after| == |peers|
    && forall i :: 0 <= i < |peers| ==>
         (after[i].Some? <==> peers[i].Some?)
         && (after[i].Some? ==> after[i].value.files == Joined(files, peers[..i + 1]))
  }

  lemma SettledNext(after: seq<Option<Node>>, files: Bodies, peers: seq<Option<Node>>, last: Option<Node>)
    requires peers != [] && Settled(after, files, peers[..|peers| - 1])
    requires last.Some? <==> peers[|peers| - 1].Some?
    requires last.Some? ==> last.value.files == Joined(files, peers)
    ensures Settled(after + [last], files, peers)
  {
    hide Joined;
    var n := |peers| - 1;
    assert peers[..n + 1] == peers;
    forall i | 0 <= i < n && after[i].Some? ensures after[i].value.files == Joined(files, peers[..i + 1]) {
      assert peers[..n][..i + 1] == peers[..i + 1];
    }
  }

  /** After a pass, client and peer i hold the client's bodies and those of peers 0 to i; dead peers change nothing. */
  lemma {:induction false} PassJoins(who: nat -> Caller, look: nat -> Lister, own: nat -> Lister, files: Bodies,
                                     peers: seq<Option<Node>>, u: Bodies)
    requires forall i: nat :: Lists(look(i)) && Lists(own(i))
    requires Fits(files, u) && AllFit(peers, u)
    ensures var r := Pass(Conns(who, look), own, files, peers);
            && r.files == Joined(files, peers) && Fits(r.files, u) && Settled(r.peers, files, peers)
            && r.ok == Live(peers) && r.failed == |peers| - Live(peers) && r.transferred == Distances(files, peers)
            && !r.ended
  {
    hide Lists, Fits, Visit, Settled, HonestPeer, Apart;
    if peers == [] {
      SettledNone(files);
    } else {
      var n := |peers| - 1;
      var front := peers[..n];
      PassJoins(who, look, own, files, front, u);
      var p := Pass(Conns(who, look), own, files, front);
      if peers[n].Some? {
        var node := peers[n].value;
        VisitJoins(who(n), look(n), node, p.files, own(n), u);
        JoinFits(p.files, node.files, u);
        SettledNext(p.peers, files, peers, Some(Visit(HonestPeer(who(n), look(n)), node, p.files, own(n)).peer));
      } else {
        SettledNext(p.peers, files, peers, None);
      }
    }
  }

  lemma SettledNone(files: Bodies)
    ensures Settled([], files, [])
  {
  }

  // --- Two passes, and a third ---

  ghost predicate AllWithin(peers: seq<Option<Node>>, files: Bodies) {
    forall i :: 0 <= i < |peers| && peers[i].Some? ==> Grows(peers[i].value.files, files)
  }

  ghost predicate AllHold(peers: seq<Option<Node>>, files: Bodies) {
    forall i :: 0 <= i < |peers| && peers[i].Some? ==> peers[i].value.files == files
  }

  /** Peers that hold nothing new leave the client as it is. */
  lemma {:induction false} JoinedAbsorbs(files: Bodies, peers: seq<Option<Node>>)
    requires AllWithin(peers, files)
    ensures Joined(files, peers) == files
    ensures AllHold(peers, files) ==> Distances(files, peers) == 0
  {
    if peers != [] {
      var n := |peers| - 1;
      JoinedAbsorbs(files, peers[..n]);
      if peers[n].Some? {
        assert Grows(peers[n].value.files, files);
        assert files + peers[n].value.files == files;
      }
    }
  }

  lemma {:induction false} JoinedGrows(files: Bodies, peers: seq<Option<Node>>, i: nat, u: Bodies)
    requires Fits(files, u) && AllFit(peers, u) && i <= |peers|
    ensures Fits(Joined(files, peers), u) && Grows(Joined(files, peers[..i]), Joined(files, peers))
  {
    hide Fits;
    if i == |peers| {
      assert peers[..i] == peers;
      JoinedFits(files, peers, u);
    } else {
      var n := |peers| - 1;
      JoinedGrows(files, peers[..n], i, u);
      assert peers[..n][..i] == peers[..i];
      if peers[n].Some? {
        JoinFits(Joined(files, peers[..n]), peers[n].value.files, u);
      }
    }
  }

  lemma {:induction false} JoinedFits(files: Bodies, peers: seq<Option<Node>>, u: Bodies)
    requires Fits(files, u) && AllFit(peers, u)
    ensures Fits(Joined(files, peers), u)
  {
    hide Fits;
    if peers != [] {
      var n := |peers| - 1;
      JoinedFits(files, peers[..n], u);
      if peers[n].Some? {
        JoinFits(Joined(files, peers[..n]), peers[n].value.files, u);
      }
    }
  }

  /** Everything a pass leaves behind is within the union. */
  lemma SettledWithin(after: seq<Option<Node>>, files: Bodies, peers: seq<Option<Node>>, u: Bodies)
    requires Fits(files, u) && AllFit(peers, u) && Settled(after, files, peers)
    ensures AllWithin(after, Joined(files, peers)) && AllFit(after, u)
  {
    hide Fits, Joined, Grows;
    forall i | 0 <= i < |after| && after[i].Some?
      ensures Grows(after[i].value.files, Joined(files, peers)) && Fits(after[i].value.files, u)
    {
      JoinedGrows(files, peers, i + 1, u);
      FitPrefix(peers, i + 1, u);
      JoinedFits(files, peers[..i + 1], u);
    }
  }

  lemma FitPrefix(peers: seq<Option<Node>>, i: nat, u: Bodies)
    requires AllFit(peers, u) && i <= |peers|
    ensures AllFit(peers[..i], u)
  {
    hide Fits;
  }

  lemma SettledHold(after: seq<Option<Node>>, files: Bodies, peers: seq<Option<Node>>)
    requires AllWithin(peers, files) && Settled(after, files, peers)
    ensures AllHold(after, files)
  {
    hide Joined, Grows;
    forall i | 0 <= i < |after| && after[i].Some? ensures after[i].value.files == files {
      WithinPrefix(peers, i + 1, files);
      JoinedAbsorbs(files, peers[..i + 1]);
    }
  }

  lemma WithinPrefix(peers: seq<Option<Node>>, i: nat, files: Bodies)
    requires AllWithin(peers, files) && i <= |peers|
    ensures AllWithin(peers[..i], files)
  {
    hide Grows;
  }

  /** A pass after which every reachable peer and the client hold `all`. */
  ghost predicate Converged(p: PassState<Node>, all: Bodies) {
    p.files == all && AllHold(p.peers, all)
  }

  /** How the connections and the local listings behave during one pass. */
  datatype Moment = Moment(who: nat -> Caller, look: nat -> Lister, own: nat -> Lister)

  ghost predicate Orderly(m: Moment) {
    forall i: nat :: Lists(m.look(i)) && Lists(m.own(i))
  }

  function PassAt(m: Moment, files: Bodies, peers: seq<Option<Node>>): PassState<Node> {
    Pass(Conns(m.who, m.look), m.own, files, peers)
  }

  /** A second pass brings every store to the union; a third moves nothing. */
  lemma TwoPassesConverge(first: Moment, second: Moment, third: Moment, files: Bodies, peers: seq<Option<Node>>,
                          u: Bodies)
    requires Orderly(first) && Orderly(second) && Orderly(third) && Fits(files, u) && AllFit(peers, u)
    ensures var p1 := PassAt(first, files, peers);
            var p2 := PassAt(second, p1.files, p1.peers);
            var p3 := PassAt(third, p2.files, p2.peers);
            && p1.files == Joined(files, peers) && Settled(p1.peers, files, peers)
            && Converged(p2, Joined(files, peers)) && Converged(p3, Joined(files, peers))
            && p1.transferred == Distances(files, peers) && p3.transferred == 0
  {
    hide Lists, Fits, Pass, Joined, Grows, Distances;
    var all := Joined(files, peers);
    PassJoins(first.who, first.look, first.own, files, peers, u);
    var p1 := PassAt(first, files, peers);
    SettledWithin(p1.peers, files, peers, u);
    PassJoins(second.who, second.look, second.own, all, p1.peers, u);
    JoinedAbsorbs(all, p1.peers);
    var p2 := PassAt(second, p1.files, p1.peers);
    SettledHold(p2.peers, all, p1.peers);
    SettledWithin(p2.peers, all, p1.peers, u);
    PassJoins(third.who, third.look, third.own, all, p2.peers, u);
    JoinedAbsorbs(all, p2.peers);
    SettledHold(PassAt(third, p2.files, p2.peers).peers, all, p2.peers);
  }

  // --- Where the ledger comes from ---

  function AllBodies(files: Bodies, peers: seq<Option<Node>>): set<Bytes> {
    if peers == [] then files.Values else
    AllBodies(files, peers[..|peers| - 1])
      + match peers[|peers| - 1] case None => {} case Some(node) => node.files.Values
  }

  ghost predicate AllCanonical(peers: seq<Option<Node>>) {
    forall i :: 0 <= i < |peers| && peers[i].Some? ==> Canonical(peers[i].value.files)
  }

  lemma JoinCanonical(a: Bodies, b: Bodies, known: set<Bytes>)
    requires Canonical(a) && Canonical(b) && a.Values <= known && b.Values <= known && NoCollision(known)
    ensures Canonical(a + b) && Grows(a, a + b) && Grows(b, a + b) && (a + b).Values <= known
  {
    hide CidOf, NoCollision;
    forall c | c in a && c in b ensures a[c] == b[c] {
      SameBody(a, b, known, c);
    }
  }

  lemma SameBody(a: Bodies, b: Bodies, known: set<Bytes>, c: Bytes)
    requires Canonical(a) && Canonical(b) && a.Values <= known && b.Values <= known && NoCollision(known)
    requires c in a && c in b
    ensures a[c] == b[c]
  {
    hide HexEncode;
    assert a[c] in a.Values && b[c] in b.Values;
    HexEncodeInjective(Sha256(a[c]), Sha256(b[c]));
  }

  /** Without collisions, the union of canonical stores is a canonical store that contains each of them. */
  lemma {:induction false} UnionIsLedger(files: Bodies, peers: seq<Option<Node>>, known: set<Bytes>)
    requires Canonical(files) && AllCanonical(peers) && NoCollision(known) && AllBodies(files, peers) <= known
    ensures Canonical(Joined(files, peers)) && Joined(files, peers).Values <= known
    ensures Grows(files, Joined(files, peers)) && AllWithin(peers, Joined(files, peers))
  {
    hide Canonical, NoCollision, Grows, AllWithin;
    if peers == [] {
      WithinNone(files);
    } else {
      var n := |peers| - 1;
      UnionIsLedger(files, peers[..n], known);
      var front, all := Joined(files, peers[..n]), Joined(files, peers);
      if peers[n].Some? {
        JoinCanonical(front, peers[n].value.files, known);
        GrowsOn(files, front, all);
      } else {
        SameGrows(front);
      }
      WithinMore(peers, front, all);
    }
  }

  lemma WithinNone(files: Bodies)
    ensures AllWithin([], files) && Grows(files, files)
  {
  }

  lemma GrowsOn(a: Bodies, b: Bodies, c: Bodies)
    requires Grows(a, b) && Grows(b, c)
    ensures Grows(a, c)
  {
  }

  lemma WithinMore(peers: seq<Option<Node>>, a: Bodies, b: Bodies)
    requires peers != [] && AllWithin(peers[..|peers| - 1], a) && Grows(a, b)
    requires peers[|peers| - 1].Some? ==> Grows(peers[|peers| - 1].value.files, b)
    ensures AllWithin(peers, b)
  {
    hide Grows;
    forall i | 0 <= i < |peers| && peers[i].Some? ensures Grows(peers[i].value.files, b) {
      if i < |peers| - 1 {
        assert peers[..|peers| - 1][i] == peers[i];
        GrowsOn(peers[i].value.files, a, b);
      }
    }
  }

  /**
   * Two-pass convergence from the stores alone: canonical stores, no digest collision among their
   * bodies, at most 2000 bodies in the union. Nothing else is assumed of the peers, of which are
   * reachable, or of how any directory is listed at any moment.
   */
  lemma StoresConverge(first: Moment, second: Moment, third: Moment, files: Bodies, peers: seq<Option<Node>>)
    requires Orderly(first) && Orderly(second) && Orderly(third)
    requires Canonical(files) && AllCanonical(peers) && NoCollision(AllBodies(files, peers))
    requires |Joined(files, peers)| <= MAX_MOVES
    ensures var p1 := PassAt(first, files, peers);
            var p2 := PassAt(second, p1.files, p1.peers);
            var p3 := PassAt(third, p2.files, p2.peers);
            && p1.files == Joined(files, peers) && Settled(p1.peers, files, peers)
            && Converged(p2, Joined(files, peers)) && Converged(p3, Joined(files, peers))
            && p1.transferred == Distances(files, peers) && p3.transferred == 0
  {
    hide PassAt, Joined, Canonical, Orderly, NoCollision, Settled, Distances, Grows;
    var u := Joined(files, peers);
    UnionIsLedger(files, peers, AllBodies(files, peers));
    TwoPassesConverge(first, second, third, files, peers, u);
  }
}
