/** What a push to an honest node stores, exactly: the first 2000 bodies that the node is missing. */
module Pushing {
  import opened Basics
  import opened Text
  import opened Json
  import opened Store
  import opened Sync
  import opened Honest
  import opened Pulling

  // --- The peer's list ---

  lemma {:induction false} PeerHasExactly(entries: seq<Json>, order: seq<Bytes>)
    requires |entries| <= |order|
    requires forall j :: 0 <= j < |entries| ==> IsPair(entries[j]) && BlidText(entries[j]) == order[|order| - 1 - j]
    ensures PeerHas(entries) == Ok(NewestNames(order, |entries|))
  {
    hide IsPair, BlidText;
    if entries == [] {
      assert NewestNames(order, 0) == {};
    } else {
      var n := |entries| - 1;
      PeerHasExactly(entries[..n], order);
      assert BlidText(entries[n]) == order[|order| - 1 - n];
      assert NewestNames(order, n + 1) == NewestNames(order, n) + {order[|order| - 1 - n]};
    }
  }

  /** Up to 5000 files, the list names them all. */
  lemma PeerHasAll(order: seq<Bytes>, files: Bodies)
    requires IsListing(order, files) && |files| <= MAX_LIST && Names(Listed(order), order)
    ensures PeerHas(Listed(order)) == Ok(files.Keys)
  {
    hide IsPair, BlidText, Listed;
    ListingCount(order, files);
    PeerHasExactly(Listed(order), order);
    assert NewestNames(order, |order|) == files.Keys;
  }

  // --- The push loop ---

  /** How many of the listed names, from number k on, the peer did not list. */
  function Missing(order: seq<Bytes>, k: nat, peerHas: set<Bytes>): nat
    requires k <= |order|
    decreases |order| - k
  {
    if k == |order| then 0 else (if order[k] in peerHas then 0 else 1) + Missing(order, k + 1, peerHas)
  }

  lemma EntryPushes(who: Caller, look: Lister, node: Node, files: Bodies, cid: Digest, peerHas: set<Bytes>,
                    attempted: nat, pushed: nat)
    requires Able(look, node) && Canonical(files) && HexEncode(cid) in files
    ensures PushEntry(HonestPeer(who, look), node, files, cid, peerHas, [], attempted, pushed) ==
            if HexEncode(cid) in peerHas then Next(node, attempted, pushed)
            else if attempted >= MAX_MOVES then Over(node, Ok(pushed))
            else Next(Given(node, files[HexEncode(cid)]), attempted + 1, pushed + 1)
  {
    hide DigestOf, HexEncode, RpcCall, Stored, Readable;
    var body := files[HexEncode(cid)];
    HexEncodeInjective(cid, Sha256(body));
    if HexEncode(cid) !in peerHas && attempted < MAX_MOVES {
      AskPut(who, look, node, 201 + attempted, body);
    }
  }

  /** The loop's view of the peer: what it holds of the rest of the listing, it also listed. */
  ghost predicate Tracks(node: Node, order: seq<Bytes>, k: nat, peerHas: set<Bytes>) {
    peerHas <= node.files.Keys && forall j :: k <= j < |order| && order[j] in node.files ==> order[j] in peerHas
  }

  /** Everything fits in one ledger of at most 5000 bodies. */
  ghost predicate InLedger(files: Bodies, u: Bodies) {
    Grows(files, u) && Canonical(u) && |u| <= MAX_LIST
  }

  lemma LedgerPart(files: Bodies, u: Bodies)
    requires InLedger(files, u)
    ensures Canonical(files) && Readable(files) && |files| <= |u| <= MAX_LIST && files.Keys <= u.Keys
  {
    PartCanonical(files, u);
    SubsetSize(files.Keys, u.Keys);
  }

  /** What a push from listing position k on does to an honest peer. */
  ghost predicate Pushed(before: Node, after: Node, order: seq<Bytes>, k: nat, u: Bodies, gain: int, all: bool) {
    && Grows(before.files, after.files) && InLedger(after.files, u)
    && (forall c :: c in after.files && c !in before.files ==> c in order)
    && |after.files| == |before.files| + gain
    && (all ==> forall j :: k <= j < |order| ==> order[j] in after.files)
  }

  lemma TracksOn(node: Node, order: seq<Bytes>, k: nat, peerHas: set<Bytes>)
    requires Tracks(node, order, k, peerHas)
    ensures Tracks(node, order, k + 1, peerHas)
  {
  }

  lemma NameIsCid(files: Bodies, name: Bytes)
    requires Canonical(files) && name in files
    ensures name == CidOf(files[name])
  {
    hide CidOf;
  }

  /** One new body given. */
  lemma Gives(node: Node, files: Bodies, order: seq<Bytes>, k: nat, peerHas: set<Bytes>, u: Bodies)
    requires IsListing(order, files) && InLedger(files, u) && InLedger(node.files, u)
    requires k < |order| && Tracks(node, order, k, peerHas) && order[k] !in peerHas
    ensures var node' := Given(node, files[order[k]]);
            && Tracks(node', order, k + 1, peerHas) && Pushed(node, node', order, k, u, 1, false)
            && order[k] in node'.files
  {
    hide CidOf, Canonical;
    LedgerPart(files, u);
    NameIsCid(files, order[k]);
    assert order[k] !in node.files;
    assert node.files[order[k] := files[order[k]]].Keys == node.files.Keys + {order[k]};
  }

  lemma PushedThen(a: Node, b: Node, c: Node, order: seq<Bytes>, k: nat, u: Bodies, gain: int, all: bool)
    requires k < |order| && order[k] in b.files
    requires Pushed(a, b, order, k, u, 1, false) && Pushed(b, c, order, k + 1, u, gain, all)
    ensures Pushed(a, c, order, k, u, 1 + gain, all)
  {
    hide Canonical;
  }

  lemma PushedSkip(a: Node, c: Node, order: seq<Bytes>, k: nat, u: Bodies, gain: int, all: bool)
    requires k < |order| && order[k] in a.files && Pushed(a, c, order, k + 1, u, gain, all)
    ensures Pushed(a, c, order, k, u, gain, all)
  {
    hide Canonical;
  }

  lemma PushedNone(a: Node, order: seq<Bytes>, k: nat, u: Bodies, all: bool)
    requires InLedger(a.files, u) && k <= |order| && (all ==> forall j :: k <= j < |order| ==> order[j] in a.files)
    ensures Pushed(a, a, order, k, u, 0, all)
  {
    hide Canonical;
  }

  /** From listing position k on, a push moves exactly the missing bodies, up to the cap. */
  lemma {:induction false} PushGains(who: Caller, look: Lister, node: Node, files: Bodies, order: seq<Bytes>, k: nat,
                                     peerHas: set<Bytes>, attempted: nat, pushed: nat, u: Bodies)
    requires Lists(look) && IsListing(order, files) && InLedger(files, u) && InLedger(node.files, u)
    requires k <= |order| && attempted <= MAX_MOVES && Tracks(node, order, k, peerHas)
    requires Matches(ChainView(order), order) && |ChainView(order)| == |order|
    ensures var moved := Min(MAX_MOVES - attempted, Missing(order, k, peerHas));
            var (node', r) := PushFrom(HonestPeer(who, look), node, files, ChainView(order), k, peerHas, [],
                                           attempted, pushed);
            r == Ok(pushed + moved)
            && Pushed(node, node', order, k, u, moved, moved == Missing(order, k, peerHas))
    decreases |order| - k
  {
    hide PushEntry, ChainView, Readable, Pushed, Tracks, Given, InLedger, Lists, IsListing, Matches, HonestPeer;
    if k == |order| {
      PushedNone(node, order, k, u, true);
    } else {
      PushGainsNext(who, look, node, files, order, k, peerHas, attempted, pushed, u);
      if order[k] in peerHas {
        TracksOn(node, order, k, peerHas);
        PushGains(who, look, node, files, order, k + 1, peerHas, attempted, pushed, u);
        var (node', r) := PushFrom(HonestPeer(who, look), node, files, ChainView(order), k, peerHas, [],
                                       attempted, pushed);
        PushedSkip(node, node', order, k, u, Min(MAX_MOVES - attempted, Missing(order, k, peerHas)),
                   Missing(order, k, peerHas) <= MAX_MOVES - attempted);
      } else if attempted == MAX_MOVES {
        PushedNone(node, order, k, u, false);
      } else {
        var node1 := Given(node, files[order[k]]);
        Gives(node, files, order, k, peerHas, u);
        InLedgerPushed(node, node1, order, k, u, 1, false);
        PushGains(who, look, node1, files, order, k + 1, peerHas, attempted + 1, pushed + 1, u);
        var (node', r) := PushFrom(HonestPeer(who, look), node, files, ChainView(order), k, peerHas, [],
                                       attempted, pushed);
        PushedThen(node, node1, node', order, k, u, Min(MAX_MOVES - attempted - 1, Missing(order, k + 1, peerHas)),
                   Missing(order, k, peerHas) <= MAX_MOVES - attempted);
      }
    }
  }

  lemma InLedgerPushed(a: Node, b: Node, order: seq<Bytes>, k: nat, u: Bodies, gain: int, all: bool)
    requires Pushed(a, b, order, k, u, gain, all)
    ensures InLedger(b.files, u)
  {
  }

  /** The step of the loop at position k, in terms of names. */
  lemma PushGainsNext(who: Caller, look: Lister, node: Node, files: Bodies, order: seq<Bytes>, k: nat,
                      peerHas: set<Bytes>, attempted: nat, pushed: nat, u: Bodies)
    requires Lists(look) && IsListing(order, files) && InLedger(files, u) && InLedger(node.files, u)
    requires k < |order| && attempted <= MAX_MOVES && Tracks(node, order, k, peerHas)
             && Matches(ChainView(order), order)
    ensures order[k] in files && (order[k] in peerHas ==> order[k] in node.files)
    ensures PushEntry(HonestPeer(who, look), node, files, ChainView(order)[k], peerHas, [], attempted, pushed) ==
            if order[k] in peerHas then Next(node, attempted, pushed)
            else if attempted >= MAX_MOVES then Over(node, Ok(pushed))
            else Next(Given(node, files[order[k]]), attempted + 1, pushed + 1)
  {
    hide PushEntry, HexEncode, ChainView, Canonical, CidOf, Given;
    LedgerPart(files, u);
    LedgerPart(node.files, u);
    assert IsListing(look(node.files), node.files);
    EntryPushes(who, look, node, files, ChainView(order)[k], peerHas, attempted, pushed);
  }

  // --- Whole pushes ---

  lemma {:induction false} MissingCount(order: seq<Bytes>, k: nat, peerHas: set<Bytes>)
    requires k <= |order| && forall i, j :: 0 <= i < j < |order| ==> order[i] != order[j]
    ensures Missing(order, k, peerHas) == |set c | c in order[k..] && c !in peerHas|
    decreases |order| - k
  {
    if k < |order| {
      MissingCount(order, k + 1, peerHas);
      MissingNext(order, k, peerHas);
    }
  }

  lemma MissingNext(order: seq<Bytes>, k: nat, peerHas: set<Bytes>)
    requires k < |order| && forall i, j :: 0 <= i < j < |order| ==> order[i] != order[j]
    ensures |set c | c in order[k..] && c !in peerHas| ==
            |set c | c in order[k + 1..] && c !in peerHas| + if order[k] in peerHas then 0 else 1
  {
    var rest := set c | c in order[k + 1..] && c !in peerHas;
    assert order[k] !in rest;
    assert order[k..] == [order[k]] + order[k + 1..];
    assert (set c | c in order[k..] && c !in peerHas) == if order[k] in peerHas then rest else rest + {order[k]};
  }

  lemma MissingFiles(order: seq<Bytes>, files: Bodies, peerHas: set<Bytes>)
    requires IsListing(order, files)
    ensures Missing(order, 0, peerHas) == |files.Keys - peerHas|
  {
    MissingCount(order, 0, peerHas);
    assert order[0..] == order;
    assert (set c | c in order && c !in peerHas) == files.Keys - peerHas;
  }

  lemma SplitCount(a: set<Bytes>, b: set<Bytes>)
    requires a <= b
    ensures |b| == |a| + |b - a|
  {
    assert b == a + (b - a);
  }

  /** Of what was missing, the part that arrived is missing no more. */
  lemma StillMissing(files: set<Bytes>, before: set<Bytes>, after: set<Bytes>)
    requires before <= after && after - before <= files
    ensures |files - before| == |files - after| + (|after| - |before|)
  {
    SplitCount(before, after);
    SplitCount(after - before, files - before);
    assert (files - before) - (after - before) == files - after;
  }

  /**
   * One push to an honest peer moves exactly min(2000, number missing) bodies, loses nothing of the
   * peer's, and brings it nothing that the client does not hold.
   */
  lemma PushExactly(who: Caller, look: Lister, node: Node, files: Bodies, order: seq<Bytes>, u: Bodies)
    requires Lists(look) && IsListing(order, files) && InLedger(files, u) && InLedger(node.files, u)
    ensures var r := PushStream(HonestPeer(who, look), node, files, order, []);
            var missing := |files.Keys - node.files.Keys|;
            && r.files == files && Moved(r, |node.files|, Min(MAX_MOVES, missing))
            && Grows(node.files, r.peer.files) && InLedger(r.peer.files, u)
            && r.peer.files.Keys <= node.files.Keys + files.Keys
            && |files.Keys - r.peer.files.Keys| == missing - Min(MAX_MOVES, missing)
  {
    hide PushFrom, PushStream, Canonical, Pushed, ChainView, InLedger, Grows, IsListing, Lists, Matches, Readable,
         Missing;
    LedgerPart(files, u);
    PushOpens(who, look, node, files, order, u);
    ListingMatches(files, order);
    PushGains(who, look, node, files, order, 0, node.files.Keys, 0, 0, u);
    MissingFiles(order, files, node.files.Keys);
    PushedMeans(node, PushStream(HonestPeer(who, look), node, files, order, []).peer, files, order, u,
                Min(MAX_MOVES, |files.Keys - node.files.Keys|), |files.Keys - node.files.Keys| <= MAX_MOVES);
  }

  /** The opening of a push: the peer lists every file it has. */
  lemma PushOpens(who: Caller, look: Lister, node: Node, files: Bodies, order: seq<Bytes>, u: Bodies)
    requires Lists(look) && InLedger(node.files, u) && Canonical(files) && IsListing(order, files)
    ensures PushStream(HonestPeer(who, look), node, files, order, []) ==
            Sent(PushFrom(HonestPeer(who, look), node, files, ChainView(order), 0, node.files.Keys, [], 0, 0),
                 files, |node.files|, |node.files.Keys|)
  {
    hide PushFrom, OpenStream, PeerHas, Listed, Canonical, ChainView, ChainOf, InLedger, IsListing, Lists, Readable,
         Names, Able;
    LedgerPart(node.files, u);
    ListingIsSafe(files, order);
    OpenHonest(who, look, node);
    PeerHasAll(look(node.files), node.files);
  }

  lemma ListingMatches(files: Bodies, order: seq<Bytes>)
    requires Canonical(files) && IsListing(order, files)
    ensures Matches(ChainView(order), order) && |ChainView(order)| == |order|
  {
    hide Canonical;
    ViewMatches(files, order);
  }

  lemma PushedMeans(before: Node, after: Node, files: Bodies, order: seq<Bytes>, u: Bodies, gain: int, all: bool)
    requires IsListing(order, files) && Pushed(before, after, order, 0, u, gain, all)
    ensures Grows(before.files, after.files) && InLedger(after.files, u)
    ensures after.files.Keys <= before.files.Keys + files.Keys
    ensures |files.Keys - before.files.Keys| == |files.Keys - after.files.Keys| + gain
  {
    hide Canonical;
    StillMissing(files.Keys, before.files.Keys, after.files.Keys);
  }

  // --- Push passes one after the other ---

  /** The peer after `n` push passes of the same client store. */
  function PushTimes(conn: nat -> Peer<Node>, node: Node, files: Bodies, orders: nat -> seq<Bytes>, n: nat): Node
  {
    if n == 0 then node
    else PushStream(conn(n - 1), PushTimes(conn, node, files, orders, n - 1), files, orders(n - 1), []).peer
  }

  function Conns(who: nat -> Caller, look: nat -> Lister): nat -> Peer<Node> {
    (i: nat) => HonestPeer(who(i), look(i))
  }

  /** What is left of m bodies after n passes of at most 2000. */
  function Left(m: nat, n: nat): nat {
    if m <= 2000 * n then 0 else m - 2000 * n
  }

  /** `after` lost nothing of `start`, and has nothing that is not in one of the two stores. */
  ghost predicate Between(start: Bodies, files: Bodies, after: Bodies, u: Bodies) {
    Grows(start, after) && InLedger(after, u) && after.Keys <= start.Keys + files.Keys
  }

  function Lacks(files: Bodies, peer: Bodies): nat {
    |files.Keys - peer.Keys|
  }

  /** Callers, and listings of both sides, may differ from pass to pass. */
  lemma {:induction false} PushProgress(who: nat -> Caller, look: nat -> Lister, node: Node, files: Bodies,
                                        orders: nat -> seq<Bytes>, n: nat, u: Bodies)
    requires forall i: nat :: Lists(look(i)) && IsListing(orders(i), files)
    requires InLedger(files, u) && InLedger(node.files, u)
    ensures var after := PushTimes(Conns(who, look), node, files, orders, n).files;
            Between(node.files, files, after, u) && Lacks(files, after) == Left(Lacks(files, node.files), n)
  {
    hide PushStream, Lists, InLedger, Readable, IsListing, HonestPeer, Between, Lacks;
    if n == 0 {
      BetweenSame(node.files, files, u);
    } else {
      PushProgress(who, look, node, files, orders, n - 1, u);
      var before := PushTimes(Conns(who, look), node, files, orders, n - 1);
      PushAgain(who(n - 1), look(n - 1), node.files, before, files, orders(n - 1), u);
    }
  }

  lemma BetweenSame(start: Bodies, files: Bodies, u: Bodies)
    requires InLedger(start, u)
    ensures Between(start, files, start, u)
  {
    hide Canonical;
  }

  lemma BetweenNext(start: Bodies, files: Bodies, before: Bodies, after: Bodies, u: Bodies)
    requires Between(start, files, before, u) && Grows(before, after) && InLedger(after, u)
    requires after.Keys <= before.Keys + files.Keys
    ensures Between(start, files, after, u)
  {
    hide Canonical;
  }

  /** One more pass. */
  lemma PushAgain(who: Caller, look: Lister, start: Bodies, node: Node, files: Bodies, order: seq<Bytes>, u: Bodies)
    requires Lists(look) && IsListing(order, files) && InLedger(files, u)
    requires Between(start, files, node.files, u)
    ensures var after := PushStream(HonestPeer(who, look), node, files, order, []).peer.files;
            Between(start, files, after, u)
            && Lacks(files, after) == Lacks(files, node.files) - Min(MAX_MOVES, Lacks(files, node.files))
  {
    hide PushStream, Lists, InLedger, Readable, IsListing, HonestPeer, Grows;
    PushExactly(who, look, node, files, order, u);
    BetweenNext(start, files, node.files, PushStream(HonestPeer(who, look), node, files, order, []).peer.files, u);
  }

  /** A peer missing m bodies is complete after exactly ceil(m / 2000) passes: no pass fewer, none more. */
  lemma PushCompletesExactly(who: nat -> Caller, look: nat -> Lister, node: Node, files: Bodies,
                             orders: nat -> seq<Bytes>, n: nat, u: Bodies)
    requires forall i: nat :: Lists(look(i)) && IsListing(orders(i), files)
    requires InLedger(files, u) && InLedger(node.files, u)
    ensures PushTimes(Conns(who, look), node, files, orders, n).files.Keys == node.files.Keys + files.Keys
            <==> 2000 * n >= |files.Keys - node.files.Keys|
  {
    hide PushStream, Lists, InLedger, Readable, IsListing, PushTimes, Grows;
    PushProgress(who, look, node, files, orders, n, u);
    var after := PushTimes(Conns(who, look), node, files, orders, n).files;
    GrowsKeys(node.files, after);
    NothingLeft(files.Keys, after.Keys);
  }

  lemma GrowsKeys(a: Bodies, b: Bodies)
    requires Grows(a, b)
    ensures a.Keys <= b.Keys
  {
  }

  lemma NothingLeft(a: set<Bytes>, b: set<Bytes>)
    ensures |a - b| == 0 <==> a <= b
  {
    if a <= b {
      assert a - b == {};
    } else {
      var c :| c in a && c !in b;
      assert c in a - b;
    }
  }
}
