/** Any sequence of passes, each with its own reachable peers: what the client and every peer hold afterwards. */
module Reachability {
  import opened Basics
  import opened Store
  import opened Sync
  import opened Honest
  import opened Pulling
  import opened Convergence

  /** One pass: how connections and listings behave during it, and which peers are reachable. */
  datatype Round = Round(moment: Moment, up: set<nat>)

  /** The client's store and the peers. */
  datatype Network = Network(files: Bodies, nodes: seq<Node>)

  function Masked(nodes: seq<Node>, up: set<nat>): (peers: seq<Option<Node>>)
    ensures |peers| == |nodes|
  {
    seq(|nodes|, i requires 0 <= i < |nodes| => if i in up then Some(nodes[i]) else None)
  }

  /** A peer that was not reached stays as it was. */
  function WrittenBack(nodes: seq<Node>, peers: seq<Option<Node>>): (after: seq<Node>)
    requires |peers| == |nodes|
    ensures |after| == |nodes|
  {
    seq(|nodes|, i requires 0 <= i < |nodes| => if peers[i].Some? then peers[i].value else nodes[i])
  }

  function Next(net: Network, r: Round): Network {
    var p := PassAt(r.moment, net.files, Masked(net.nodes, r.up));
    Network(p.files, WrittenBack(net.nodes, p.peers))
  }

  function After(net: Network, rounds: seq<Round>): Network {
    if rounds == [] then net else Next(After(net, rounds[..|rounds| - 1]), rounds[|rounds| - 1])
  }

  /** The peers reached in at least one round. */
  function Reached(rounds: seq<Round>): set<nat> {
    if rounds == [] then {} else Reached(rounds[..|rounds| - 1]) + rounds[|rounds| - 1].up
  }

  function Below(up: set<nat>, m: nat): set<nat> {
    set i | i in up && i < m
  }

  /** Whose stores had reached the client when peer i was last visited: itself, and whoever came before it. */
  function Heard(rounds: seq<Round>, i: nat): set<nat> {
    if rounds == [] then {} else
    var before, last := rounds[..|rounds| - 1], rounds[|rounds| - 1];
    if i in last.up then Reached(before) + Below(last.up, i + 1) else Heard(before, i)
  }

  /** The client's bodies and those of the peers in `group`. */
  function Pool(net: Network, group: set<nat>): Bodies {
    Joined(net.files, Masked(net.nodes, group))
  }

  /** What peer i holds after some rounds. */
  function Held(net: Network, rounds: seq<Round>, i: nat): Bodies
    requires i < |net.nodes|
  {
    if i in Reached(rounds) then Pool(net, Heard(rounds, i)) else net.nodes[i].files
  }

  // --- Unions by their members ---

  ghost predicate Has(peers: seq<Option<Node>>, m: nat, c: Bytes)
    requires m <= |peers|
  {
    exists i :: 0 <= i < m && peers[i].Some? && c in peers[i].value.files
  }

  lemma {:induction false} JoinedMember(files: Bodies, peers: seq<Option<Node>>, m: nat, c: Bytes)
    requires m <= |peers|
    ensures c in Joined(files, peers[..m]) <==> c in files || Has(peers, m, c)
  {
    if m > 0 {
      JoinedMember(files, peers, m - 1, c);
      assert peers[..m][..m - 1] == peers[..m - 1] && peers[..m][m - 1] == peers[m - 1];
      if Has(peers, m, c) && !Has(peers, m - 1, c) {
        assert peers[m - 1].Some? && c in peers[m - 1].value.files;
      }
    }
  }

  ghost predicate InGroup(net: Network, group: set<nat>, c: Bytes) {
    c in net.files || exists i :: i in group && i < |net.nodes| && c in net.nodes[i].files
  }

  lemma PoolMember(net: Network, group: set<nat>, c: Bytes)
    ensures c in Pool(net, group) <==> InGroup(net, group, c)
  {
    hide Joined;
    var peers := Masked(net.nodes, group);
    assert peers[..|peers|] == peers;
    JoinedMember(net.files, peers, |peers|, c);
    if InGroup(net, group, c) && c !in net.files {
      var i :| i in group && i < |net.nodes| && c in net.nodes[i].files;
      assert peers[i] == Some(net.nodes[i]);
    }
  }

  lemma {:induction false} HeardMeans(rounds: seq<Round>, i: nat)
    ensures Heard(rounds, i) <= Reached(rounds) && (i in Reached(rounds) <==> i in Heard(rounds, i))
  {
    if rounds != [] {
      HeardMeans(rounds[..|rounds| - 1], i);
    }
  }

  // --- One round ---

  /** All stores are parts of the ledger `u` of at most 2000 bodies. */
  ghost predicate AllPart(net: Network, u: Bodies) {
    Fits(net.files, u) && forall i :: 0 <= i < |net.nodes| ==> Fits(net.nodes[i].files, u)
  }

  /** The network after these rounds, store by store. */
  ghost predicate Explained(net: Network, rounds: seq<Round>, now: Network) {
    && now.files == Pool(net, Reached(rounds)) && |now.nodes| == |net.nodes|
    && forall i :: 0 <= i < |net.nodes| ==> now.nodes[i].files == Held(net, rounds, i)
  }

  lemma MaskedFit(net: Network, up: set<nat>, u: Bodies)
    requires AllPart(net, u)
    ensures AllFit(Masked(net.nodes, up), u)
  {
    hide Fits;
  }

  lemma PoolFits(net: Network, group: set<nat>, u: Bodies)
    requires AllPart(net, u)
    ensures Fits(Pool(net, group), u)
  {
    hide Fits, Joined, Masked;
    MaskedFit(net, group, u);
    JoinedFits(net.files, Masked(net.nodes, group), u);
  }

  lemma ExplainedFits(net: Network, rounds: seq<Round>, now: Network, u: Bodies)
    requires AllPart(net, u) && Explained(net, rounds, now)
    ensures AllPart(now, u)
  {
    hide Fits, Pool, Reached, Heard;
    PoolFits(net, Reached(rounds), u);
    forall i | 0 <= i < |now.nodes| ensures Fits(now.nodes[i].files, u) {
      assert now.nodes[i].files == Held(net, rounds, i);
      PoolFits(net, Heard(rounds, i), u);
    }
  }

  /** What peer i holds is its own, or part of what the client knows. */
  lemma HeldMember(net: Network, rounds: seq<Round>, i: nat, c: Bytes)
    requires i < |net.nodes|
    ensures c in net.nodes[i].files ==> c in Held(net, rounds, i)
    ensures c in Held(net, rounds, i) ==> c in net.nodes[i].files || InGroup(net, Reached(rounds), c)
  {
    hide Pool, Heard, Reached;
    HeardMeans(rounds, i);
    PoolMember(net, Heard(rounds, i), c);
  }

  /** The first m visits of a round bring together whoever was ever reached and those m. */
  lemma VisitsMember(net: Network, rounds: seq<Round>, now: Network, up: set<nat>, m: nat, c: Bytes)
    requires Explained(net, rounds, now) && m <= |net.nodes|
    ensures c in Joined(now.files, Masked(now.nodes, up)[..m])
            <==> InGroup(net, Reached(rounds) + Below(up, m), c)
  {
    hide Joined, Pool, Reached, Held;
    var peers, group := Masked(now.nodes, up), Reached(rounds) + Below(up, m);
    JoinedMember(now.files, peers, m, c);
    PoolMember(net, Reached(rounds), c);
    if Has(peers, m, c) {
      var i :| 0 <= i < m && peers[i].Some? && c in peers[i].value.files;
      HeldMember(net, rounds, i, c);
      assert i in group;
      GroupGrows(net, Reached(rounds), group, c);
    }
    if InGroup(net, group, c) && !InGroup(net, Reached(rounds), c) {
      var i :| i in group && i < |net.nodes| && c in net.nodes[i].files;
      HeldMember(net, rounds, i, c);
      assert peers[i] == Some(now.nodes[i]);
    }
    GroupGrows(net, Reached(rounds), group, c);
  }

  lemma GroupGrows(net: Network, some: set<nat>, group: set<nat>, c: Bytes)
    requires some <= group
    ensures InGroup(net, some, c) ==> InGroup(net, group, c)
  {
  }

  lemma VisitsJoin(net: Network, rounds: seq<Round>, now: Network, up: set<nat>, m: nat, u: Bodies)
    requires AllPart(net, u) && Explained(net, rounds, now) && m <= |net.nodes|
    ensures Joined(now.files, Masked(now.nodes, up)[..m]) == Pool(net, Reached(rounds) + Below(up, m))
  {
    hide Joined, Pool, Reached, Explained, Masked, InGroup, Fits, AllPart, Below;
    var peers, group := Masked(now.nodes, up), Reached(rounds) + Below(up, m);
    ExplainedFits(net, rounds, now, u);
    SameCount(net, rounds, now);
    PrefixFits(now, up, m, u);
    PoolFits(net, group, u);
    forall c ensures c in Joined(now.files, peers[..m]) <==> c in Pool(net, group) {
      VisitsMember(net, rounds, now, up, m, c);
      PoolMember(net, group, c);
    }
    FitsMeans(Joined(now.files, peers[..m]), u);
    FitsMeans(Pool(net, group), u);
    SameFiles(Joined(now.files, peers[..m]), Pool(net, group), u);
  }

  lemma SameCount(net: Network, rounds: seq<Round>, now: Network)
    requires Explained(net, rounds, now)
    ensures |now.nodes| == |net.nodes|
  {
  }

  lemma PrefixFits(net: Network, up: set<nat>, m: nat, u: Bodies)
    requires AllPart(net, u) && m <= |net.nodes|
    ensures Fits(Joined(net.files, Masked(net.nodes, up)[..m]), u)
  {
    hide Fits, Joined, Masked;
    MaskedFit(net, up, u);
    FitPrefix(Masked(net.nodes, up), m, u);
    JoinedFits(net.files, Masked(net.nodes, up)[..m], u);
  }

  /** One round, store by store: the client joins all that are reached, a reached peer those up to itself. */
  lemma NextMeans(now: Network, r: Round, u: Bodies)
    requires AllPart(now, u) && Orderly(r.moment)
    ensures var after, peers := Next(now, r), Masked(now.nodes, r.up);
            && after.files == Joined(now.files, peers) && |after.nodes| == |now.nodes|
            && forall i :: 0 <= i < |now.nodes| ==>
                 after.nodes[i].files == if i in r.up then Joined(now.files, peers[..i + 1]) else now.nodes[i].files
  {
    hide Joined, Fits, Pass, Distances, Live, Lists;
    MaskedFit(now, r.up, u);
    PassJoins(r.moment.who, r.moment.look, r.moment.own, now.files, Masked(now.nodes, r.up), u);
  }

  lemma HeldNext(net: Network, rounds: seq<Round>, r: Round, i: nat)
    requires i < |net.nodes|
    ensures Held(net, rounds + [r], i) ==
            if i in r.up then Pool(net, Reached(rounds) + Below(r.up, i + 1)) else Held(net, rounds, i)
  {
    hide Pool;
    assert (rounds + [r])[..|rounds|] == rounds;
  }

  lemma ReachedNext(rounds: seq<Round>, r: Round)
    ensures Reached(rounds + [r]) == Reached(rounds) + r.up
  {
    assert (rounds + [r])[..|rounds|] == rounds;
  }

  lemma NodeExplained(net: Network, rounds: seq<Round>, now: Network, r: Round, u: Bodies, i: nat)
    requires AllPart(net, u) && Explained(net, rounds, now) && Orderly(r.moment) && i < |net.nodes|
    ensures |Next(now, r).nodes| == |net.nodes|
    ensures Next(now, r).nodes[i].files == Held(net, rounds + [r], i)
  {
    assert |now.nodes| == |net.nodes| && now.nodes[i].files == Held(net, rounds, i);
    ExplainedFits(net, rounds, now, u);
    NextMeans(now, r, u);
    HeldNext(net, rounds, r, i);
    VisitsJoin(net, rounds, now, r.up, i + 1, u);
    hide Joined, Pool, Next, Held, Reached, Below, Orderly, AllPart, Masked, Explained;
  }

  lemma RoundExplained(net: Network, rounds: seq<Round>, now: Network, r: Round, u: Bodies)
    requires AllPart(net, u) && Explained(net, rounds, now) && Orderly(r.moment)
    ensures Explained(net, rounds + [r], Next(now, r))
  {
    ExplainedFits(net, rounds, now, u);
    NextMeans(now, r, u);
    WholeRound(net, rounds, now, r.up, u);
    ReachedNext(rounds, r);
    hide Joined, Pool, Next, Held, Reached, Orderly, AllPart, Masked;
    forall i | 0 <= i < |net.nodes| ensures Next(now, r).nodes[i].files == Held(net, rounds + [r], i) {
      NodeExplained(net, rounds, now, r, u, i);
    }
  }

  lemma WholeRound(net: Network, rounds: seq<Round>, now: Network, up: set<nat>, u: Bodies)
    requires AllPart(net, u) && Explained(net, rounds, now)
    ensures Joined(now.files, Masked(now.nodes, up)) == Pool(net, Reached(rounds) + up)
  {
    hide Joined, Reached, Fits, Held;
    var m := |net.nodes|;
    VisitsJoin(net, rounds, now, up, m, u);
    assert Masked(now.nodes, up)[..m] == Masked(now.nodes, up);
    assert Masked(net.nodes, Reached(rounds) + Below(up, m)) == Masked(net.nodes, Reached(rounds) + up);
  }

  // --- Any number of rounds ---

  lemma {:induction false} RoundsExplained(net: Network, rounds: seq<Round>, u: Bodies)
    requires AllPart(net, u) && forall k :: 0 <= k < |rounds| ==> Orderly(rounds[k].moment)
    ensures Explained(net, rounds, After(net, rounds))
  {
    hide Orderly, Next, AllPart;
    if rounds == [] {
      Untouched(net);
    } else {
      var n := |rounds| - 1;
      RoundsExplained(net, rounds[..n], u);
      RoundExplained(net, rounds[..n], After(net, rounds[..n]), rounds[n], u);
      assert rounds[..n] + [rounds[n]] == rounds;
    }
  }

  lemma Untouched(net: Network)
    ensures Explained(net, [], net)
  {
    var peers := Masked(net.nodes, {});
    assert AllWithin(peers, net.files);
    JoinedAbsorbs(net.files, peers);
  }

  function Everyone(nodes: seq<Node>): seq<Option<Node>> {
    seq(|nodes|, i requires 0 <= i < |nodes| => Some(nodes[i]))
  }

  /** Stores as the program writes them, no digest collision among their bodies, at most 2000 bodies in all. */
  ghost predicate Ordinary(net: Network) {
    && Canonical(net.files) && AllCanonical(Everyone(net.nodes))
    && NoCollision(AllBodies(net.files, Everyone(net.nodes)))
    && |Joined(net.files, Everyone(net.nodes))| <= MAX_MOVES
  }

  lemma OrdinaryFits(net: Network) returns (u: Bodies)
    requires Ordinary(net)
    ensures AllPart(net, u)
  {
    hide Canonical, NoCollision, Joined, Grows, AllBodies;
    var all := Everyone(net.nodes);
    u := Joined(net.files, all);
    UnionIsLedger(net.files, all, AllBodies(net.files, all));
    forall i | 0 <= i < |net.nodes| ensures Fits(net.nodes[i].files, u) {
      assert all[i] == Some(net.nodes[i]);
    }
  }

  /**
   * After any sequence of passes, whichever peers were reachable in each: the client holds its own bodies and
   * those of every peer reached at least once, and each of these peers holds exactly what had reached the
   * client when it was last visited. The other peers are as before.
   */
  lemma RoundsExactly(net: Network, rounds: seq<Round>)
    requires Ordinary(net) && forall k :: 0 <= k < |rounds| ==> Orderly(rounds[k].moment)
    ensures var now := After(net, rounds);
            && now.files == Pool(net, Reached(rounds)) && |now.nodes| == |net.nodes|
            && forall i :: 0 <= i < |net.nodes| ==> now.nodes[i].files == Held(net, rounds, i)
  {
    hide Ordinary, Orderly, After;
    var u := OrdinaryFits(net);
    RoundsExplained(net, rounds, u);
  }

  lemma {:induction false} StillHeard(rounds: seq<Round>, k: nat, i: nat)
    requires k < |rounds| && i in rounds[k].up
    ensures Reached(rounds[..k]) + Below(rounds[k].up, i + 1) <= Heard(rounds, i)
    ensures i in Reached(rounds) && Reached(rounds[..k + 1]) <= Reached(rounds)
  {
    var n := |rounds| - 1;
    assert rounds[..k + 1][..k] == rounds[..k];
    if k < n {
      StillHeard(rounds[..n], k, i);
      assert rounds[..n][..k] == rounds[..k] && rounds[..n][..k + 1] == rounds[..k + 1];
    } else {
      assert rounds[..k + 1] == rounds;
    }
  }

  /**
   * A peer visited in some pass when no peer is left to be reached for the first time holds, from then on, all
   * that the client holds: the union of every store that was ever reached.
   */
  lemma LateVisitHoldsAll(net: Network, rounds: seq<Round>, k: nat, i: nat)
    requires Ordinary(net) && forall j :: 0 <= j < |rounds| ==> Orderly(rounds[j].moment)
    requires k < |rounds| && i < |net.nodes| && i in rounds[k].up
    requires Reached(rounds) <= Reached(rounds[..k]) + Below(rounds[k].up, i + 1)
    ensures var now := After(net, rounds);
            |now.nodes| == |net.nodes| && now.nodes[i].files == now.files && now.files == Pool(net, Reached(rounds))
  {
    hide Ordinary, Orderly, After, Pool, Below;
    RoundsExactly(net, rounds);
    StillHeard(rounds, k, i);
    HeardMeans(rounds, i);
    assert Heard(rounds, i) == Reached(rounds);
  }
}
