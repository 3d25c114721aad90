/** What a pull from an honest node brings, exactly: the newest 2000 of its bodies, and never an older one. */
module Pulling {
  import opened Basics
  import opened Text
  import opened Json
  import opened Builders
  import opened Store
  import opened Sync
  import opened Honest

  /** Every file holds a body of legal size under the lower-case hex of its digest. */
  ghost predicate Canonical(files: Bodies) {
    forall c :: c in files ==> c == CidOf(files[c]) && 1 <= |files[c]| <= MAX_BODY
  }

  /** A way of listing directories by modification time; it may break ties anyhow, and differ from moment to moment. */
  ghost predicate Lists(look: Lister) {
    forall files :: |files| < TWO_63 ==> IsListing(look(files), files)
  }

  lemma PartCanonical(files: Bodies, u: Bodies)
    requires Grows(files, u) && Canonical(u)
    ensures Canonical(files) && Readable(files)
  {
  }

  // --- Listings of a canonical store ---

  ghost predicate Matches(view: seq<Digest>, order: seq<Bytes>) {
    |view| == |order| && forall i :: 0 <= i < |order| ==> HexEncode(view[i]) == order[i]
  }

  lemma {:induction false} ViewMatches(files: Bodies, order: seq<Bytes>)
    requires Canonical(files) && forall i :: 0 <= i < |order| ==> order[i] in files
    ensures Matches(ChainView(order), order)
  {
    hide DigestOf, HexEncode;
    if order != [] {
      var front, last := order[..|order| - 1], order[|order| - 1];
      ViewMatches(files, front);
      assert last == CidOf(files[last]);
      CidDigest(files[last]);
    }
  }

  /** The name in entry j of an honest chain list. */
  lemma EntryNames(order: seq<Bytes>, view: seq<Digest>, j: nat)
    requires Matches(view, order) && j < Min(|order|, MAX_LIST)
    ensures var entries := ChainValue(NewestOf(view));
            |entries| == Min(|order|, MAX_LIST)
            && IsPair(entries[j]) && BlidText(entries[j]) == order[|order| - 1 - j]
  {
    hide HexEncode, Select;
    SelectExactly(view, 0, MAX_LIST);
  }

  lemma EntryCount(order: seq<Bytes>, view: seq<Digest>)
    requires Matches(view, order)
    ensures |ChainValue(NewestOf(view))| == Min(|order|, MAX_LIST)
  {
    hide Select;
    SelectExactly(view, 0, MAX_LIST);
  }

  /** The names of the newest files, from number i up to number `end`. */
  function Span(order: seq<Bytes>, i: nat, end: nat): (names: set<Bytes>)
    requires end <= |order|
    decreases |order| - i
  {
    if i >= end then {} else {order[|order| - 1 - i]} + Span(order, i + 1, end)
  }

  /** The names of the `n` newest files. */
  function NewestNames(order: seq<Bytes>, n: nat): (names: set<Bytes>)
    requires n <= |order|
  {
    set k | |order| - n <= k < |order| :: order[k]
  }

  lemma {:induction false} SpanNames(order: seq<Bytes>, i: nat, end: nat)
    requires i <= end <= |order|
    ensures NewestNames(order, end) == NewestNames(order, i) + Span(order, i, end)
    decreases end - i
  {
    if i < end {
      SpanNames(order, i + 1, end);
      var name := order[|order| - 1 - i];
      assert NewestNames(order, i + 1) == NewestNames(order, i) + {name};
    }
  }

  lemma {:induction false} DistinctCount(order: seq<Bytes>)
    requires forall i, j :: 0 <= i < j < |order| ==> order[i] != order[j]
    ensures |set c | c in order| == |order|
  {
    if order != [] {
      var front, last := order[..|order| - 1], order[|order| - 1];
      DistinctCount(front);
      assert (set c | c in order) == (set c | c in front) + {last};
    }
  }

  /** A listing has as many names as there are files. */
  lemma ListingCount(order: seq<Bytes>, files: Bodies)
    requires IsListing(order, files)
    ensures |order| == |files|
  {
    DistinctCount(order);
    assert (set c | c in order) == files.Keys;
  }

  // --- The pull ---

  /** `after` is `before` with exactly the named files of `b` added. */
  ghost predicate Gained(before: Bodies, after: Bodies, b: Bodies, names: set<Bytes>) {
    after.Keys == before.Keys + names && Grows(before, after)
    && forall n :: n in after && n !in before ==> n in b && after[n] == b[n]
  }

  lemma NameReads(files: Bodies, name: Bytes)
    requires Canonical(files) && name in files
    ensures name == CidOf(files[name]) && |files[name]| <= MAX_BODY
    ensures !RadixPanics(name) && DigestOf(name) == Some(Sha256(files[name]))
  {
    hide DigestOf, RadixPanics, HexEncode;
    CidDigest(files[name]);
    IdIsSafe(Sha256(files[name]));
  }

  /** chain_view panics over no name of a canonical store. */
  lemma ListingIsSafe(files: Bodies, order: seq<Bytes>)
    requires Canonical(files) && IsListing(order, files)
    ensures ChainOf(order) == Some(ChainView(order))
  {
    hide Canonical, RadixPanics, ChainView;
    forall i | 0 <= i < |order| ensures !RadixPanics(order[i]) {
      assert order[i] in order;
      NameReads(files, order[i]);
    }
  }

  lemma EntryGains(who: Caller, look: Lister, node: Node, files: Bodies, entry: Json, i: nat, c: Counts)
    requires Able(look, node) && IsPair(entry) && Canonical(node.files) && BlidText(entry) in node.files
    ensures var name := BlidText(entry);
            PullEntry(HonestPeer(who, look), node, files, entry, i, c) ==
            if name in files then More(node, files, c.(had := c.had + 1))
            else if i >= MAX_MOVES then Done(Stream(node, files, Ok(c)))
            else More(node, files[name := node.files[name]], c.(moved := c.moved + 1))
  {
    hide DigestOf, CidOf, Accept, RpcCall, BlidMap, IsPair, BlidText, RadixPanics, Canonical;
    var name := BlidText(entry);
    var body := node.files[name];
    NameReads(node.files, name);
    if name !in files && i < MAX_MOVES {
      AskObject(who, look, node, 100 + i, body);
    }
  }

  /** From entry i on, a pull from an honest node gains exactly the names still in reach. */
  lemma {:induction false} PullGains(who: Caller, look: Lister, node: Node, files: Bodies, order: seq<Bytes>,
                                     entries: seq<Json>, i: nat, c: Counts)
    requires Able(look, node) && Canonical(node.files) && IsListing(order, node.files)
    requires |entries| == Min(|order|, MAX_LIST) && i <= |entries|
    requires forall j :: 0 <= j < |entries| ==> IsPair(entries[j]) && BlidText(entries[j]) == order[|order| - 1 - j]
    ensures var r := PullFrom(HonestPeer(who, look), node, files, entries, i, c);
            r.peer == node && r.outcome.Ok? && r.outcome.value.height == c.height
            && Gained(files, r.files, node.files, Span(order, i, Min(|order|, MAX_MOVES)))
    decreases |entries| - i
  {
    hide PullEntry, IsPair, BlidText, Canonical, Able;
    var end := Min(|order|, MAX_MOVES);
    if i < |entries| {
      var name := order[|order| - 1 - i];
      EntryGains(who, look, node, files, entries[i], i, c);
      var p := PullEntry(HonestPeer(who, look), node, files, entries[i], i, c);
      if p.More? {
        PullGains(who, look, node, p.files, order, entries, i + 1, p.counts);
        GainMore(files, p.files, PullFrom(HonestPeer(who, look), node, files, entries, i, c).files, node.files, name,
                 Span(order, i + 1, end), Span(order, i, end));
      }
    }
  }

  lemma GainMore(a: Bodies, b: Bodies, c: Bodies, src: Bodies, name: Bytes, rest: set<Bytes>, all: set<Bytes>)
    requires name in src && ((b == a && name in a) || (name !in a && b == a[name := src[name]] && name in all))
    requires Gained(b, c, src, rest) && all <= rest + {name} && rest <= all
    ensures Gained(a, c, src, all)
  {
  }

  /** The names a pull can fetch: the cap counts list entries, not fetches. */
  function Reach(order: seq<Bytes>): set<Bytes> {
    NewestNames(order, Min(|order|, MAX_MOVES))
  }

  /** The list of an honest node as the client sees it. */
  function Listed(order: seq<Bytes>): seq<Json> {
    ChainValue(NewestOf(ChainView(order)))
  }

  ghost predicate Names(entries: seq<Json>, order: seq<Bytes>) {
    |entries| == Min(|order|, MAX_LIST)
    && forall j :: 0 <= j < |entries| ==> IsPair(entries[j]) && BlidText(entries[j]) == order[|order| - 1 - j]
  }

  lemma ListedNames(order: seq<Bytes>)
    requires Matches(ChainView(order), order)
    ensures Names(Listed(order), order)
  {
    hide ChainView, HexEncode, ChainValue, NewestOf, IsPair, BlidText, Matches;
    EntryCount(order, ChainView(order));
    forall j | 0 <= j < |Listed(order)|
      ensures IsPair(Listed(order)[j]) && BlidText(Listed(order)[j]) == order[|order| - 1 - j]
    {
      EntryNames(order, ChainView(order), j);
    }
  }

  /** The peer's height is the number of its files, and its list names the 5000 newest, newest first. */
  lemma OpenHonest(who: Caller, look: Lister, node: Node)
    requires Canonical(node.files) && Lists(look) && |node.files| < TWO_63
    ensures Able(look, node) && IsListing(look(node.files), node.files)
    ensures OpenStream(HonestPeer(who, look), node) == (node, Ok((|node.files|, Listed(look(node.files)))))
    ensures Names(Listed(look(node.files)), look(node.files))
  {
    hide Handshake, ListChain, ChainView, ChainOf, HexEncode, CidOf, ChainValue, NewestOf, Names;
    var order := look(node.files);
    assert IsListing(order, node.files);
    ViewMatches(node.files, order);
    ListingCount(order, node.files);
    ListingIsSafe(node.files, order);
    AskHandshake(who, look, node);
    AskChain(who, look, node);
    ListedNames(order);
  }

  /**
   * A pull from an honest node: exactly the bodies in reach are gained, counted one by one, and the node is
   * as before.
   */
  lemma PullExactly(who: Caller, look: Lister, node: Node, files: Bodies)
    requires Canonical(node.files) && Lists(look) && |node.files| < TWO_63
    ensures var r := PullStream(HonestPeer(who, look), node, files);
            r.peer == node && Moved(r, |node.files|, |r.files| - |files|)
            && Gained(files, r.files, node.files, Reach(look(node.files)))
  {
    hide PullFrom, Gained, OpenStream, Listed, Canonical, Able, IsListing, IsPair, BlidText, Span;
    var order := look(node.files);
    OpenHonest(who, look, node);
    PullGains(who, look, node, files, order, Listed(order), 0, Counts(|node.files|, 0, 0));
    PullCounts(HonestPeer(who, look), node, files, Listed(order), 0, Counts(|node.files|, 0, 0));
    SpanNames(order, 0, Min(|order|, MAX_MOVES));
    assert NewestNames(order, 0) == {};
  }

  lemma AllInReach(order: seq<Bytes>, files: Bodies)
    requires IsListing(order, files) && |files| <= MAX_MOVES
    ensures Reach(order) == files.Keys
  {
    ListingCount(order, files);
  }

  /**
   * A pull completes exactly when every missing body is among the 2000 newest. When one is not, pulling
   * again from the same node fetches nothing more: older bodies can only arrive by the node's own push.
   */
  lemma PullCompletesExactly(who: Caller, look: Lister, node: Node, files: Bodies)
    requires Canonical(node.files) && Lists(look) && |node.files| < TWO_63
    ensures var after := PullStream(HonestPeer(who, look), node, files).files;
            && (node.files.Keys <= after.Keys <==> node.files.Keys - files.Keys <= Reach(look(node.files)))
            && PullStream(HonestPeer(who, look), node, after).files == after
            && Moved(PullStream(HonestPeer(who, look), node, after), |node.files|, 0)
  {
    hide PullStream, Reach, Canonical, Lists;
    PullExactly(who, look, node, files);
    var after := PullStream(HonestPeer(who, look), node, files).files;
    PullExactly(who, look, node, after);
    var again := PullStream(HonestPeer(who, look), node, after).files;
    assert again.Keys == after.Keys;
  }
}
