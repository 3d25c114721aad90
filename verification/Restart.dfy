/** Restart: the rebuilt index does not depend on how the directory lists its files. */
module Restart {
  import opened Basics
  import opened Queue
  import opened Hold

  // --- The sort ---

  predicate Ascending(q: Fifo) {
    forall i, j :: 0 <= i < j < |q| ==> Before(q[i], q[j])
  }

  predicate DistinctCids(q: Fifo) {
    forall i, j :: 0 <= i < j < |q| ==> q[i].cid != q[j].cid
  }

  lemma BeforeTotal(a: Queued, b: Queued)
    requires a.cid != b.cid
    ensures Before(a, b) || Before(b, a)
    ensures !(Before(a, b) && Before(b, a))
  {
    LessTotal(a.cid, b.cid);
  }

  lemma BeforeTransitive(a: Queued, b: Queued, c: Queued)
    requires Before(a, b) && Before(b, c)
    ensures Before(a, c)
  {
    if a.receivedAt == b.receivedAt == c.receivedAt {
      LessTransitive(a.cid, b.cid, c.cid);
    }
  }

  lemma {:induction false} PlaceSame(e: Queued, q: Fifo)
    ensures multiset(Place(e, q)) == multiset(q) + multiset{e}
  {
    if q != [] && Before(q[0], e) {
      PlaceSame(e, q[1..]);
      assert q == [q[0]] + q[1..];
    }
  }

  lemma {:induction false} SortSame(q: Fifo)
    ensures multiset(Sort(q)) == multiset(q)
  {
    if q != [] {
      SortSame(q[..|q| - 1]);
      PlaceSame(q[|q| - 1], Sort(q[..|q| - 1]));
      assert q == q[..|q| - 1] + [q[|q| - 1]];
    }
  }

  /** Sorting changes neither what is in a queue nor how often. */
  lemma SortMembers(q: Fifo, e: Queued)
    ensures e in Sort(q) <==> e in q
  {
    SortSame(q);
    assert e in multiset(Sort(q)) <==> e in multiset(q);
  }

  lemma {:induction false} PlaceAscending(e: Queued, q: Fifo)
    requires Ascending(q) && DistinctCids(q) && forall i :: 0 <= i < |q| ==> q[i].cid != e.cid
    ensures Ascending(Place(e, q)) && DistinctCids(Place(e, q))
  {
    if q != [] {
      BeforeTotal(q[0], e);
      if Before(q[0], e) {
        PlaceAscending(e, q[1..]);
        PlaceSame(e, q[1..]);
        var r := Place(e, q[1..]);
        forall j | 0 <= j < |r| ensures Before(q[0], r[j]) && q[0].cid != r[j].cid {
          assert r[j] in multiset(r);
          assert r[j] in multiset(q[1..]) || r[j] == e;
        }
      } else {
        forall j | 0 <= j < |q| ensures Before(e, q[j]) {
          if j > 0 {
            BeforeTransitive(e, q[0], q[j]);
          }
        }
      }
    }
  }

  lemma {:induction false} SortAscending(q: Fifo)
    requires DistinctCids(q)
    ensures Ascending(Sort(q)) && DistinctCids(Sort(q))
  {
    if q != [] {
      var k := |q| - 1;
      SortAscending(q[..k]);
      var s := Sort(q[..k]);
      forall i | 0 <= i < |s| ensures s[i].cid != q[k].cid {
        SortMembers(q[..k], s[i]);
      }
      PlaceAscending(q[k], s);
    }
  }

  lemma HasMember(q: Fifo)
    requires q != []
    ensures exists e :: e in q
  {
    assert q[0] in q;
  }

  /** Two ascending queues with the same members are the same queue. */
  lemma {:induction false} AscendingUnique(a: Fifo, b: Fifo)
    requires Ascending(a) && Ascending(b) && DistinctCids(a) && DistinctCids(b)
    requires forall e :: e in a <==> e in b
    ensures a == b
  {
    if a == [] {
      if b != [] {
        HasMember(b);
        assert false;
      }
    } else {
      assert a[0] in b && b[0] in a;
      if a[0] != b[0] {
        assert Before(b[0], a[0]) && Before(a[0], b[0]);
        LessTotal(a[0].cid, b[0].cid);
        assert false;
      }
      forall e ensures e in a[1..] <==> e in b[1..] {
        Others(a, b, e);
        Others(b, a, e);
      }
      AscendingUnique(a[1..], b[1..]);
      assert a == [a[0]] + a[1..] && b == [b[0]] + b[1..];
    }
  }

  lemma Others(a: Fifo, b: Fifo, e: Queued)
    requires a != [] && b != [] && a[0] == b[0] && DistinctCids(a) && (e in a ==> e in b)
    ensures e in a[1..] ==> e in b[1..]
  {
    if e in a[1..] {
      var i :| 0 <= i < |a[1..]| && a[1..][i] == e;
      assert a[i + 1] == e && e.cid != a[0].cid;
      var j :| 0 <= j < |b| && b[j] == e;
      assert b[1..][j - 1] == e;
    }
  }

  // --- What a listing holds ---

  predicate IsEntry(e: Queued, files: Files, h: Bytes, now: nat, horizon: nat) {
    e.cid in files && Kept(files[e.cid], now, horizon) && HandleOf(files[e.cid]) == h
    && e == EntryOf(e.cid, files[e.cid])
  }

  lemma {:induction false} ListedMembers(order: seq<Bytes>, files: Files, h: Bytes, now: nat, horizon: nat, e: Queued)
    requires forall c :: c in order ==> c in files
    ensures e in Listed(order, files, h, now, horizon) <==> e.cid in order && IsEntry(e, files, h, now, horizon)
  {
    if order != [] {
      var k := |order| - 1;
      ListedMembers(order[..k], files, h, now, horizon, e);
      assert order == order[..k] + [order[k]];
    }
  }

  lemma {:induction false} ListedDistinct(order: seq<Bytes>, files: Files, h: Bytes, now: nat, horizon: nat)
    requires forall c :: c in order ==> c in files
    requires forall i, j :: 0 <= i < j < |order| ==> order[i] != order[j]
    ensures DistinctCids(Listed(order, files, h, now, horizon))
  {
    if order != [] {
      var k := |order| - 1;
      ListedDistinct(order[..k], files, h, now, horizon);
      var q := Listed(order[..k], files, h, now, horizon);
      forall i | 0 <= i < |q| ensures q[i].cid != order[k] {
        ListedMembers(order[..k], files, h, now, horizon, q[i]);
      }
    }
  }

  /** The rebuilt queue of a handle: ascending, with one entry per kept file of that handle. */
  lemma RebuiltQueue(order: seq<Bytes>, files: Files, h: Bytes, now: nat, horizon: nat)
    requires IsListing(order, files)
    ensures var q := Sort(Listed(order, files, h, now, horizon));
            Ascending(q) && DistinctCids(q) && forall e :: e in q <==> IsEntry(e, files, h, now, horizon)
  {
    var l := Listed(order, files, h, now, horizon);
    ListedDistinct(order, files, h, now, horizon);
    SortAscending(l);
    forall e ensures e in Sort(l) <==> IsEntry(e, files, h, now, horizon) {
      SortMembers(l, e);
      ListedMembers(order, files, h, now, horizon, e);
    }
  }

  // --- Restart theorems ---

  /** Any two listings of the same files rebuild the same queues. */
  lemma OpenIsDeterministic(a: seq<Bytes>, b: seq<Bytes>, files: Files, h: Bytes, now: nat, horizon: nat)
    requires IsListing(a, files) && IsListing(b, files)
    ensures Sort(Listed(a, files, h, now, horizon)) == Sort(Listed(b, files, h, now, horizon))
  {
    RebuiltQueue(a, files, h, now, horizon);
    RebuiltQueue(b, files, h, now, horizon);
    AscendingUnique(Sort(Listed(a, files, h, now, horizon)), Sort(Listed(b, files, h, now, horizon)));
  }

  /** Opening again at the same time changes no file and no queue, whatever the new listing. */
  lemma OpenIsIdempotent(a: seq<Bytes>, b: seq<Bytes>, files: Files, h: Bytes, now: nat, horizon: nat)
    requires IsListing(a, files) && IsListing(b, OpenFiles(files, now, horizon))
    ensures OpenFiles(OpenFiles(files, now, horizon), now, horizon) == OpenFiles(files, now, horizon)
    ensures Sort(Listed(b, OpenFiles(files, now, horizon), h, now, horizon)) == Sort(Listed(a, files, h, now, horizon))
  {
    KeptStayKept(files, h, now, horizon);
    hide Sort, Listed, IsEntry, Ascending, DistinctCids, OpenFiles;
    var kept := OpenFiles(files, now, horizon);
    RebuiltQueue(a, files, h, now, horizon);
    RebuiltQueue(b, kept, h, now, horizon);
    AscendingUnique(Sort(Listed(b, kept, h, now, horizon)), Sort(Listed(a, files, h, now, horizon)));
  }

  lemma KeptStayKept(files: Files, h: Bytes, now: nat, horizon: nat)
    ensures OpenFiles(OpenFiles(files, now, horizon), now, horizon) == OpenFiles(files, now, horizon)
    ensures forall e :: IsEntry(e, OpenFiles(files, now, horizon), h, now, horizon)
                        <==> IsEntry(e, files, h, now, horizon)
  {
    hide Kept, HandleOf, EntryOf;
  }

  /** In a rebuilt queue, envelopes received in different seconds stand in the order of their files. */
  lemma RebuiltOrder(order: seq<Bytes>, files: Files, h: Bytes, now: nat, horizon: nat, i: nat, j: nat)
    requires IsListing(order, files)
    requires var q := Sort(Listed(order, files, h, now, horizon));
             i < |q| && j < |q| && q[i].receivedAt < q[j].receivedAt
    ensures i < j
  {
    hide Sort, Listed;
    RebuiltQueue(order, files, h, now, horizon);
    EarlierFirst(Sort(Listed(order, files, h, now, horizon)), i, j);
  }

  lemma EarlierFirst(q: Fifo, i: nat, j: nat)
    requires Ascending(q) && i < |q| && j < |q| && q[i].receivedAt < q[j].receivedAt
    ensures i < j
  {
    if j <= i {
      TimesAscend(q, j, i);
    }
  }

  lemma TimesAscend(q: Fifo, i: nat, j: nat)
    requires Ascending(q) && i <= j < |q|
    ensures q[i].receivedAt <= q[j].receivedAt
  {
    if i < j {
      assert Before(q[i], q[j]);
    }
  }
}
