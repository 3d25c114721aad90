/** Where the names and the entries of a queue go when a verb runs on it. */
module QueueFacts {
  import opened Basics
  import opened Queue
  import opened Restart

  predicate DistinctPointers(q: Fifo) {
    forall i, j :: 0 <= i < j < |q| ==> q[i].pointer != q[j].pointer
  }

  lemma CidAt(q: Fifo, c: Bytes) returns (i: nat)
    requires c in Cids(q)
    ensures i < |q| && q[i].cid == c
  {
    var k :| 0 <= k < |q| && Cids(q)[k] == c;
    i := k;
  }

  lemma CidIn(q: Fifo, e: Queued)
    requires e in q
    ensures e.cid in Cids(q)
  {
    var k :| 0 <= k < |q| && q[k] == e;
    assert Cids(q)[k] == e.cid;
  }

  lemma {:induction false} ReapMembers(q: Fifo, now: nat, e: Queued)
    ensures e in Reap(q, now) <==> e in q && e.deadline > now
    ensures e in Dead(q, now) <==> e in q && e.deadline <= now
  {
    if q != [] {
      ReapMembers(q[1..], now, e);
      assert e in q <==> e == q[0] || e in q[1..];
    }
  }

  /** What is kept of the rest of a queue comes from a later position. */
  lemma ReapedFrom(q: Fifo, now: nat, j: nat) returns (k: nat)
    requires q != [] && j < |Reap(q[1..], now)|
    ensures 0 < k < |q| && q[k] == Reap(q[1..], now)[j]
  {
    hide Reap;
    var e := Reap(q[1..], now)[j];
    ReapMembers(q[1..], now, e);
    var i :| 0 <= i < |q[1..]| && q[1..][i] == e;
    k := i + 1;
  }

  lemma {:induction false} ReapDistinct(q: Fifo, now: nat)
    requires DistinctCids(q) && DistinctPointers(q)
    ensures DistinctCids(Reap(q, now)) && DistinctPointers(Reap(q, now))
  {
    if q != [] {
      ReapDistinct(q[1..], now);
      ReapFirst(q, now);
      hide Reap;
      var r := Reap(q[1..], now);
      forall j | 0 <= j < |r| ensures r[j].cid != q[0].cid && r[j].pointer != q[0].pointer {
        var k := ReapedFrom(q, now, j);
      }
    }
  }

  /** An entry after a put is an old one, or has the new name, pointer and deadline. */
  lemma PutMembers(q: Fifo, e: Queued, cap: nat, now: nat, x: Queued)
    requires x in Put(q, e, cap, now).queue
    ensures x in q || (x.cid == e.cid && x.pointer == e.pointer && x.deadline == e.deadline)
  {
    var m, n := Merge(q, e), Excess(q, e, cap);
    ReapMembers(m[n..], now, x);
  }

  /** A name that was queued, or is the new one, is still queued or has been dropped. */
  lemma PutKeepsOrDrops(q: Fifo, e: Queued, cap: nat, now: nat, c: Bytes)
    requires c in Cids(q) || c == e.cid
    ensures c in Cids(Put(q, e, cap, now).queue) || c in Put(q, e, cap, now).drops
  {
    hide Reap, Dead, Excess;
    var m, n := Merge(q, e), Excess(q, e, cap);
    if c !in Superseded(q, e) {
      var k := MergeName(q, e, c);
      if k < n {
        assert m[..n][k] == m[k];
        CidIn(m[..n], m[k]);
      } else {
        assert m[n..][k - n] == m[k];
        ReapMembers(m[n..], now, m[k]);
        if m[k].deadline > now {
          CidIn(Reap(m[n..], now), m[k]);
        } else {
          CidIn(Dead(m[n..], now), m[k]);
        }
      }
    }
  }

  lemma MergeName(q: Fifo, e: Queued, c: Bytes) returns (k: nat)
    requires c in Cids(q) || c == e.cid
    requires c !in Superseded(q, e)
    ensures k < |Merge(q, e)| && Merge(q, e)[k].cid == c
  {
    if c == e.cid {
      k := Find(q, e.pointer);
    } else {
      k := CidAt(q, c);
    }
  }

  /** Only queued names, or the new one, are dropped. */
  lemma PutDropsKnown(q: Fifo, e: Queued, cap: nat, now: nat, c: Bytes)
    requires c in Put(q, e, cap, now).drops
    ensures c in Cids(q) || c == e.cid
  {
    hide Reap, Dead, Excess, Find;
    var m, n := Merge(q, e), Excess(q, e, cap);
    if c in Cids(m[..n]) {
      var k := CidAt(m[..n], c);
      MergeKnown(q, e, k);
    } else if c in Cids(Dead(m[n..], now)) {
      var k := CidAt(Dead(m[n..], now), c);
      var x := Dead(m[n..], now)[k];
      ReapMembers(m[n..], now, x);
      var j :| 0 <= j < |m[n..]| && m[n..][j] == x;
      MergeKnown(q, e, n + j);
    } else {
      assert c in Superseded(q, e);
      CidIn(q, q[Find(q, e.pointer)]);
    }
  }

  lemma MergeKnown(q: Fifo, e: Queued, k: nat)
    requires k < |Merge(q, e)|
    ensures Merge(q, e)[k].cid in Cids(q) || Merge(q, e)[k].cid == e.cid
  {
    if k < |q| {
      CidIn(q, q[k]);
    }
  }

  /** No two entries have this name. */
  predicate Alone(q: Fifo, c: Bytes) {
    forall i, j :: 0 <= i < j < |q| && q[i].cid == c ==> q[j].cid != c
  }

  /** With distinct names before the merge, no dropped name belongs to an entry that stays and is alone after it. */
  lemma PutKeepsFiles(q: Fifo, e: Queued, cap: nat, now: nat, x: Queued, c: Bytes)
    requires DistinctCids(q) && Alone(Merge(q, e), x.cid) && x in Put(q, e, cap, now).queue
    requires c in Put(q, e, cap, now).drops
    ensures c != x.cid
  {
    hide Reap, Dead, Excess, Find, Merge, Superseded, DistinctCids, Cids, Alone;
    var m, n := Merge(q, e), Excess(q, e, cap);
    ReapMembers(m[n..], now, x);
    var k := After(m, n, x);
    if c in Superseded(q, e) {
      NotSuperseded(q, e, k);
    } else if c in Cids(m[..n]) {
      var j := CidAt(m[..n], c);
      CidsDiffer(m, j, k);
    } else {
      var j := CidAt(Dead(m[n..], now), c);
      var y := Dead(m[n..], now)[j];
      ReapMembers(m[n..], now, y);
      var i := After(m, n, y);
      CidsDiffer(m, i, k);
    }
  }

  lemma After(q: Fifo, n: nat, x: Queued) returns (k: nat)
    requires n <= |q| && x in q[n..]
    ensures n <= k < |q| && q[k] == x
  {
    var i :| 0 <= i < |q[n..]| && q[n..][i] == x;
    k := n + i;
  }

  lemma CidsDiffer(q: Fifo, i: nat, j: nat)
    requires j < |q| && Alone(q, q[j].cid) && i < |q| && i != j
    ensures q[i].cid != q[j].cid
  {
  }

  lemma NotSuperseded(q: Fifo, e: Queued, k: nat)
    requires DistinctCids(q) && k < |Merge(q, e)|
    ensures Merge(q, e)[k].cid !in Superseded(q, e)
  {
    hide Find;
  }

  /** A merge keeps pointers distinct, and names too when the new name belongs to no other pointer. */
  lemma MergeDistinct(q: Fifo, e: Queued)
    requires DistinctCids(q) && DistinctPointers(q)
    requires forall k :: 0 <= k < |q| && q[k].cid == e.cid ==> q[k].pointer == e.pointer
    ensures DistinctCids(Merge(q, e)) && DistinctPointers(Merge(q, e))
  {
    hide Find;
    var i := Find(q, e.pointer);
    var m := Merge(q, e);
    assert forall k :: 0 <= k < |m| && k != i ==> m[k] == q[k];
    assert i < |m| && m[i].cid == e.cid && m[i].pointer == e.pointer;
    assert forall k :: 0 <= k < |q| && k != i ==> q[k].pointer != e.pointer && q[k].cid != e.cid;
  }

  lemma PutDistinct(q: Fifo, e: Queued, cap: nat, now: nat)
    requires DistinctCids(Merge(q, e)) && DistinctPointers(Merge(q, e))
    ensures DistinctCids(Put(q, e, cap, now).queue) && DistinctPointers(Put(q, e, cap, now).queue)
  {
    hide Merge, Excess, Reap, Dead;
    ReapDistinct(Merge(q, e)[Excess(q, e, cap)..], now);
  }
}
