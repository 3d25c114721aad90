/** One handle's FIFO of pointers, and what fput and fpop do to it. */
module Queue {
  import opened Basics
  import opened Envelope

  /** A queued pointer; `cid` names its file in the hold. */
  datatype Queued = Queued(pointer: Pointer, cid: Bytes, deadline: nat, receivedAt: nat)

  type Fifo = seq<Queued>

  /** A queue after a verb, and the files the verb dropped, in order. */
  datatype Step = Step(queue: Fifo, drops: seq<Bytes>)

  function Cids(q: Fifo): (cs: seq<Bytes>)
    ensures |cs| == |q|
  {
    seq(|q|, i requires 0 <= i < |q| => q[i].cid)
  }

  function Pointers(q: Fifo): (ps: seq<Pointer>)
    ensures |ps| == |q|
  {
    seq(|q|, i requires 0 <= i < |q| => q[i].pointer)
  }

  // --- fput ---

  /** The first entry for `p`; |q| when there is none. */
  function Find(q: Fifo, p: Pointer): (i: nat)
    ensures i <= |q|
    ensures i < |q| ==> q[i].pointer == p
    ensures forall k :: 0 <= k < i ==> q[k].pointer != p
  {
    if q == [] || q[0].pointer == p then 0 else 1 + Find(q[1..], p)
  }

  predicate Queues(q: Fifo, p: Pointer) {
    Find(q, p) < |q|
  }

  /** The queue with `e` refreshed in place, or appended. */
  function Merge(q: Fifo, e: Queued): Fifo {
    var i := Find(q, e.pointer);
    if i < |q| then q[i := q[i].(deadline := e.deadline, cid := e.cid)] else q + [e]
  }

  /** The file that a refresh supersedes: none when the envelope came out identical. */
  function Superseded(q: Fifo, e: Queued): seq<Bytes> {
    var i := Find(q, e.pointer);
    if i < |q| && q[i].cid != e.cid then [q[i].cid] else []
  }

  /** How many of the oldest entries must go: appending evicts, refreshing does not. */
  function Excess(q: Fifo, e: Queued, cap: nat): (n: nat)
    ensures n <= |Merge(q, e)|
  {
    if Queues(q, e.pointer) || |q| < cap then 0 else |q| + 1 - cap
  }

  function Reap(q: Fifo, now: nat): (r: Fifo)
    ensures |r| <= |q|
    ensures forall i :: 0 <= i < |r| ==> r[i].deadline > now && r[i] in q
  {
    if q == [] then [] else (if q[0].deadline > now then [q[0]] else []) + Reap(q[1..], now)
  }

  function Dead(q: Fifo, now: nat): (r: Fifo)
    ensures forall i :: 0 <= i < |r| ==> r[i].deadline <= now && r[i] in q
  {
    if q == [] then [] else (if q[0].deadline > now then [] else [q[0]]) + Dead(q[1..], now)
  }

  /** fput's critical section. */
  function Put(q: Fifo, e: Queued, cap: nat, now: nat): Step {
    var m, n := Merge(q, e), Excess(q, e, cap);
    Step(Reap(m[n..], now), Superseded(q, e) + Cids(m[..n]) + Cids(Dead(m[n..], now)))
  }

  /** The last `n` entries, or all. */
  function Last(q: Fifo, n: nat): Fifo {
    if |q| <= n then q else q[|q| - n..]
  }

  function IfLive(e: Queued, now: nat): Fifo {
    if e.deadline > now then [e] else []
  }

  lemma ReapFirst(q: Fifo, now: nat)
    requires q != []
    ensures Reap(q, now) == IfLive(q[0], now) + Reap(q[1..], now)
  {
  }

  lemma {:induction false} ReapAppend(a: Fifo, b: Fifo, now: nat)
    ensures Reap(a + b, now) == Reap(a, now) + Reap(b, now)
  {
    if a == [] {
      assert a + b == b && Reap(a, now) == [];
    } else {
      hide Reap, IfLive;
      ReapAppend(a[1..], b, now);
      ReapFirst(a, now);
      ReapFirst(a + b, now);
      assert (a + b)[1..] == a[1..] + b;
      Associative(IfLive(a[0], now), Reap(a[1..], now), Reap(b, now));
    }
  }

  lemma Associative(a: Fifo, b: Fifo, c: Fifo)
    ensures a + (b + c) == a + b + c
  {
  }

  /**
   * fput leaves exactly the unexpired part of the last `cap` merged entries, and at most `cap` of them,
   * whenever the queue was within its cap or the pointer is new. A refresh in an over-full queue (a hold
   * may start so) leaves that part exactly when everything older has expired.
   */
  lemma PutExactly(q: Fifo, e: Queued, cap: nat, now: nat)
    ensures var m := Merge(q, e);
            Put(q, e, cap, now).queue == Reap(Last(m, cap), now)
            <==> |q| <= cap || !Queues(q, e.pointer) || Reap(m[..|m| - cap], now) == []
    ensures |q| <= cap || !Queues(q, e.pointer) ==> |Put(q, e, cap, now).queue| <= cap
  {
    hide Reap, Dead, Find;
    var m := Merge(q, e);
    if |q| > cap && Queues(q, e.pointer) {
      var k := |m| - cap;
      ReapAppend(m[..k], m[k..], now);
      assert m[..k] + m[k..] == m && m[0..] == m;
      NothingBefore(Reap(m[..k], now), Reap(m[k..], now));
    }
  }

  lemma NothingBefore(a: Fifo, b: Fifo)
    ensures a + b == b <==> a == []
  {
    if a + b == b {
      assert |a + b| == |a| + |b|;
    } else {
      assert [] + b == b;
    }
  }

  /** Over its cap (a hold may start so), a queue never grows. */
  lemma PutNeverGrowsPast(q: Fifo, e: Queued, cap: nat, now: nat)
    ensures |Put(q, e, cap, now).queue| <= Max(|q|, cap)
  {
  }

  // --- fpop ---

  /** How many entries the drain loop removes to deliver up to `max` live ones. */
  function Taken(q: Fifo, max: nat, now: nat): (n: nat)
    ensures n <= |q|
  {
    if max == 0 || q == [] then 0
    else 1 + Taken(q[1..], if q[0].deadline > now then max - 1 else max, now)
  }

  /** The drain takes the shortest prefix that holds `max` live entries, or the whole queue. */
  lemma {:induction false} TakenExactly(q: Fifo, max: nat, now: nat)
    ensures var n := Taken(q, max, now);
            && |Reap(q[..n], now)| <= max
            && (n < |q| ==> |Reap(q[..n], now)| == max)
            && (forall k :: 0 <= k < n ==> |Reap(q[..k], now)| < max)
  {
    if max > 0 && q != [] {
      var rest := if q[0].deadline > now then max - 1 else max;
      TakenExactly(q[1..], rest, now);
      var n := Taken(q, max, now);
      forall k | 0 < k <= n ensures |Reap(q[..k], now)| == |Reap(q[1..][..k - 1], now)| + (max - rest) {
        assert q[..k][1..] == q[1..][..k - 1];
      }
    }
  }

  // --- Conservation ---

  lemma {:induction false} PointersSplit(a: Fifo, b: Fifo)
    ensures Pointers(a + b) == Pointers(a) + Pointers(b)
    ensures Cids(a + b) == Cids(a) + Cids(b)
  {
  }

  lemma {:induction false} PointerReap(q: Fifo, now: nat)
    ensures multiset(Pointers(q)) == multiset(Pointers(Reap(q, now))) + multiset(Pointers(Dead(q, now)))
  {
    if q != [] {
      PointerReap(q[1..], now);
      PointersSplit([q[0]], q[1..]);
      assert q == [q[0]] + q[1..];
      PointersSplit(if q[0].deadline > now then [q[0]] else [], Reap(q[1..], now));
      PointersSplit(if q[0].deadline > now then [] else [q[0]], Dead(q[1..], now));
    }
  }

  /** A refresh keeps every pointer in its place; otherwise one pointer is added. */
  lemma MergePointers(q: Fifo, e: Queued)
    ensures Pointers(Merge(q, e)) == Pointers(q) + if Queues(q, e.pointer) then [] else [e.pointer]
  {
  }

  /**
   * fput neither loses nor invents a pointer: what was there, plus one unless refreshed, is queued, evicted
   * or expired.
   */
  lemma PutConserves(q: Fifo, e: Queued, cap: nat, now: nat)
    ensures var m, n := Merge(q, e), Excess(q, e, cap);
            multiset(Pointers(q)) + (if Queues(q, e.pointer) then multiset{} else multiset{e.pointer}) ==
            multiset(Pointers(Put(q, e, cap, now).queue)) + multiset(Pointers(m[..n]))
              + multiset(Pointers(Dead(m[n..], now)))
  {
    hide Merge, Excess, Reap, Dead;
    var m, n := Merge(q, e), Excess(q, e, cap);
    MergePointers(q, e);
    PointersSplit(m[..n], m[n..]);
    assert m == m[..n] + m[n..];
    PointerReap(m[n..], now);
    assert multiset(Pointers(m)) == multiset(Pointers(m[..n])) + multiset(Pointers(m[n..]));
    if Queues(q, e.pointer) {
      assert Pointers(m) == Pointers(q);
    } else {
      assert multiset(Pointers(m)) == multiset(Pointers(q)) + multiset{e.pointer};
    }
  }

  /** fpop delivers or composts exactly what it removes. */
  lemma DrainConserves(q: Fifo, n: nat, now: nat)
    requires n <= |q|
    ensures multiset(Pointers(q)) ==
            multiset(Pointers(q[n..])) + multiset(Pointers(Reap(q[..n], now))) + multiset(Pointers(Dead(q[..n], now)))
  {
    hide Reap, Dead;
    PointersSplit(q[..n], q[n..]);
    assert q == q[..n] + q[n..];
    PointerReap(q[..n], now);
  }
}
