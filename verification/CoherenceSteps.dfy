/** Each verb, and each restart, keeps the index and the hold in agreement. */
module CoherenceSteps {
  import opened Basics
  import opened Text
  import opened Envelope
  import opened Registry
  import opened Queue
  import opened QueueFacts
  import opened Hold
  import opened Restart
  import opened Relay
  import opened Coherence

  /** An admitted fput whose envelope is one of the run's. */
  ghost predicate Storable(u: set<Bytes>, a: Admitted, tm: PutTimes) {
    && IsHandle(a.handle) && HexEncode(HexDecode(a.handle).value) == a.handle
    && PointerHeader(a.pointer) && tm.receive < TWO_64
    && RawOf(a, tm.receive) in u
  }

  lemma NewNames(u: set<Bytes>, a: Admitted, tm: PutTimes)
    requires Storable(u, a, tm)
    ensures Names(u, NewEntry(a, tm.receive).cid, a.handle, a.pointer)
  {
    hide Parse, HandleOf, RawOf;
    NewRaw(a, tm.receive);
    assert Stores(RawOf(a, tm.receive), a.handle, a.pointer);
  }

  lemma StorableDecodes(u: set<Bytes>, a: Admitted, tm: PutTimes)
    requires Storable(u, a, tm)
    ensures IsHandle(a.handle)
  {
  }

  // --- fput ---

  lemma PutFaithfulQueue(u: set<Bytes>, q: Fifo, a: Admitted, tm: PutTimes, cap: nat)
    requires FaithfulQueue(u, a.handle, q) && Storable(u, a, tm)
    ensures FaithfulQueue(u, a.handle, Put(q, NewEntry(a, tm.receive), cap, tm.reap).queue)
  {
    hide Put, RawOf, Names;
    var n := NewEntry(a, tm.receive);
    NewNames(u, a, tm);
    forall e | e in Put(q, n, cap, tm.reap).queue
      ensures Names(u, e.cid, a.handle, e.pointer) && e.deadline == Deadline(e.pointer)
    {
      PutMembers(q, n, cap, tm.reap, e);
    }
  }

  lemma PutKeepsNoOrphans(u: set<Bytes>, cfg: Config, s: Relay, a: Admitted, tm: PutTimes)
    requires NoOrphans(u, s.queues, s.disk.fenv) && Storable(u, a, tm)
    ensures var s' := Stored(cfg, s, a, tm); NoOrphans(u, s'.queues, s'.disk.fenv)
  {
    hide Put, RawOf, Faithful, FaithfulQueue, Names, Parse, HandleOf, PutSteps, ApplyAll, Indexed, QueueOf, Elements,
         Cids;
    var q, n := QueueOf(s.queues, a.handle), NewEntry(a, tm.receive);
    var step := Put(q, n, cfg.maxPerHandle, tm.reap);
    var files' := Stored(cfg, s, a, tm).disk.fenv;
    assert FaithfulQueue(u, a.handle, q) by { OneQueue(u, s.queues, a.handle); }
    PutFaithfulQueue(u, q, a, tm, cfg.maxPerHandle);
    FaithfulUpdate(u, s.queues, a.handle, step.queue);
    StoredFiles(cfg, s, a, tm);
    NewRaw(a, tm.receive);
    forall c | c in files' && HandleOf(files'[c]) == a.handle ensures c in Cids(step.queue) {
      if c != n.cid {
        InOwnQueue(s.queues, s.disk.fenv, c);
      }
      PutKeepsOrDrops(q, n, cfg.maxPerHandle, tm.reap, c);
    }
    IndexedUpdate(s.queues, s.disk.fenv, a.handle, step.queue, files');
  }

  lemma OneQueue(u: set<Bytes>, queues: Index, h: Bytes)
    requires Faithful(u, queues)
    ensures FaithfulQueue(u, h, QueueOf(queues, h))
  {
  }

  lemma InOwnQueue(queues: Index, files: Files, c: Bytes)
    requires forall c :: c in files ==> Parse(files[c]).Ok?
    requires Indexed(queues, files) && c in files
    ensures c in Cids(QueueOf(queues, HandleOf(files[c])))
  {
  }

  /** Names are distinct after the merge: an equal name means the same pointer. */
  lemma MergedDistinct(u: set<Bytes>, q: Fifo, a: Admitted, tm: PutTimes)
    requires NoCollision(u) && FaithfulQueue(u, a.handle, q) && Storable(u, a, tm)
    requires DistinctCids(q) && DistinctPointers(q)
    ensures var m := Merge(q, NewEntry(a, tm.receive)); DistinctCids(m) && DistinctPointers(m)
  {
    hide Names, RawOf, Merge, NoCollision;
    var e := NewEntry(a, tm.receive);
    NewNames(u, a, tm);
    forall k | 0 <= k < |q| && q[k].cid == e.cid ensures q[k].pointer == e.pointer {
      assert q[k] in q;
      NamesUnique(u, e.cid, a.handle, e.pointer, a.handle, q[k].pointer);
    }
    MergeDistinct(q, e);
  }

  /** Entries that stay in the queue of the verb keep their files. */
  lemma PutBackedQueue(q: Fifo, e: Queued, cap: nat, now: nat, files: Files, files': Files)
    requires BackedQueue(q, files) && DistinctCids(q) && DistinctCids(Merge(q, e))
    requires forall c :: (c in files || c == e.cid) && c !in Put(q, e, cap, now).drops ==> c in files'
    ensures BackedQueue(Put(q, e, cap, now).queue, files')
  {
    hide Put, Merge;
    forall x | x in Put(q, e, cap, now).queue ensures x.cid in files' {
      PutMembers(q, e, cap, now, x);
      forall c | c in Put(q, e, cap, now).drops ensures c != x.cid {
        PutKeepsFiles(q, e, cap, now, x, c);
      }
    }
  }

  /** fput never drops a file of another handle. */
  lemma DropsStayHome(u: set<Bytes>, q: Fifo, a: Admitted, tm: PutTimes, cap: nat, h: Bytes, e: Queued, c: Bytes)
    requires NoCollision(u) && FaithfulQueue(u, a.handle, q) && Storable(u, a, tm)
    requires h != a.handle && Names(u, e.cid, h, e.pointer)
    requires c in Put(q, NewEntry(a, tm.receive), cap, tm.reap).drops
    ensures c != e.cid
  {
    hide Put, RawOf, Names, NoCollision;
    PutDropsKnown(q, NewEntry(a, tm.receive), cap, tm.reap, c);
    NewNames(u, a, tm);
    if c == NewEntry(a, tm.receive).cid {
      DifferentNames(u, c, a.handle, a.pointer, e.cid, h, e.pointer);
    } else {
      var k := CidAt(q, c);
      assert q[k] in q;
      DifferentNames(u, c, a.handle, q[k].pointer, e.cid, h, e.pointer);
    }
  }

  lemma DifferentNames(u: set<Bytes>, c: Bytes, h: Bytes, p: Pointer, c': Bytes, h': Bytes, p': Pointer)
    requires NoCollision(u) && Names(u, c, h, p) && Names(u, c', h', p') && (h != h' || p != p')
    ensures c != c'
  {
    hide Names, NoCollision;
    if c == c' {
      NamesUnique(u, c, h, p, h', p');
      assert false;
    }
  }

  lemma PutKeepsCoherent(u: set<Bytes>, cfg: Config, s: Relay, a: Admitted, tm: PutTimes)
    requires NoCollision(u) && Coherent(u, s.queues, s.disk.fenv) && Storable(u, a, tm)
    ensures var s' := Stored(cfg, s, a, tm); Coherent(u, s'.queues, s'.disk.fenv)
  {
    PutKeepsNoOrphans(u, cfg, s, a, tm);
    hide NoCollision, Addressed, Indexed, FaithfulQueue, Names, BackedQueue, DistinctCids, DistinctPointers,
         Put, Merge, PutSteps, ApplyAll, RawOf, Elements, IsHandle, HexEncode, HexDecode, PointerHeader;
    var q, n := QueueOf(s.queues, a.handle), NewEntry(a, tm.receive);
    var step := Put(q, n, cfg.maxPerHandle, tm.reap);
    var files, files' := s.disk.fenv, Stored(cfg, s, a, tm).disk.fenv;
    StoredFiles(cfg, s, a, tm);
    MergedDistinct(u, q, a, tm);
    PutDistinct(q, n, cfg.maxPerHandle, tm.reap);
    DistinctUpdate(s.queues, a.handle, step.queue);
    PutBackedQueue(q, n, cfg.maxPerHandle, tm.reap, files, files');
    forall k, e | k != a.handle && e in QueueOf(s.queues, k) && e.cid in files ensures e.cid in files' {
      EntryNames(u, s.queues, k, e);
      forall c | c in step.drops ensures c != e.cid {
        DropsStayHome(u, q, a, tm, cfg.maxPerHandle, k, e, c);
      }
    }
    BackedUpdate(s.queues, files, a.handle, step.queue, files');
  }

  lemma EntryNames(u: set<Bytes>, queues: Index, h: Bytes, e: Queued)
    requires Faithful(u, queues) && e in QueueOf(queues, h)
    ensures Names(u, e.cid, h, e.pointer)
  {
    assert FaithfulQueue(u, h, QueueOf(queues, h));
  }

  lemma PutKeepsCap(cfg: Config, s: Relay, a: Admitted, tm: PutTimes)
    requires IsHandle(a.handle) && WithinCap(s.queues, cfg.maxPerHandle)
    ensures WithinCap(Stored(cfg, s, a, tm).queues, cfg.maxPerHandle)
  {
    hide Put, Merge, PutSteps, ApplyAll;
    PutExactly(QueueOf(s.queues, a.handle), NewEntry(a, tm.receive), cfg.maxPerHandle, tm.reap);
    var queues' := Stored(cfg, s, a, tm).queues;
    forall h ensures |QueueOf(queues', h)| <= cfg.maxPerHandle {
      assert |QueueOf(s.queues, h)| <= cfg.maxPerHandle;
    }
  }

  // --- fpop ---

  lemma PopKeepsNoOrphans(u: set<Bytes>, s: Relay, d: Drain, now: nat)
    requires NoOrphans(u, s.queues, s.disk.fenv)
    ensures var s' := Drained(s, d, now); NoOrphans(u, s'.queues, s'.disk.fenv)
  {
    hide Names, Parse, HandleOf, PopSteps, ApplyAll, Taken, Indexed, Faithful, Elements;
    if d.handle in s.queues {
      var q, n := QueueOf(s.queues, d.handle), DrainCount(s.queues, d, now);
      var files' := Drained(s, d, now).disk.fenv;
      DrainedFiles(s, d, now);
      assert FaithfulQueue(u, d.handle, q) by { OneQueue(u, s.queues, d.handle); }
      FaithfulUpdate(u, s.queues, d.handle, q[n..]);
      forall c | c in files' && HandleOf(files'[c]) == d.handle ensures c in Cids(q[n..]) {
        InOwnQueue(s.queues, s.disk.fenv, c);
        SplitName(q, n, c);
      }
      IndexedUpdate(s.queues, s.disk.fenv, d.handle, q[n..], files');
    }
  }

  lemma SplitName(q: Fifo, n: nat, c: Bytes)
    requires n <= |q| && c in Cids(q)
    ensures c in Cids(q[..n]) || c in Cids(q[n..])
  {
    var k := CidAt(q, c);
    if k < n {
      CidIn(q[..n], q[..n][k]);
    } else {
      CidIn(q[n..], q[n..][k - n]);
    }
  }

  lemma PopKeepsCoherent(u: set<Bytes>, s: Relay, d: Drain, now: nat)
    requires NoCollision(u) && Coherent(u, s.queues, s.disk.fenv)
    ensures var s' := Drained(s, d, now); Coherent(u, s'.queues, s'.disk.fenv)
  {
    PopKeepsNoOrphans(u, s, d, now);
    hide NoCollision, Addressed, Indexed, FaithfulQueue, Names, PopSteps, ApplyAll, Taken, Elements, BackedQueue,
         DistinctCids, DistinctPointers;
    if d.handle in s.queues {
      var q, n := QueueOf(s.queues, d.handle), DrainCount(s.queues, d, now);
      var files, files' := s.disk.fenv, Drained(s, d, now).disk.fenv;
      DrainedFiles(s, d, now);
      TailDistinct(q, n);
      DistinctUpdate(s.queues, d.handle, q[n..]);
      TailBacked(q, n, files, files');
      forall k, e | k != d.handle && e in QueueOf(s.queues, k) && e.cid in files ensures e.cid in files' {
        NotDrained(u, s.queues, d.handle, n, k, e);
      }
      BackedUpdate(s.queues, files, d.handle, q[n..], files');
    }
  }

  lemma TailDistinct(q: Fifo, n: nat)
    requires n <= |q| && DistinctCids(q) && DistinctPointers(q)
    ensures DistinctCids(q[n..]) && DistinctPointers(q[n..])
  {
  }

  /** fpop never drops a file of another handle. */
  lemma NotDrained(u: set<Bytes>, queues: Index, h: Bytes, n: nat, k: Bytes, e: Queued)
    requires NoCollision(u) && Faithful(u, queues) && n <= |QueueOf(queues, h)|
    requires k != h && e in QueueOf(queues, k)
    ensures e.cid !in Cids(QueueOf(queues, h)[..n])
  {
    hide NoCollision, FaithfulQueue, Names, Faithful;
    var q := QueueOf(queues, h);
    EntryNames(u, queues, k, e);
    forall c | c in Cids(q[..n]) ensures c != e.cid {
      var i := CidAt(q[..n], c);
      EntryNames(u, queues, h, q[i]);
      DifferentNames(u, c, h, q[i].pointer, e.cid, k, e.pointer);
    }
  }

  lemma TailBacked(q: Fifo, n: nat, files: Files, files': Files)
    requires n <= |q| && DistinctCids(q) && BackedQueue(q, files)
    requires forall c :: c in files && c !in Cids(q[..n]) ==> c in files'
    ensures BackedQueue(q[n..], files')
  {
    forall e | e in q[n..] ensures e.cid in files' {
      var k :| 0 <= k < |q[n..]| && q[n..][k] == e;
      assert q[n + k] == e;
      forall c | c in Cids(q[..n]) ensures c != e.cid {
        var i := CidAt(q[..n], c);
        assert q[i].cid == c;
      }
    }
  }
}
