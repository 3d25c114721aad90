/** What is queued, exactly: the pointers that came with the hold or were put, and that nothing has removed since. */
module Survival {
  import opened Basics
  import opened Envelope
  import opened Registry
  import opened Queue
  import opened QueueFacts
  import opened Hold
  import opened Restart
  import opened Relay
  import opened Coherence
  import opened CoherenceSteps
  import opened Runs
  import opened CrashSafety
  import opened Kills
  import opened Ledger

  /** The pointer is queued once at most, and has its file then. */
  ghost predicate OneCopy(s: Relay, h: Bytes, p: Pointer) {
    Content(s, h)[p] <= 1 && forall e :: e in QueueOf(s.queues, h) && e.pointer == p ==> e.cid in s.disk.fenv
  }

  /** A refresh killed between its rename and its first removal: only this ever leaves a pointer two files. */
  predicate Doubling(cfg: Config, s: Relay, op: Op, h: Bytes, p: Pointer) {
    op.CrashFput? && op.k == 2 && PutOf(cfg, s, op) == Some(Admitted(h, p)) && IsHandle(h)
    && Superseded(QueueOf(s.queues, h), NewEntry(Admitted(h, p), op.put.receive)) != []
  }

  // --- One entry for a pointer ---

  lemma CountedTwice(q: Fifo, i: nat, j: nat, p: Pointer)
    requires i < j < |q| && q[i].pointer == p && q[j].pointer == p
    ensures multiset(Pointers(q))[p] >= 2
  {
    var a, b := q[..j], q[j..];
    assert q == a + b;
    PointersSplit(a, b);
    assert Pointers(a)[i] == p && Pointers(b)[0] == p;
  }

  lemma OnePosition(q: Fifo, i: nat, j: nat, p: Pointer)
    requires multiset(Pointers(q))[p] <= 1 && i < |q| && j < |q| && q[i].pointer == p && q[j].pointer == p
    ensures i == j
  {
    hide Pointers;
    if i < j {
      CountedTwice(q, i, j, p);
    } else if j < i {
      CountedTwice(q, j, i, p);
    }
  }

  lemma OneEntry(q: Fifo, x: Queued, y: Queued, p: Pointer)
    requires multiset(Pointers(q))[p] <= 1 && x in q && y in q && x.pointer == p && y.pointer == p
    ensures x == y
  {
    hide Pointers;
    var i :| 0 <= i < |q| && q[i] == x;
    var j :| 0 <= j < |q| && q[j] == y;
    OnePosition(q, i, j, p);
  }

  /** Refreshing or appending keeps a pointer single. */
  lemma MergeCounts(q: Fifo, e: Queued, p: Pointer)
    requires multiset(Pointers(q))[p] <= 1
    ensures multiset(Pointers(Merge(q, e)))[p] <= 1
  {
    MergePointers(q, e);
    hide Merge, Pointers;
    if !Queues(q, e.pointer) && p == e.pointer && p in Pointers(q) {
      var i := PointerAt(q, p);
      assert false;
    }
  }

  /** An entry of the merged queue for the new pointer carries the new name. */
  lemma MergedName(q: Fifo, e: Queued, x: Queued)
    requires multiset(Pointers(q))[e.pointer] <= 1 && x in Merge(q, e)
    ensures if x.pointer == e.pointer then x.cid == e.cid else x in q
  {
    MergeCounts(q, e, e.pointer);
    hide Find, Pointers;
    var i, m := Find(q, e.pointer), Merge(q, e);
    var k :| 0 <= k < |m| && m[k] == x;
    assert i < |m| && m[i].pointer == e.pointer && m[i].cid == e.cid;
    if x.pointer == e.pointer {
      OnePosition(m, k, i, e.pointer);
    } else {
      assert m[k] == q[k];
    }
  }

  // --- What an fput of any extent removes, exactly ---

  /** An entry that the first `j` removals reach has lost its file. */
  lemma ReachedIsDropped(q: Fifo, e: Queued, cap: nat, now: nat, j: nat, p: Pointer) returns (y: Queued)
    requires j <= |Put(q, e, cap, now).drops| && p in Pointers(Reached(q, e, cap, now, j))
    ensures y in Merge(q, e) && y.pointer == p && y.cid in Put(q, e, cap, now).drops[..j] && j > |Superseded(q, e)|
  {
    hide Put, Merge, Superseded, Pointers, Leavers;
    DropsAre(q, e, cap, now);
    var r, first := Reached(q, e, cap, now, j), |Superseded(q, e)|;
    var i := PointerAt(r, p);
    y := r[i];
    LeaverIsMerged(q, e, cap, now, i);
    assert Put(q, e, cap, now).drops[first + i] == y.cid;
    assert Put(q, e, cap, now).drops[..j][first + i] == y.cid;
  }

  /** No file of a reached pointer is left. */
  lemma ReachedIsGone(u: set<Bytes>, cfg: Config, s: Relay, a: Admitted, tm: PutTimes, k: nat, p: Pointer, c: Bytes)
    requires NoCollision(u) && NoOrphans(u, s.queues, s.disk.fenv) && Storable(u, a, tm) && OneCopy(s, a.handle, p)
    requires k >= 2 && k - 2 <= |PutStep(cfg, s.queues, a, tm).drops| && PutReaches(cfg, s, a, tm, k, a.handle, p)
    requires var files := s.disk.fenv[Cid(RawOf(a, tm.receive)) := RawOf(a, tm.receive)];
             c in files && Stores(files[c], a.handle, p)
    ensures c in PutStep(cfg, s.queues, a, tm).drops[..k - 2]
  {
    hide NoCollision, NoOrphans, RawOf, Cid, Merge, Put, Stores, Pointers, Reached, Superseded, Storable;
    StorableDecodes(u, a, tm);
    var q, e := QueueOf(s.queues, a.handle), NewEntry(a, tm.receive);
    var y := ReachedIsDropped(q, e, cfg.maxPerHandle, tm.reap, k - 2, p);
    if p == a.pointer {
      MergedName(q, e, y);
      if c != e.cid {
        SupersededFile(u, s, a, tm, c);
        FirstDrop(q, e, cfg.maxPerHandle, tm.reap, k - 2);
      }
    } else {
      OtherFile(u, s, a, tm, p, c, y);
    }
  }

  /** An old file of the pointer under another name is the one that the refresh supersedes. */
  lemma SupersededFile(u: set<Bytes>, s: Relay, a: Admitted, tm: PutTimes, c: Bytes)
    requires NoCollision(u) && NoOrphans(u, s.queues, s.disk.fenv) && IsHandle(a.handle)
    requires Content(s, a.handle)[a.pointer] <= 1
    requires c in s.disk.fenv && Stores(s.disk.fenv[c], a.handle, a.pointer) && c != NewEntry(a, tm.receive).cid
    ensures Superseded(QueueOf(s.queues, a.handle), NewEntry(a, tm.receive)) == [c]
  {
    hide NoCollision, NoOrphans, Stores, RawOf, Find, Pointers;
    var q := QueueOf(s.queues, a.handle);
    var i := EntryOfFile(u, s.queues, s.disk.fenv, c, a.handle, a.pointer);
    OnePosition(q, i, Find(q, a.pointer), a.pointer);
  }

  /** An old file of another pointer is that of its entry. */
  lemma OtherFile(u: set<Bytes>, s: Relay, a: Admitted, tm: PutTimes, p: Pointer, c: Bytes, y: Queued)
    requires NoCollision(u) && NoOrphans(u, s.queues, s.disk.fenv) && Storable(u, a, tm) && OneCopy(s, a.handle, p)
    requires p != a.pointer && y in Merge(QueueOf(s.queues, a.handle), NewEntry(a, tm.receive)) && y.pointer == p
    requires var files := s.disk.fenv[Cid(RawOf(a, tm.receive)) := RawOf(a, tm.receive)];
             c in files && Stores(files[c], a.handle, p)
    ensures c == y.cid
  {
    NewStores(u, a, tm);
    hide NoCollision, NoOrphans, RawOf, Cid, Stores, Pointers, Merge;
    var q, e := QueueOf(s.queues, a.handle), NewEntry(a, tm.receive);
    assert c != e.cid;
    OtherMerged(q, e, y);
    var i := EntryOfFile(u, s.queues, s.disk.fenv, c, a.handle, p);
    OneEntry(q, q[i], y, p);
  }

  lemma OtherMerged(q: Fifo, e: Queued, x: Queued)
    requires x in Merge(q, e) && x.pointer != e.pointer
    ensures x in q
  {
    hide Find;
    var m := Merge(q, e);
    var k :| 0 <= k < |m| && m[k] == x;
    assert m[k] == q[k];
  }

  lemma PutDiskExactly(u: set<Bytes>, cfg: Config, s: Relay, a: Admitted, tm: PutTimes, k: nat, h: Bytes, p: Pointer)
    requires NoCollision(u) && NoOrphans(u, s.queues, s.disk.fenv) && Storable(u, a, tm) && OneCopy(s, h, p)
    requires IsHandle(a.handle) && k <= |PutSteps(cfg, s.queues, a, tm)|
    ensures Filed(ApplyAll(s.disk, PutSteps(cfg, s.queues, a, tm)[..k]).fenv, h, p) <==>
            (Filed(s.disk.fenv, h, p) || (h == a.handle && p == a.pointer && k >= 2))
            && !PutReaches(cfg, s, a, tm, k, h, p)
  {
    hide NoCollision, NoOrphans, ApplyAll, PutSteps, PutStep, RawOf, Stores, Storable, PutReaches, OneCopy;
    KilledPut(cfg, s, a, tm, k);
    var files' := ApplyAll(s.disk, PutSteps(cfg, s.queues, a, tm)[..k]).fenv;
    if (Filed(s.disk.fenv, h, p) || (h == a.handle && p == a.pointer && k >= 2))
       && !PutReaches(cfg, s, a, tm, k, h, p) {
      PutDiskSurvives(u, cfg, s, a, tm, k, h, p);
    }
    if Filed(files', h, p) {
      var c :| c in files' && Stores(files'[c], h, p);
      WrittenOrOld(u, s, a, tm, k, c, h, p, files');
      if PutReaches(cfg, s, a, tm, k, h, p) {
        ReachesHome(cfg, s, a, tm, k, h, p);
        ReachedIsGone(u, cfg, s, a, tm, k, p, c);
        assert false;
      }
    }
  }

  lemma ReachesHome(cfg: Config, s: Relay, a: Admitted, tm: PutTimes, k: nat, h: Bytes, p: Pointer)
    requires IsHandle(a.handle) && PutReaches(cfg, s, a, tm, k, h, p)
    ensures k >= 2 && h == a.handle
  {
    hide Reached, Pointers, NewEntry;
  }

  lemma WrittenOrOld(u: set<Bytes>, s: Relay, a: Admitted, tm: PutTimes, k: nat, c: Bytes, h: Bytes, p: Pointer,
                     files: Files)
    requires NoCollision(u) && NoOrphans(u, s.queues, s.disk.fenv) && Storable(u, a, tm)
    requires c in files && Stores(files[c], h, p)
    requires if k >= 2 && c == Cid(RawOf(a, tm.receive)) then files[c] == RawOf(a, tm.receive)
             else c in s.disk.fenv && files[c] == s.disk.fenv[c]
    ensures Filed(s.disk.fenv, h, p) || (h == a.handle && p == a.pointer && k >= 2)
  {
    NewRaw(a, tm.receive);
    hide RawOf, Stores, Cid;
    if k >= 2 && c == Cid(RawOf(a, tm.receive)) {
      StoresOnce(RawOf(a, tm.receive), h, p, a.handle, a.pointer);
    }
  }

  /** A drain of any extent removes the pointers it takes, and no other. */
  lemma PopDiskExactly(u: set<Bytes>, s: Relay, d: Drain, now: nat, k: nat, h: Bytes, p: Pointer)
    requires NoCollision(u) && NoOrphans(u, s.queues, s.disk.fenv) && OneCopy(s, h, p)
    requires k <= |PopSteps(s.queues, d, now)| && k <= DrainCount(s.queues, d, now)
    ensures Filed(ApplyAll(s.disk, PopSteps(s.queues, d, now)[..k]).fenv, h, p) <==>
            Filed(s.disk.fenv, h, p) && !(h == d.handle && p in Pointers(QueueOf(s.queues, h)[..k]))
  {
    hide NoCollision, NoOrphans, ApplyAll, PopSteps, Stores, Pointers, DrainCount;
    KilledPop(s, d, now, k);
    var q, files' := QueueOf(s.queues, h), ApplyAll(s.disk, PopSteps(s.queues, d, now)[..k]).fenv;
    if Filed(s.disk.fenv, h, p) && !(h == d.handle && p in Pointers(q[..k])) {
      PopDiskSurvives(u, s, d, now, k, h, p);
    }
    if Filed(files', h, p) {
      var c :| c in files' && Stores(files'[c], h, p);
      assert c in s.disk.fenv && s.disk.fenv[c] == files'[c];
      if h == d.handle && p in Pointers(q[..k]) {
        var i := PointerAt(q[..k], p);
        var j := EntryOfFile(u, s.queues, s.disk.fenv, c, h, p);
        OnePosition(q, i, j, p);
        CidIn(q[..k], q[..k][i]);
        assert false;
      }
    }
  }

  /**
   * One operation of any kind, killed anywhere, its opens killed anywhere: a pointer that is queued once at most
   * has a file afterwards if and only if it had one or the operation wrote one, and the operation did not get to
   * removing it.
   */
  lemma NextExactly(u: set<Bytes>, cfg: Config, s: Relay, op: Op, s': Relay, h: Bytes, p: Pointer)
    requires NoCollision(u) && WellFormed(cfg.limits, s.regs.table) && Within(u, cfg, s, op) && Next(cfg, s, op, s')
    requires NoOrphans(u, s.queues, s.disk.fenv) && OneCopy(s, h, p)
    ensures Filed(s'.disk.fenv, h, p) <==>
            (Filed(s.disk.fenv, h, p) || Renames(cfg, s, op, h, p)) && !Removes(cfg, s, op, h, p)
  {
    OneOfThem(cfg, s, op, h, p);
    hide NoCollision, WellFormed, NoOrphans, Filed, PutOf, DrainOf, PutSteps, PopSteps, ApplyAll, Within, Restarted,
         OpensRemove, Outside, Pointers, DrainCount, Storable, IsHandle, Next, PutRemoves, PopRemoves, DiskAfter,
         PutReaches, Carried, OneCopy, Renames;
    if PutOf(cfg, s, op).Some? {
      PutCarried(u, cfg, s, op, s', h, p);
      PutDiskExactly(u, cfg, s, PutOf(cfg, s, op).value, op.put, Carried(cfg, s, op), h, p);
    } else if DrainOf(cfg, s, op).Some? {
      PopCarried(cfg, s, op, s', h, p);
      PopDiskExactly(u, s, DrainOf(cfg, s, op).value, op.pop.drain, Carried(cfg, s, op), h, p);
    } else {
      NothingCarried(cfg, s, op, s');
    }
    if op.DoRestart? || IsCrash(op) {
      RestartedExactly(cfg, DiskAfter(cfg, s, op), TriesOf(op), op.order, op.now, s', h, p);
    }
  }

  lemma OneOfThem(cfg: Config, s: Relay, op: Op, h: Bytes, p: Pointer)
    ensures PutOf(cfg, s, op).None? ==> !PutRemoves(cfg, s, op, h, p) && !Renames(cfg, s, op, h, p)
    ensures DrainOf(cfg, s, op).None? ==> !PopRemoves(cfg, s, op, h, p)
    ensures PutOf(cfg, s, op).None? || DrainOf(cfg, s, op).None?
  {
    hide Admit, Authorize;
  }

  // --- A pointer stays single ---

  lemma CopyFiled(u: set<Bytes>, s: Relay, h: Bytes, p: Pointer)
    requires NoCollision(u) && NoOrphans(u, s.queues, s.disk.fenv) && OneCopy(s, h, p)
    ensures p in Pointers(QueueOf(s.queues, h)) <==> Filed(s.disk.fenv, h, p)
  {
    hide NoCollision, NoOrphans, Filed, Pointers, QueueOf;
    QueuedIsFiled(u, s.queues, s.disk.fenv, h, p);
  }

  /** An entry that stays is not among those removed: the pointer would be there twice. */
  lemma StaysUnreached(q: Fifo, e: Queued, cap: nat, now: nat, x: Queued)
    requires multiset(Pointers(q))[x.pointer] <= 1 && x in Put(q, e, cap, now).queue
    ensures x.pointer !in Pointers(Leavers(q, e, cap, now))
  {
    hide Merge, Excess, Reap, Dead, Pointers;
    var m, n, p := Merge(q, e), Excess(q, e, cap), x.pointer;
    MergeCounts(q, e, p);
    assert m == m[..n] + m[n..];
    BagSplit(m[..n], m[n..]);
    PointerReap(m[n..], now);
    BagSplit(m[..n], Dead(m[n..], now));
    StaysReaped(m[n..], now, x);
    var out, dead, kept := Pointers(m[..n]), Pointers(Dead(m[n..], now)), Pointers(Reap(m[n..], now));
    assert multiset(Pointers(m))[p] == multiset(out)[p] + multiset(dead)[p] + multiset(kept)[p];
    assert p in multiset(kept);
    assert multiset(Pointers(Leavers(q, e, cap, now)))[p] == multiset(out)[p] + multiset(dead)[p];
    assert p !in multiset(Pointers(Leavers(q, e, cap, now)));
  }

  lemma StaysReaped(q: Fifo, now: nat, x: Queued)
    requires x in Reap(q, now)
    ensures x.pointer in Pointers(Reap(q, now))
  {
    hide Reap, Pointers;
    PointerIn(Reap(q, now), x);
  }

  lemma ReachedLeaves(q: Fifo, e: Queued, cap: nat, now: nat, j: nat, p: Pointer)
    requires p in Pointers(Reached(q, e, cap, now, j))
    ensures p in Pointers(Leavers(q, e, cap, now))
  {
    hide Leavers, Superseded;
    var r := Reached(q, e, cap, now, j);
    var i := PointerAt(r, p);
    assert Leavers(q, e, cap, now)[i] == r[i];
    assert Pointers(Leavers(q, e, cap, now))[i] == p;
  }

  /** How a state's copies of a pointer follow from its queue and its files. */
  lemma OneCopyIs(s: Relay, h: Bytes, p: Pointer, q: Fifo, files: Files)
    requires QueueOf(s.queues, h) == q && s.disk.fenv == files && multiset(Pointers(q))[p] <= 1
    requires forall x :: x in q && x.pointer == p ==> x.cid in files
    ensures OneCopy(s, h, p)
  {
    hide Pointers, QueueOf;
  }

  lemma PutKeepsOneCopy(u: set<Bytes>, cfg: Config, s: Relay, a: Admitted, tm: PutTimes, h: Bytes, p: Pointer)
    requires NoCollision(u) && NoOrphans(u, s.queues, s.disk.fenv) && Storable(u, a, tm) && OneCopy(s, h, p)
    ensures OneCopy(Stored(cfg, s, a, tm), h, p)
  {
    StorableDecodes(u, a, tm);
    StoredFiles(cfg, s, a, tm);
    StoredQueue(cfg, s, a, tm, h);
    hide NoCollision, NoOrphans, RawOf, Cid, PutStep, Pointers, Storable, Stored, OneCopy, QueueOf;
    var step, s' := PutStep(cfg, s.queues, a, tm), Stored(cfg, s, a, tm);
    var q := if h == a.handle then step.queue else QueueOf(s.queues, h);
    OneCopyMeans(s, h, p);
    if h == a.handle {
      OwnCounts(cfg, s, a, tm, p);
    }
    forall x | x in q && x.pointer == p ensures x.cid in s'.disk.fenv {
      if h == a.handle {
        StaysFiled(u, cfg, s, a, tm, x);
      } else {
        OtherStaysFiled(u, cfg, s, a, tm, h, x);
      }
    }
    OneCopyIs(s', h, p, q, s'.disk.fenv);
  }

  lemma StoredQueue(cfg: Config, s: Relay, a: Admitted, tm: PutTimes, h: Bytes)
    requires IsHandle(a.handle)
    ensures QueueOf(Stored(cfg, s, a, tm).queues, h) ==
            if h == a.handle then PutStep(cfg, s.queues, a, tm).queue else QueueOf(s.queues, h)
  {
    hide PutStep, PutSteps, ApplyAll;
  }

  lemma OneCopyMeans(s: Relay, h: Bytes, p: Pointer)
    requires OneCopy(s, h, p)
    ensures multiset(Pointers(QueueOf(s.queues, h)))[p] <= 1
    ensures forall x :: x in QueueOf(s.queues, h) && x.pointer == p ==> x.cid in s.disk.fenv
  {
    hide Pointers, QueueOf;
  }

  lemma OwnCounts(cfg: Config, s: Relay, a: Admitted, tm: PutTimes, p: Pointer)
    requires IsHandle(a.handle) && multiset(Pointers(QueueOf(s.queues, a.handle)))[p] <= 1
    ensures multiset(Pointers(PutStep(cfg, s.queues, a, tm).queue))[p] <= 1
  {
    hide Pointers, QueueOf, Put, NewEntry;
    PutCounts(QueueOf(s.queues, a.handle), NewEntry(a, tm.receive), cfg.maxPerHandle, tm.reap, p);
  }

  /** An entry of another handle is not touched. */
  lemma OtherStaysFiled(u: set<Bytes>, cfg: Config, s: Relay, a: Admitted, tm: PutTimes, h: Bytes, x: Queued)
    requires NoCollision(u) && NoOrphans(u, s.queues, s.disk.fenv) && Storable(u, a, tm) && IsHandle(a.handle)
    requires h != a.handle && x in QueueOf(s.queues, h)
    ensures x.cid !in PutStep(cfg, s.queues, a, tm).drops
  {
    NoOrphansParts(u, s.queues, s.disk.fenv);
    hide NoCollision, NoOrphans, Put, Names, Faithful, FaithfulQueue, Storable, NewEntry, QueueOf;
    OneQueue(u, s.queues, a.handle);
    EntryNames(u, s.queues, h, x);
    forall c | c in PutStep(cfg, s.queues, a, tm).drops ensures c != x.cid {
      DropsStayHome(u, QueueOf(s.queues, a.handle), a, tm, cfg.maxPerHandle, h, x, c);
    }
  }

  lemma PutCounts(q: Fifo, e: Queued, cap: nat, now: nat, p: Pointer)
    requires multiset(Pointers(q))[p] <= 1
    ensures multiset(Pointers(Put(q, e, cap, now).queue))[p] <= 1
  {
    hide Merge, Excess, Dead, Pointers;
    var m, n := Merge(q, e), Excess(q, e, cap);
    MergeCounts(q, e, p);
    assert m == m[..n] + m[n..];
    BagSplit(m[..n], m[n..]);
    PointerReap(m[n..], now);
    hide Reap;
    assert multiset(Pointers(m))[p] == multiset(Pointers(m[..n]))[p] + multiset(Pointers(m[n..]))[p];
  }

  /** An entry that stays in the queue of an fput keeps its file. */
  lemma StaysFiled(u: set<Bytes>, cfg: Config, s: Relay, a: Admitted, tm: PutTimes, x: Queued)
    requires NoCollision(u) && NoOrphans(u, s.queues, s.disk.fenv) && Storable(u, a, tm)
    requires IsHandle(a.handle) && OneCopy(s, a.handle, x.pointer) && x in PutStep(cfg, s.queues, a, tm).queue
    ensures x.cid !in PutStep(cfg, s.queues, a, tm).drops
    ensures x.cid in s.disk.fenv || x.cid == NewEntry(a, tm.receive).cid
  {
    NoOrphansParts(u, s.queues, s.disk.fenv);
    OneCopyMeans(s, a.handle, x.pointer);
    hide NoCollision, NoOrphans, OneCopy, Put, NewEntry, Pointers, Storable, Faithful, FaithfulQueue, QueueOf;
    var q, e := QueueOf(s.queues, a.handle), NewEntry(a, tm.receive);
    PutMembers(q, e, cfg.maxPerHandle, tm.reap, x);
    OneQueue(u, s.queues, a.handle);
    NewPointer(a, tm.receive);
    StaysUndropped(u, q, a, tm, cfg.maxPerHandle, x);
  }

  lemma NewPointer(a: Admitted, receive: nat)
    requires IsHandle(a.handle)
    ensures NewEntry(a, receive).pointer == a.pointer
  {
    hide RawOf, Cid;
  }

  lemma StaysUndropped(u: set<Bytes>, q: Fifo, a: Admitted, tm: PutTimes, cap: nat, x: Queued)
    requires NoCollision(u) && FaithfulQueue(u, a.handle, q) && Storable(u, a, tm) && IsHandle(a.handle)
    requires multiset(Pointers(q))[x.pointer] <= 1 && x in Put(q, NewEntry(a, tm.receive), cap, tm.reap).queue
    ensures x.cid !in Put(q, NewEntry(a, tm.receive), cap, tm.reap).drops
  {
    NewPointer(a, tm.receive);
    hide NoCollision, NewEntry, Put, Merge, Pointers, Storable, Names, FaithfulQueue, Reached, Leavers;
    var e := NewEntry(a, tm.receive);
    var drops := Put(q, e, cap, tm.reap).drops;
    StayingNames(u, q, a, tm, cap, x);
    StaysMerged(q, e, cap, tm.reap, x);
    StaysUnreached(q, e, cap, tm.reap, x);
    if x.cid in drops {
      assert drops[..|drops|] == drops;
      DropReason(u, q, a, tm, cap, |drops|, x.cid, x.pointer);
      if x.pointer in Pointers(Reached(q, e, cap, tm.reap, |drops|)) {
        ReachedLeaves(q, e, cap, tm.reap, |drops|, x.pointer);
      } else {
        MergedName(q, e, x);
      }
      assert false;
    }
  }

  lemma StaysMerged(q: Fifo, e: Queued, cap: nat, now: nat, x: Queued)
    requires x in Put(q, e, cap, now).queue
    ensures x in Merge(q, e)
  {
    hide Merge, Reap, Dead, Excess;
    var m, n := Merge(q, e), Excess(q, e, cap);
    ReapMembers(m[n..], now, x);
    assert x in m[n..];
  }

  lemma StayingNames(u: set<Bytes>, q: Fifo, a: Admitted, tm: PutTimes, cap: nat, x: Queued)
    requires FaithfulQueue(u, a.handle, q) && Storable(u, a, tm)
    requires x in Put(q, NewEntry(a, tm.receive), cap, tm.reap).queue
    ensures Names(u, x.cid, a.handle, x.pointer)
  {
    hide Names, Put, RawOf;
    PutFaithfulQueue(u, q, a, tm, cap);
  }

  lemma PopKeepsOneCopy(u: set<Bytes>, s: Relay, d: Drain, now: nat, h: Bytes, p: Pointer)
    requires NoCollision(u) && NoOrphans(u, s.queues, s.disk.fenv) && OneCopy(s, h, p)
    ensures OneCopy(Drained(s, d, now), h, p)
  {
    NoOrphansParts(u, s.queues, s.disk.fenv);
    DrainedFiles(s, d, now);
    OneCopyMeans(s, h, p);
    DrainedQueue(s, d, now, h);
    hide NoCollision, NoOrphans, Pointers, Drained, Faithful, DrainCount, OneCopy, QueueOf;
    var n, s' := DrainCount(s.queues, d, now), Drained(s, d, now);
    var q := QueueOf(s.queues, h);
    var q' := if h == d.handle then q[n..] else q;
    TailCounts(q, if h == d.handle then n else 0, p);
    assert q[0..] == q;
    forall x | x in q' && x.pointer == p ensures x.cid in s'.disk.fenv {
      if h == d.handle {
        TailFiled(u, s, d, n, x);
      } else {
        NotDrained(u, s.queues, d.handle, n, h, x);
      }
    }
    OneCopyIs(s', h, p, q', s'.disk.fenv);
  }

  lemma DrainedQueue(s: Relay, d: Drain, now: nat, h: Bytes)
    ensures var q := QueueOf(s.queues, h);
            QueueOf(Drained(s, d, now).queues, h) ==
            if h == d.handle then q[DrainCount(s.queues, d, now)..] else q
  {
    hide Taken, PopSteps, ApplyAll;
  }

  lemma TailCounts(q: Fifo, n: nat, p: Pointer)
    requires n <= |q|
    ensures multiset(Pointers(q[n..]))[p] <= multiset(Pointers(q))[p]
  {
    hide Pointers;
    assert q == q[..n] + q[n..];
    BagSplit(q[..n], q[n..]);
  }

  lemma TailFiled(u: set<Bytes>, s: Relay, d: Drain, n: nat, x: Queued)
    requires NoCollision(u) && Faithful(u, s.queues) && OneCopy(s, d.handle, x.pointer)
    requires n <= |QueueOf(s.queues, d.handle)| && x in QueueOf(s.queues, d.handle)[n..]
    ensures x.cid in s.disk.fenv && x.cid !in Cids(QueueOf(s.queues, d.handle)[..n])
  {
    hide NoCollision, Pointers, Names, Faithful, QueueOf;
    var q := QueueOf(s.queues, d.handle);
    var j := After(q, n, x);
    if x.cid in Cids(q[..n]) {
      var i := CidAt(q[..n], x.cid);
      EntryNames(u, s.queues, d.handle, q[i]);
      EntryNames(u, s.queues, d.handle, q[j]);
      NamesUnique(u, x.cid, d.handle, q[i].pointer, d.handle, q[j].pointer);
      OnePosition(q, i, j, x.pointer);
      assert false;
    }
  }

  /** Unless a refresh is killed right after its rename, the hold has one file of the pointer at most. */
  lemma OneFile(u: set<Bytes>, cfg: Config, s: Relay, op: Op, s': Relay, h: Bytes, p: Pointer)
    requires NoCollision(u) && WellFormed(cfg.limits, s.regs.table) && Within(u, cfg, s, op) && Next(cfg, s, op, s')
    requires NoOrphans(u, s.queues, s.disk.fenv) && OneCopy(s, h, p) && !Doubling(cfg, s, op, h, p)
    requires IsCrash(op) || op.DoRestart?
    ensures |FilesFor(DiskAfter(cfg, s, op).fenv, h, p)| <= 1
  {
    OneOfThem(cfg, s, op, h, p);
    RenamesIs(cfg, s, op, h, p);
    hide NoCollision, WellFormed, NoOrphans, PutOf, DrainOf, PutSteps, PopSteps, ApplyAll, Within, Restarted, Stores,
         Pointers, DrainCount, Storable, IsHandle, Next, DiskAfter, PutReaches, Carried, Renames, PutRemoves,
         PopRemoves, FilesFor, Superseded, NewEntry, QueueOf, KilledFiles, PutStep;
    FilesBounded(u, s, h, p);
    if PutOf(cfg, s, op).Some? {
      var a, k := PutOf(cfg, s, op).value, Carried(cfg, s, op);
      PutCarried(u, cfg, s, op, s', h, p);
      CarriedIs(cfg, s, op);
      if Renames(cfg, s, op, h, p) {
        KilledIs(cfg, s, a, op.put, k);
        OnlyNewFile(u, cfg, s, a, op.put, k);
      } else {
        KilledPutFiles(u, cfg, s, a, op.put, k, h, p);
      }
    } else if DrainOf(cfg, s, op).Some? {
      var d, k := DrainOf(cfg, s, op).value, Carried(cfg, s, op);
      PopCarried(cfg, s, op, s', h, p);
      CarriedIs(cfg, s, op);
      FewerFiles(s, d, op.pop.drain, k, h, p);
    } else {
      NothingCarried(cfg, s, op, s');
    }
  }

  lemma CarriedIs(cfg: Config, s: Relay, op: Op)
    ensures op.CrashFput? || op.CrashFpop? ==> Carried(cfg, s, op) == op.k
  {
    hide PutOf, DrainOf;
  }

  lemma RenamesIs(cfg: Config, s: Relay, op: Op, h: Bytes, p: Pointer)
    ensures Renames(cfg, s, op, h, p) ==> PutOf(cfg, s, op) == Some(Admitted(h, p))
  {
    hide PutOf;
  }

  lemma FewerFiles(s: Relay, d: Drain, now: nat, k: nat, h: Bytes, p: Pointer)
    requires k <= |PopSteps(s.queues, d, now)|
    ensures |FilesFor(ApplyAll(s.disk, PopSteps(s.queues, d, now)[..k]).fenv, h, p)| <= |FilesFor(s.disk.fenv, h, p)|
  {
    hide ApplyAll, PopSteps, Stores, DrainCount;
    KilledPop(s, d, now, k);
    SubsetSize(FilesFor(ApplyAll(s.disk, PopSteps(s.queues, d, now)[..k]).fenv, h, p), FilesFor(s.disk.fenv, h, p));
  }

  /** After the rename, and past the removal of what a refresh supersedes, the new file is the only one. */
  lemma OnlyNewFile(u: set<Bytes>, cfg: Config, s: Relay, a: Admitted, tm: PutTimes, k: nat)
    requires NoCollision(u) && NoOrphans(u, s.queues, s.disk.fenv) && Storable(u, a, tm) && IsHandle(a.handle)
    requires Content(s, a.handle)[a.pointer] <= 1
    requires k >= 2 && k - 2 <= |PutStep(cfg, s.queues, a, tm).drops|
    requires k == 2 ==> Superseded(QueueOf(s.queues, a.handle), NewEntry(a, tm.receive)) == []
    ensures |FilesFor(KilledFiles(s.disk.fenv, NewEntry(a, tm.receive).cid, RawOf(a, tm.receive),
                                  PutStep(cfg, s.queues, a, tm).drops, k), a.handle, a.pointer)| <= 1
  {
    hide NoCollision, NoOrphans, RawOf, Cid, Stores, Put, Superseded, Storable, Content;
    var e, q := NewEntry(a, tm.receive), QueueOf(s.queues, a.handle);
    var drops := PutStep(cfg, s.queues, a, tm).drops;
    var files := KilledFiles(s.disk.fenv, e.cid, RawOf(a, tm.receive), drops, k);
    forall c | c in FilesFor(files, a.handle, a.pointer) ensures c in {e.cid} {
      if c != e.cid {
        SupersededFile(u, s, a, tm, c);
        if k > 2 {
          FirstDrop(q, e, cfg.maxPerHandle, tm.reap, k - 2);
        }
        assert false;
      }
    }
    SubsetSize(FilesFor(files, a.handle, a.pointer), {e.cid});
  }

  /** A restart that finds one file of the pointer at most queues it once at most, with its file. */
  lemma RestartOneCopy(
    cfg: Config, disk: Disk, tries: seq<Try>, order: seq<Bytes>, now: nat, s: Relay, h: Bytes, p: Pointer)
    requires Restarted(cfg, disk, tries, order, now, s) && |FilesFor(disk.fenv, h, p)| <= 1
    ensures OneCopy(s, h, p)
  {
    RestartedBounded(cfg, disk, tries, order, now, s, h, p);
    RestartFinds(cfg, disk, tries, order, now, s);
    var found := Found(cfg, disk, tries);
    hide Restarted, Content, IsEntry, FilesFor, Ascending, DistinctCids, Tried;
    OpenedQueue(cfg, found, order, now, s, h);
    forall e | e in QueueOf(s.queues, h) ensures e.cid in s.disk.fenv {
      KeptEntry(found.fenv, e, h, now, cfg.horizon);
    }
  }

  /** Every operation keeps a pointer single, except a refresh of it killed right after its rename. */
  lemma NextKeepsOneCopy(u: set<Bytes>, cfg: Config, s: Relay, op: Op, s': Relay, h: Bytes, p: Pointer)
    requires NoCollision(u) && WellFormed(cfg.limits, s.regs.table) && Within(u, cfg, s, op) && Next(cfg, s, op, s')
    requires NoOrphans(u, s.queues, s.disk.fenv) && OneCopy(s, h, p) && !Doubling(cfg, s, op, h, p)
    ensures OneCopy(s', h, p)
  {
    hide NoCollision, NoOrphans, OneCopy, WellFormed, Within, Admit, Authorize, Stored, Drained, Storable, Restarted,
         Reopened, FilesFor, Doubling, PutLog, PopLog, ApplyAll;
    if op.DoRestart? || IsCrash(op) {
      OneFile(u, cfg, s, op, s', h, p);
      RestartsFrom(u, cfg, s, op, s', h, p);
      RestartOneCopy(cfg, DiskAfter(cfg, s, op), TriesOf(op), op.order, op.now, s', h, p);
    } else if op.DoFput? && Admit(cfg, s, op.req, op.ip, op.put).1.Ok? {
      var (wins, r) := Admit(cfg, s, op.req, op.ip, op.put);
      PutIsStorable(u, cfg, s, op);
      StorableDecodes(u, r.value, op.put);
      SameCopies(s, s.(wins := wins), h, p);
      PutKeepsOneCopy(u, cfg, s.(wins := wins), r.value, op.put, h, p);
    } else if op.DoFpop? && Authorize(cfg, s, op.req, op.ip, op.pop).1.Ok? {
      var (wins, r) := Authorize(cfg, s, op.req, op.ip, op.pop);
      SameCopies(s, s.(wins := wins), h, p);
      PopKeepsOneCopy(u, s.(wins := wins), r.value, op.pop.drain, h, p);
    } else {
      SameCopies(s, s', h, p);
    }
  }

  lemma SameCopies(s: Relay, s': Relay, h: Bytes, p: Pointer)
    requires s'.queues == s.queues && s'.disk == s.disk
    ensures OneCopy(s, h, p) ==> OneCopy(s', h, p)
  {
    hide Pointers;
  }

  /** The restart of an operation that has one starts from the hold it leaves. */
  lemma RestartsFrom(u: set<Bytes>, cfg: Config, s: Relay, op: Op, s': Relay, h: Bytes, p: Pointer)
    requires WellFormed(cfg.limits, s.regs.table) && Within(u, cfg, s, op) && Next(cfg, s, op, s')
    requires IsCrash(op) || op.DoRestart?
    ensures Restarted(cfg, DiskAfter(cfg, s, op), TriesOf(op), op.order, op.now, s')
  {
    OneOfThem(cfg, s, op, h, p);
    hide WellFormed, PutOf, DrainOf, PutSteps, PopSteps, ApplyAll, Within, Restarted, Storable, IsHandle, Next,
         DiskAfter, PutReaches, Carried, Renames, PutRemoves, PopRemoves, DrainCount;
    if PutOf(cfg, s, op).Some? {
      PutCarried(u, cfg, s, op, s', h, p);
    } else if DrainOf(cfg, s, op).Some? {
      PopCarried(cfg, s, op, s', h, p);
    } else {
      NothingCarried(cfg, s, op, s');
    }
  }

  // --- Whole runs ---

  /** The pointer came with the hold (`i` = 0) or with operation `i - 1`, and nothing from there to `n` removed it. */
  ghost predicate KeptSince(cfg: Config, states: seq<Relay>, ops: seq<Op>, i: nat, n: nat, h: Bytes, p: Pointer)
    requires |states| == |ops| + 1 && i <= n <= |ops|
  {
    (if i == 0 then Filed(states[0].disk.fenv, h, p) else Renames(cfg, states[i - 1], ops[i - 1], h, p))
    && forall k :: Origin(i) <= k < n ==> !Removes(cfg, states[k], ops[k], h, p)
  }

  /** The first operation that may remove what came at moment `i`: the one that brought it, if one did. */
  function Origin(i: nat): nat {
    if i == 0 then 0 else i - 1
  }

  ghost predicate KeptSinceSome(cfg: Config, states: seq<Relay>, ops: seq<Op>, n: nat, h: Bytes, p: Pointer)
    requires |states| == |ops| + 1 && n <= |ops|
  {
    exists i :: 0 <= i <= n && KeptSince(cfg, states, ops, i, n, h, p)
  }

  lemma KeptNext(cfg: Config, states: seq<Relay>, ops: seq<Op>, n: nat, h: Bytes, p: Pointer)
    requires |states| == |ops| + 1 && n < |ops|
    ensures KeptSinceSome(cfg, states, ops, n + 1, h, p) <==>
            (KeptSinceSome(cfg, states, ops, n, h, p) || Renames(cfg, states[n], ops[n], h, p))
            && !Removes(cfg, states[n], ops[n], h, p)
  {
    hide Renames, Removes, Filed;
    if KeptSinceSome(cfg, states, ops, n + 1, h, p) {
      var i :| 0 <= i <= n + 1 && KeptSince(cfg, states, ops, i, n + 1, h, p);
      if i <= n {
        assert KeptSince(cfg, states, ops, i, n, h, p);
      }
    }
    if !Removes(cfg, states[n], ops[n], h, p) {
      if KeptSinceSome(cfg, states, ops, n, h, p) {
        var i :| 0 <= i <= n && KeptSince(cfg, states, ops, i, n, h, p);
        assert KeptSince(cfg, states, ops, i, n + 1, h, p);
      }
      if Renames(cfg, states[n], ops[n], h, p) {
        assert KeptSince(cfg, states, ops, n + 1, n + 1, h, p);
      }
    }
  }

  lemma {:induction false} RunKeepsOneCopy(
    u: set<Bytes>, cfg: Config, hold: Disk, order: seq<Bytes>, now: nat, states: seq<Relay>, ops: seq<Op>,
    n: nat, h: Bytes, p: Pointer)
    requires NoCollision(u) && Addressed(u, OpenFiles(hold.fenv, now, cfg.horizon))
    requires IsRun(u, cfg, states, ops) && Reopened(cfg, hold, order, now, states[0]) && n <= |ops|
    requires |FilesFor(OpenFiles(hold.fenv, now, cfg.horizon), h, p)| <= 1
    requires forall k :: 0 <= k < n ==> !Doubling(cfg, states[k], ops[k], h, p)
    ensures OneCopy(states[n], h, p)
  {
    hide NoCollision, Addressed, Reopened, NoOrphans, Doubling, OneCopy, Within, Next, WellFormed, FilesFor;
    if n == 0 {
      OpenedOneCopy(cfg, hold, order, now, states[0], h, p);
    } else {
      RunKeepsOneCopy(u, cfg, hold, order, now, states, ops, n - 1, h, p);
      RunsHaveNoOrphans(u, cfg, hold, order, now, states, ops, n - 1);
      RunKeepsShape(u, cfg, states, ops, n - 1);
      assert Moves(u, cfg, states[n - 1], ops[n - 1], states[n]);
      NextKeepsOneCopy(u, cfg, states[n - 1], ops[n - 1], states[n], h, p);
    }
  }

  lemma OpenedOneCopy(cfg: Config, hold: Disk, order: seq<Bytes>, now: nat, s: Relay, h: Bytes, p: Pointer)
    requires Reopened(cfg, hold, order, now, s) && |FilesFor(OpenFiles(hold.fenv, now, cfg.horizon), h, p)| <= 1
    ensures OneCopy(s, h, p)
  {
    hide Content, IsEntry, FilesFor, Ascending, DistinctCids, IsRebuilt, IsListing;
    OpenedBounded(cfg, hold, order, now, s, h, p);
    OpenedQueue(cfg, hold, order, now, s, h);
    forall e | e in QueueOf(s.queues, h) ensures e.cid in s.disk.fenv {
      KeptEntry(hold.fenv, e, h, now, cfg.horizon);
    }
  }

  /**
   * The contents of every queue in every state of every run, kills and killed opens included: a pointer is queued,
   * on disk as well as in memory, if and only if it came with the hold or some fput wrote it, acknowledged or
   * killed later, and no operation from there on got to removing it. (The hold has one file of it at most, and no
   * refresh of it is killed right after its rename.)
   */
  lemma {:induction false} QueuedExactly(
    u: set<Bytes>, cfg: Config, hold: Disk, order: seq<Bytes>, now: nat, states: seq<Relay>, ops: seq<Op>,
    n: nat, h: Bytes, p: Pointer)
    requires NoCollision(u) && Addressed(u, OpenFiles(hold.fenv, now, cfg.horizon))
    requires IsRun(u, cfg, states, ops) && Reopened(cfg, hold, order, now, states[0]) && n <= |ops|
    requires |FilesFor(OpenFiles(hold.fenv, now, cfg.horizon), h, p)| <= 1
    requires forall k :: 0 <= k < n ==> !Doubling(cfg, states[k], ops[k], h, p)
    ensures p in Pointers(QueueOf(states[n].queues, h)) <==> KeptSinceSome(cfg, states, ops, n, h, p)
    ensures Filed(states[n].disk.fenv, h, p) <==> KeptSinceSome(cfg, states, ops, n, h, p)
  {
    RunKeepsOneCopy(u, cfg, hold, order, now, states, ops, n, h, p);
    RunsHaveNoOrphans(u, cfg, hold, order, now, states, ops, n);
    hide NoCollision, Addressed, Reopened, NoOrphans, Doubling, OneCopy, Within, Next, WellFormed, FilesFor, Filed,
         Renames, Removes, Pointers, KeptSinceSome, QueueOf;
    CopyFiled(u, states[n], h, p);
    if n == 0 {
      KeptFromStart(cfg, states, ops, h, p);
    } else {
      QueuedExactly(u, cfg, hold, order, now, states, ops, n - 1, h, p);
      RunKeepsOneCopy(u, cfg, hold, order, now, states, ops, n - 1, h, p);
      RunsHaveNoOrphans(u, cfg, hold, order, now, states, ops, n - 1);
      RunKeepsShape(u, cfg, states, ops, n - 1);
      assert Moves(u, cfg, states[n - 1], ops[n - 1], states[n]);
      NextExactly(u, cfg, states[n - 1], ops[n - 1], states[n], h, p);
      KeptNext(cfg, states, ops, n - 1, h, p);
    }
  }

  lemma KeptFromStart(cfg: Config, states: seq<Relay>, ops: seq<Op>, h: Bytes, p: Pointer)
    requires |states| == |ops| + 1
    ensures KeptSinceSome(cfg, states, ops, 0, h, p) <==> Filed(states[0].disk.fenv, h, p)
  {
    hide Renames, Removes, Filed;
    assert Filed(states[0].disk.fenv, h, p) ==> KeptSince(cfg, states, ops, 0, 0, h, p);
  }
}
