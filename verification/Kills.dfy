/** What a kill can break, exactly: pointers twice in a queue, and a queue over its cap. */
module Kills {
  import opened Basics
  import opened Text
  import opened Envelope
  import opened Registry
  import opened Queue
  import opened QueueFacts
  import opened Hold
  import opened Restart
  import opened Relay
  import opened Coherence
  import opened CoherenceSteps
  import opened Runs
  import opened CrashSafety

  /** The queue and the new entry of the fput that was killed. */
  function QueueBefore(s: Relay, a: Admitted): Fifo {
    QueueOf(s.queues, a.handle)
  }

  /** The file is found by the restart, and its pointer is in the window. */
  predicate Returns(found: Files, c: Bytes, p: Pointer, now: nat, horizon: nat) {
    c in found && !Outside(p, now, horizon)
  }

  /** Killed right after the rename of a refresh: the superseded file and the new one both come back. */
  predicate Doubled(q: Fifo, e: Queued, k: nat, found: Files, now: nat, horizon: nat) {
    k == 2 && Superseded(q, e) != []
    && Returns(found, e.cid, e.pointer, now, horizon) && Returns(found, Superseded(q, e)[0], e.pointer, now, horizon)
  }

  /** Killed right after the rename, before anything made room: a full queue and one file more come back. */
  predicate Overfull(q: Fifo, e: Queued, cap: nat, k: nat, found: Files, now: nat, horizon: nat) {
    k == 2 && |q| == cap && e.cid !in Cids(q) && Returns(found, e.cid, e.pointer, now, horizon)
    && forall x :: x in q ==> Returns(found, x.cid, x.pointer, now, horizon)
  }

  // --- Two files for one pointer ---

  /** What a killed fput leaves, given the new file and the removals it had in store. */
  function KilledFiles(files: Files, stem: Bytes, raw: Bytes, drops: seq<Bytes>, k: nat): Files
    requires k >= 2 ==> k - 2 <= |drops|
  {
    if k < 2 then files else files[stem := raw] - Elements(drops[..k - 2])
  }

  lemma KilledIs(cfg: Config, s: Relay, a: Admitted, tm: PutTimes, k: nat)
    requires IsHandle(a.handle) && k <= |PutSteps(cfg, s.queues, a, tm)|
    ensures var drops := PutStep(cfg, s.queues, a, tm).drops;
            (k >= 2 ==> k - 2 <= |drops|)
            && ApplyAll(s.disk, PutSteps(cfg, s.queues, a, tm)[..k]).fenv ==
               KilledFiles(s.disk.fenv, NewEntry(a, tm.receive).cid, RawOf(a, tm.receive), drops, k)
  {
    hide ApplyAll, PutSteps, PutStep, RawOf;
    KilledPut(cfg, s, a, tm, k);
  }

  /** The only pair of files of one pointer that a killed fput can leave: the superseded one and the new one. */
  lemma TwoFiles(u: set<Bytes>, cfg: Config, s: Relay, a: Admitted, tm: PutTimes, k: nat,
                 c: Bytes, d: Bytes, h: Bytes, p: Pointer)
    requires NoCollision(u) && Coherent(u, s.queues, s.disk.fenv) && Storable(u, a, tm)
    requires k >= 2 ==> k - 2 <= |PutStep(cfg, s.queues, a, tm).drops|
    requires var files := KilledFiles(s.disk.fenv, NewEntry(a, tm.receive).cid, RawOf(a, tm.receive),
                                      PutStep(cfg, s.queues, a, tm).drops, k);
             c in files && d in files && Stores(files[c], h, p) && Stores(files[d], h, p)
    requires c != d && c in s.disk.fenv
    ensures var q, e := QueueBefore(s, a), NewEntry(a, tm.receive);
            k == 2 && h == a.handle && p == a.pointer && d == e.cid && Superseded(q, e) == [c]
  {
    var q, e, raw := QueueBefore(s, a), NewEntry(a, tm.receive), RawOf(a, tm.receive);
    assert NoOrphans(u, s.queues, s.disk.fenv) && Distinct(s.queues);
    hide NoCollision, RawOf, Stores, PutStep, Names, Cid, Coherent, NoOrphans, Distinct, Superseded, Storable, Elements;
    if d != e.cid || k < 2 {
      if k >= 2 {
        OldFile(u, s, a, tm, c, h, p);
      }
      SamePointerSameFile(u, s.queues, s.disk.fenv, c, d, h, p);
      assert false;
    }
    NewStores(u, a, tm);
    StoresOnce(raw, h, p, a.handle, a.pointer);
    OldFile(u, s, a, tm, c, h, p);
    SupersededIs(u, s, a, tm, c);
    if k > 2 {
      FirstDrop(q, e, cfg.maxPerHandle, tm.reap, k - 2);
      assert false;
    }
  }

  lemma NewStores(u: set<Bytes>, a: Admitted, tm: PutTimes)
    requires Storable(u, a, tm)
    ensures Stores(RawOf(a, tm.receive), a.handle, a.pointer)
  {
    hide RawOf, Parse, HandleOf;
    NewRaw(a, tm.receive);
  }

  /** A file of the pointer under another name is the one that the refresh supersedes. */
  lemma SupersededIs(u: set<Bytes>, s: Relay, a: Admitted, tm: PutTimes, c: Bytes)
    requires NoCollision(u) && NoOrphans(u, s.queues, s.disk.fenv) && Distinct(s.queues) && IsHandle(a.handle)
    requires c in s.disk.fenv && Stores(s.disk.fenv[c], a.handle, a.pointer) && c != NewEntry(a, tm.receive).cid
    ensures Superseded(QueueBefore(s, a), NewEntry(a, tm.receive)) == [c]
  {
    hide NoCollision, NoOrphans, Stores, RawOf, Find;
    var i := EntryOfFile(u, s.queues, s.disk.fenv, c, a.handle, a.pointer);
    OnlyEntry(QueueBefore(s, a), i, a.pointer);
  }

  /** An old file keeps its bytes: only a file of the same pointer could have the new name. */
  lemma OldFile(u: set<Bytes>, s: Relay, a: Admitted, tm: PutTimes, c: Bytes, h: Bytes, p: Pointer)
    requires NoCollision(u) && NoOrphans(u, s.queues, s.disk.fenv) && Storable(u, a, tm) && c in s.disk.fenv
    requires Stores(s.disk.fenv[Cid(RawOf(a, tm.receive)) := RawOf(a, tm.receive)][c], h, p)
    ensures Stores(s.disk.fenv[c], h, p)
  {
    hide NoCollision, RawOf, HandleOf, Parse, Names;
    var raw := RawOf(a, tm.receive);
    NewRaw(a, tm.receive);
    if c == Cid(raw) {
      NewNames(u, a, tm);
      StoresOnce(raw, h, p, a.handle, a.pointer);
      var old' := s.disk.fenv[c];
      FileNames(u, s.queues, s.disk.fenv, c, HandleOf(old'), Parse(old').value.pointer);
      NamesUnique(u, c, HandleOf(old'), Parse(old').value.pointer, a.handle, a.pointer);
    }
  }

  lemma StoresOnce(raw: Bytes, h: Bytes, p: Pointer, h': Bytes, p': Pointer)
    requires Stores(raw, h, p) && Stores(raw, h', p')
    ensures h == h' && p == p'
  {
    hide Parse, HandleOf;
  }

  lemma OnlyEntry(q: Fifo, i: nat, p: Pointer)
    requires DistinctPointers(q) && i < |q| && q[i].pointer == p
    ensures Find(q, p) == i
  {
    hide Find;
  }

  lemma FirstDrop(q: Fifo, e: Queued, cap: nat, now: nat, n: nat)
    requires Superseded(q, e) != [] && 0 < n <= |Put(q, e, cap, now).drops|
    ensures Superseded(q, e)[0] in Elements(Put(q, e, cap, now).drops[..n])
  {
    hide Find, Dead, Reap, Merge, Excess;
    assert Put(q, e, cap, now).drops[..n][0] == Superseded(q, e)[0];
  }

  /** `found` is what a restart finds after an fput that was killed, in a coherent relay, after `k` operations. */
  ghost predicate KilledBy(u: set<Bytes>, cfg: Config, s: Relay, a: Admitted, tm: PutTimes, k: nat, found: Files) {
    && NoCollision(u) && Coherent(u, s.queues, s.disk.fenv) && Storable(u, a, tm)
    && (k >= 2 ==> k - 2 <= |PutStep(cfg, s.queues, a, tm).drops|)
    && Part(found, KilledFiles(s.disk.fenv, NewEntry(a, tm.receive).cid, RawOf(a, tm.receive),
                               PutStep(cfg, s.queues, a, tm).drops, k))
  }

  lemma KilledParts(u: set<Bytes>, cfg: Config, s: Relay, a: Admitted, tm: PutTimes, k: nat, found: Files)
    requires KilledBy(u, cfg, s, a, tm, k, found)
    ensures NoCollision(u) && Storable(u, a, tm) && IsHandle(a.handle)
    ensures Coherent(u, s.queues, s.disk.fenv) && NoOrphans(u, s.queues, s.disk.fenv)
    ensures k >= 2 ==> k - 2 <= |PutStep(cfg, s.queues, a, tm).drops|
  {
    hide NoCollision, NoOrphans, PutStep;
  }

  /** A found file is the new one, or an old one that has not been touched. */
  lemma FoundFile(u: set<Bytes>, cfg: Config, s: Relay, a: Admitted, tm: PutTimes, k: nat, found: Files, c: Bytes)
    requires KilledBy(u, cfg, s, a, tm, k, found) && c in found
    ensures if k >= 2 && c == NewEntry(a, tm.receive).cid then found[c] == RawOf(a, tm.receive)
            else c in s.disk.fenv && found[c] == s.disk.fenv[c]
    ensures k >= 2 ==> c !in PutStep(cfg, s.queues, a, tm).drops[..k - 2]
  {
    hide NoCollision, Coherent, PutStep, RawOf, Cid;
  }

  /** The entry of an old file keeps its file's pointer in what the restart finds. */
  lemma FoundEntry(u: set<Bytes>, cfg: Config, s: Relay, a: Admitted, tm: PutTimes, k: nat, found: Files, h: Bytes,
                   x: Queued)
    requires KilledBy(u, cfg, s, a, tm, k, found)
    requires x in QueueOf(s.queues, h) && x.cid in found && x.cid != NewEntry(a, tm.receive).cid
    ensures Stores(found[x.cid], h, x.pointer)
  {
    hide NoCollision, NoOrphans, KilledBy, Stores, RawOf;
    KilledParts(u, cfg, s, a, tm, k, found);
    FoundFile(u, cfg, s, a, tm, k, found, x.cid);
    FileOfEntry(u, s.queues, s.disk.fenv, h, x);
  }

  lemma FoundNew(u: set<Bytes>, cfg: Config, s: Relay, a: Admitted, tm: PutTimes, k: nat, found: Files)
    requires KilledBy(u, cfg, s, a, tm, k, found) && k >= 2 && NewEntry(a, tm.receive).cid in found
    ensures Stores(found[NewEntry(a, tm.receive).cid], a.handle, a.pointer)
  {
    hide NoCollision, KilledBy, Stores, RawOf;
    KilledParts(u, cfg, s, a, tm, k, found);
    FoundFile(u, cfg, s, a, tm, k, found, NewEntry(a, tm.receive).cid);
    NewStores(u, a, tm);
  }

  lemma SupersededEntry(q: Fifo, e: Queued) returns (x: Queued)
    requires Superseded(q, e) != []
    ensures Superseded(q, e) == [x.cid] && x in q && x.pointer == e.pointer && x.cid != e.cid
  {
    x := q[Find(q, e.pointer)];
  }

  /** Two different files of one pointer in the window give that pointer two entries. */
  lemma TwoEntries(cfg: Config, disk: Disk, order: seq<Bytes>, now: nat, s: Relay, h: Bytes, c: Bytes, d: Bytes,
                   p: Pointer)
    requires Reopened(cfg, disk, order, now, s) && c != d && c in disk.fenv && d in disk.fenv
    requires Stores(disk.fenv[c], h, p) && Stores(disk.fenv[d], h, p) && !Outside(p, now, cfg.horizon)
    ensures !DistinctPointers(QueueOf(s.queues, h))
  {
    hide Reopened, Stores, IsEntry, Outside, Ascending, DistinctCids;
    OpenedQueue(cfg, disk, order, now, s, h);
    var x := EntryKept(disk.fenv, c, h, p, now, cfg.horizon);
    var y := EntryKept(disk.fenv, d, h, p, now, cfg.horizon);
    var q := QueueOf(s.queues, h);
    var i :| 0 <= i < |q| && q[i] == x;
    var j :| 0 <= j < |q| && q[j] == y;
  }

  /** A pointer twice in a rebuilt queue has two files, both in the window. */
  lemma EntriesOfTwoFiles(cfg: Config, disk: Disk, order: seq<Bytes>, now: nat, s: Relay, h: Bytes)
    returns (c: Bytes, d: Bytes, p: Pointer)
    requires Reopened(cfg, disk, order, now, s) && !DistinctPointers(QueueOf(s.queues, h))
    ensures c != d && c in disk.fenv && d in disk.fenv
    ensures Stores(disk.fenv[c], h, p) && Stores(disk.fenv[d], h, p) && !Outside(p, now, cfg.horizon)
  {
    hide Reopened, Stores, IsEntry, Outside, Ascending;
    OpenedQueue(cfg, disk, order, now, s, h);
    var q := QueueOf(s.queues, h);
    var i, j :| 0 <= i < j < |q| && q[i].pointer == q[j].pointer;
    assert q[i] in q && q[j] in q;
    KeptEntry(disk.fenv, q[i], h, now, cfg.horizon);
    KeptEntry(disk.fenv, q[j], h, now, cfg.horizon);
    c, d, p := q[i].cid, q[j].cid, q[i].pointer;
  }

  /** Two found files of one pointer. */
  lemma FoundTwo(u: set<Bytes>, cfg: Config, s: Relay, a: Admitted, tm: PutTimes, k: nat, found: Files,
                 c: Bytes, d: Bytes, h: Bytes, p: Pointer)
    requires KilledBy(u, cfg, s, a, tm, k, found) && c in found && d in found && c != d
    requires Stores(found[c], h, p) && Stores(found[d], h, p)
    ensures var q, e := QueueBefore(s, a), NewEntry(a, tm.receive);
            k == 2 && h == a.handle && p == a.pointer && (Superseded(q, e) == [c] || Superseded(q, e) == [d])
            && (c == e.cid || d == e.cid)
  {
    hide NoCollision, Coherent, Storable, RawOf, Stores, PutStep, Superseded, Elements, Cid;
    if c in s.disk.fenv {
      TwoFiles(u, cfg, s, a, tm, k, c, d, h, p);
    } else {
      TwoFiles(u, cfg, s, a, tm, k, d, c, h, p);
    }
  }

  /** After a killed fput, pointers are distinct in every queue but the doubled one. */
  lemma PutDistinctExactly(u: set<Bytes>, cfg: Config, s: Relay, a: Admitted, tm: PutTimes, k: nat,
                           found: Disk, order: seq<Bytes>, now: nat, s': Relay, h: Bytes)
    requires KilledBy(u, cfg, s, a, tm, k, found.fenv) && IsHandle(a.handle) && Reopened(cfg, found, order, now, s')
    ensures DistinctPointers(QueueOf(s'.queues, h)) <==>
            !(h == a.handle && Doubled(QueueBefore(s, a), NewEntry(a, tm.receive), k, found.fenv, now, cfg.horizon))
  {
    hide KilledBy, RawOf, Stores, Reopened, Superseded, Outside, DistinctPointers, QueueBefore, Cid;
    var q, e := QueueBefore(s, a), NewEntry(a, tm.receive);
    if h == a.handle && Doubled(q, e, k, found.fenv, now, cfg.horizon) {
      var x := SupersededEntry(q, e);
      FoundNew(u, cfg, s, a, tm, k, found.fenv);
      FoundEntry(u, cfg, s, a, tm, k, found.fenv, h, x) by {
        BeforeIs(s, a);
      }
      TwoEntries(cfg, found, order, now, s', h, x.cid, e.cid, a.pointer);
    }
    if !DistinctPointers(QueueOf(s'.queues, h)) {
      var c, d, p := EntriesOfTwoFiles(cfg, found, order, now, s', h);
      FoundTwo(u, cfg, s, a, tm, k, found.fenv, c, d, h, p);
      var x := SupersededEntry(q, e);
    }
  }

  lemma BeforeIs(s: Relay, a: Admitted)
    ensures QueueBefore(s, a) == QueueOf(s.queues, a.handle)
  {
  }

  // --- A queue over its cap ---

  lemma {:induction false} DistinctSize(q: Fifo)
    requires DistinctCids(q)
    ensures |Elements(Cids(q))| == |q|
  {
    if q != [] {
      var k := |q| - 1;
      DistinctSize(q[..k]);
      assert Cids(q) == Cids(q[..k]) + [q[k].cid];
      assert Elements(Cids(q)) == Elements(Cids(q[..k])) + {q[k].cid};
      assert q[k].cid !in Cids(q[..k]);
    }
  }

  /** The file behind a name in a rebuilt queue. */
  lemma NameReturns(cfg: Config, disk: Disk, order: seq<Bytes>, now: nat, s: Relay, h: Bytes, c: Bytes)
    returns (p: Pointer)
    requires Reopened(cfg, disk, order, now, s) && c in Cids(QueueOf(s.queues, h))
    ensures c in disk.fenv && Stores(disk.fenv[c], h, p) && !Outside(p, now, cfg.horizon)
  {
    hide Reopened, Stores, IsEntry, Outside, Ascending, DistinctCids;
    OpenedQueue(cfg, disk, order, now, s, h);
    var q := QueueOf(s.queues, h);
    var i := CidAt(q, c);
    assert q[i] in q;
    KeptEntry(disk.fenv, q[i], h, now, cfg.horizon);
    p := q[i].pointer;
  }

  lemma FileReturns(cfg: Config, disk: Disk, order: seq<Bytes>, now: nat, s: Relay, h: Bytes, c: Bytes, p: Pointer)
    requires Reopened(cfg, disk, order, now, s) && c in disk.fenv && Stores(disk.fenv[c], h, p)
    requires !Outside(p, now, cfg.horizon)
    ensures c in Cids(QueueOf(s.queues, h))
  {
    hide Reopened, Stores, IsEntry, Outside, Ascending, DistinctCids;
    OpenedQueue(cfg, disk, order, now, s, h);
    var e := EntryKept(disk.fenv, c, h, p, now, cfg.horizon);
    CidIn(QueueOf(s.queues, h), e);
  }

  /** A found file is the new one, or is indexed under its handle. */
  lemma FoundName(u: set<Bytes>, cfg: Config, s: Relay, a: Admitted, tm: PutTimes, k: nat, found: Files,
                  c: Bytes, h: Bytes, p: Pointer)
    requires KilledBy(u, cfg, s, a, tm, k, found) && IsHandle(a.handle) && c in found && Stores(found[c], h, p)
    ensures c in Cids(QueueOf(s.queues, h))
            || (k >= 2 && c == NewEntry(a, tm.receive).cid && h == a.handle && p == a.pointer)
  {
    hide NoCollision, RawOf, Stores, KilledBy, Cid, NoOrphans;
    KilledParts(u, cfg, s, a, tm, k, found);
    FoundFile(u, cfg, s, a, tm, k, found, c);
    if k >= 2 && c == NewEntry(a, tm.receive).cid {
      NewStores(u, a, tm);
      StoresOnce(found[c], h, p, a.handle, a.pointer);
    } else {
      var i := EntryOfFile(u, s.queues, s.disk.fenv, c, h, p);
      CidIn(QueueOf(s.queues, h), QueueOf(s.queues, h)[i]);
    }
  }

  /** The files of a full queue and a new one come back together. */
  lemma OverfullReturns(u: set<Bytes>, cfg: Config, s: Relay, a: Admitted, tm: PutTimes,
                        found: Disk, order: seq<Bytes>, now: nat, s': Relay)
    requires KilledBy(u, cfg, s, a, tm, 2, found.fenv) && IsHandle(a.handle) && Reopened(cfg, found, order, now, s')
    requires Overfull(QueueBefore(s, a), NewEntry(a, tm.receive), cfg.maxPerHandle, 2, found.fenv, now, cfg.horizon)
    ensures |QueueOf(s'.queues, a.handle)| > cfg.maxPerHandle
  {
    hide KilledBy, RawOf, Stores, Cid, Reopened, Outside, DistinctCids, Cids, Ascending, IsEntry;
    var q, e, q' := QueueBefore(s, a), NewEntry(a, tm.receive), QueueOf(s'.queues, a.handle);
    FoundNew(u, cfg, s, a, tm, 2, found.fenv);
    FileReturns(cfg, found, order, now, s', a.handle, e.cid, e.pointer);
    forall c | c in Cids(q) ensures c in Cids(q') {
      var i := CidAt(q, c);
      assert q[i] in q;
      FoundEntry(u, cfg, s, a, tm, 2, found.fenv, a.handle, q[i]);
      FileReturns(cfg, found, order, now, s', a.handle, c, q[i].pointer);
    }
    BeforeDistinct(u, cfg, s, a, tm, 2, found.fenv);
    OpenedQueue(cfg, found, order, now, s', a.handle);
    NamesOutnumber(q, e.cid, q');
  }

  lemma BeforeDistinct(u: set<Bytes>, cfg: Config, s: Relay, a: Admitted, tm: PutTimes, k: nat, found: Files)
    requires KilledBy(u, cfg, s, a, tm, k, found)
    ensures DistinctCids(QueueBefore(s, a)) && BackedQueue(QueueBefore(s, a), s.disk.fenv)
  {
    hide NoCollision, NoOrphans, BackedQueue, DistinctCids, PutStep, RawOf;
  }

  lemma NamesOutnumber(q: Fifo, c: Bytes, q': Fifo)
    requires DistinctCids(q) && DistinctCids(q') && c !in Cids(q) && c in Cids(q')
    requires forall d :: d in Cids(q) ==> d in Cids(q')
    ensures |q'| > |q|
  {
    hide DistinctCids, Cids;
    DistinctSize(q);
    DistinctSize(q');
    assert |Elements(Cids(q)) + {c}| == |q| + 1;
    SubsetSize(Elements(Cids(q)) + {c}, Elements(Cids(q')));
  }

  /** A rebuilt queue over the cap holds every old name and the new one. */
  lemma OverCapMeans(u: set<Bytes>, cfg: Config, s: Relay, a: Admitted, tm: PutTimes, k: nat,
                     found: Disk, order: seq<Bytes>, now: nat, s': Relay, h: Bytes)
    requires KilledBy(u, cfg, s, a, tm, k, found.fenv) && IsHandle(a.handle) && WithinCap(s.queues, cfg.maxPerHandle)
    requires Reopened(cfg, found, order, now, s') && |QueueOf(s'.queues, h)| > cfg.maxPerHandle
    ensures var q, e := QueueBefore(s, a), NewEntry(a, tm.receive);
            && h == a.handle && k >= 2 && e.cid !in Cids(q) && |q| == cfg.maxPerHandle
            && e.cid in Cids(QueueOf(s'.queues, h))
            && forall c :: c in Cids(q) ==> c in Cids(QueueOf(s'.queues, h))
  {
    assert |QueueOf(s.queues, h)| <= cfg.maxPerHandle;
    hide KilledBy, RawOf, Stores, Cid, Reopened, Outside, DistinctCids, Cids, WithinCap, Ascending, IsEntry;
    var q, e, q' := QueueOf(s.queues, h), NewEntry(a, tm.receive), QueueOf(s'.queues, h);
    forall c | c in Cids(q') ensures c in Cids(q) || (k >= 2 && c == e.cid && h == a.handle) {
      var p := NameReturns(cfg, found, order, now, s', h, c);
      FoundName(u, cfg, s, a, tm, k, found.fenv, c, h, p);
    }
    OpenedQueue(cfg, found, order, now, s', h);
    DistinctSize(q');
    ElementsSize(Cids(q));
    OneMore(Elements(Cids(q)), e.cid, Elements(Cids(q')), |q|, cfg.maxPerHandle);
  }

  /** Counting: more than `cap` names among at most `cap` old ones and one new. */
  lemma OneMore(old': set<Bytes>, c: Bytes, names: set<Bytes>, n: nat, cap: nat)
    requires |old'| <= n <= cap < |names| && names <= old' + {c}
    ensures c !in old' && n == cap && names == old' + {c}
  {
    SubsetSize(names, old' + {c});
    assert c in old' ==> old' + {c} == old';
  }

  /** After a killed fput, every queue is within the cap but the overfull one. */
  lemma PutCapExactly(u: set<Bytes>, cfg: Config, s: Relay, a: Admitted, tm: PutTimes, k: nat,
                      found: Disk, order: seq<Bytes>, now: nat, s': Relay, h: Bytes)
    requires KilledBy(u, cfg, s, a, tm, k, found.fenv) && IsHandle(a.handle) && WithinCap(s.queues, cfg.maxPerHandle)
    requires Reopened(cfg, found, order, now, s')
    ensures |QueueOf(s'.queues, h)| > cfg.maxPerHandle <==>
            h == a.handle && Overfull(QueueBefore(s, a), NewEntry(a, tm.receive), cfg.maxPerHandle, k,
                                      found.fenv, now, cfg.horizon)
  {
    hide KilledBy, RawOf, Stores, Cid, Reopened, Outside, Cids, WithinCap;
    var q, e := QueueBefore(s, a), NewEntry(a, tm.receive);
    if h == a.handle && Overfull(q, e, cfg.maxPerHandle, k, found.fenv, now, cfg.horizon) {
      OverfullReturns(u, cfg, s, a, tm, found, order, now, s');
    }
    if |QueueOf(s'.queues, h)| > cfg.maxPerHandle {
      OverCapMeans(u, cfg, s, a, tm, k, found, order, now, s', h);
      NothingDropped(u, cfg, s, a, tm, k, found, order, now, s');
      NameComesBack(u, cfg, s, a, tm, k, found, order, now, s', e.cid, a.pointer) by {
        var p := NameReturns(cfg, found, order, now, s', h, e.cid);
        FoundNew(u, cfg, s, a, tm, k, found.fenv);
      }
      forall x | x in q ensures Returns(found.fenv, x.cid, x.pointer, now, cfg.horizon) {
        CidIn(q, x);
        NameComesBack(u, cfg, s, a, tm, k, found, order, now, s', x.cid, x.pointer) by {
          var p := NameReturns(cfg, found, order, now, s', h, x.cid);
          FoundEntry(u, cfg, s, a, tm, k, found.fenv, h, x);
        }
      }
    }
  }

  lemma NameComesBack(u: set<Bytes>, cfg: Config, s: Relay, a: Admitted, tm: PutTimes, k: nat,
                      found: Disk, order: seq<Bytes>, now: nat, s': Relay, c: Bytes, p: Pointer)
    requires Reopened(cfg, found, order, now, s') && c in Cids(QueueOf(s'.queues, a.handle))
    requires c in found.fenv && Stores(found.fenv[c], a.handle, p)
    ensures Returns(found.fenv, c, p, now, cfg.horizon)
  {
    hide Reopened, Stores, Outside, Cids;
    var p' := NameReturns(cfg, found, order, now, s', a.handle, c);
    StoresOnce(found.fenv[c], a.handle, p', a.handle, p);
  }

  /** With every name back, the kill came before the first removal. */
  lemma NothingDropped(u: set<Bytes>, cfg: Config, s: Relay, a: Admitted, tm: PutTimes, k: nat,
                       found: Disk, order: seq<Bytes>, now: nat, s': Relay)
    requires KilledBy(u, cfg, s, a, tm, k, found.fenv) && IsHandle(a.handle) && k >= 2
    requires Reopened(cfg, found, order, now, s')
    requires NewEntry(a, tm.receive).cid in Cids(QueueOf(s'.queues, a.handle))
    requires forall c :: c in Cids(QueueBefore(s, a)) ==> c in Cids(QueueOf(s'.queues, a.handle))
    ensures k == 2
  {
    hide KilledBy, RawOf, Stores, Cid, Reopened, Outside, Cids, PutStep, QueueBefore, Elements;
    KilledParts(u, cfg, s, a, tm, k, found.fenv);
    if k > 2 {
      var c := SomeDrop(cfg, s, a, tm, k);
      var p := NameReturns(cfg, found, order, now, s', a.handle, c);
      FoundFile(u, cfg, s, a, tm, k, found.fenv, c);
      assert false;
    }
  }

  /** A file that a kill after the first removal has cost. */
  lemma SomeDrop(cfg: Config, s: Relay, a: Admitted, tm: PutTimes, k: nat) returns (c: Bytes)
    requires IsHandle(a.handle) && 2 < k && k - 2 <= |PutStep(cfg, s.queues, a, tm).drops|
    ensures c in Elements(PutStep(cfg, s.queues, a, tm).drops[..k - 2])
    ensures c in Cids(QueueBefore(s, a)) || c == NewEntry(a, tm.receive).cid
  {
    hide Put, RawOf;
    var q, e := QueueBefore(s, a), NewEntry(a, tm.receive);
    var drops := Put(q, e, cfg.maxPerHandle, tm.reap).drops;
    c := drops[0];
    assert c == drops[..k - 2][0];
    PutDropsKnown(q, e, cfg.maxPerHandle, tm.reap, c);
  }

  // --- Any operation ---

  /** What the restart of a killed fput finds on disk; nothing for other operations. */
  ghost function Leaves(cfg: Config, s: Relay, op: Op): Files
    requires WellFormed(cfg.limits, s.regs.table)
  {
    if !op.CrashFput? || op.k > |PutLog(cfg, s, op.req, op.ip, op.put)| then map[] else
    var disk := ApplyAll(s.disk, PutLog(cfg, s, op.req, op.ip, op.put)[..op.k]);
    if Tried(cfg.horizon, disk, op.tries).None? then map[] else Found(cfg, disk, op.tries).fenv
  }

  /** The kill leaves two files of one pointer that come back together. */
  ghost predicate Doubles(cfg: Config, s: Relay, op: Op)
    requires WellFormed(cfg.limits, s.regs.table)
  {
    op.CrashFput? && PutOf(cfg, s, op).Some? && IsHandle(PutOf(cfg, s, op).value.handle) &&
    var a := PutOf(cfg, s, op).value;
    Doubled(QueueBefore(s, a), NewEntry(a, op.put.receive), op.k, Leaves(cfg, s, op), op.now, cfg.horizon)
  }

  /** The kill leaves one file more than the cap, and all of them come back together. */
  ghost predicate Overfills(cfg: Config, s: Relay, op: Op)
    requires WellFormed(cfg.limits, s.regs.table)
  {
    op.CrashFput? && PutOf(cfg, s, op).Some? && IsHandle(PutOf(cfg, s, op).value.handle) &&
    var a := PutOf(cfg, s, op).value;
    Overfull(QueueBefore(s, a), NewEntry(a, op.put.receive), cfg.maxPerHandle, op.k, Leaves(cfg, s, op), op.now,
             cfg.horizon)
  }

  lemma KilledByOp(u: set<Bytes>, cfg: Config, s: Relay, op: Op, s': Relay)
    requires NoCollision(u) && WellFormed(cfg.limits, s.regs.table) && Within(u, cfg, s, op) && Next(cfg, s, op, s')
    requires Coherent(u, s.queues, s.disk.fenv) && op.CrashFput? && PutOf(cfg, s, op).Some?
    ensures IsHandle(PutOf(cfg, s, op).value.handle)
    ensures KilledBy(u, cfg, s, PutOf(cfg, s, op).value, op.put, op.k, Leaves(cfg, s, op))
    ensures exists found: Disk :: found.fenv == Leaves(cfg, s, op) && Reopened(cfg, found, op.order, op.now, s')
  {
    hide NoCollision, Coherent, WellFormed, Within, Admit, ApplyAll, PutSteps, Reopened, PutStep, RawOf, Storable,
         Tried, IsHandle, KilledFiles, Part;
    var a := PutOf(cfg, s, op).value;
    PutIsStorable(u, cfg, s, op);
    StorableDecodes(u, a, op.put);
    KilledIs(cfg, s, a, op.put, op.k);
    var disk := ApplyAll(s.disk, PutLog(cfg, s, op.req, op.ip, op.put)[..op.k]);
    RestartFinds(cfg, disk, op.tries, op.order, op.now, s');
    var found := Found(cfg, disk, op.tries);
    assert found.fenv == Leaves(cfg, s, op);
  }

  /** A restart after anything that leaves part of a coherent hold gives a coherent relay. */
  lemma PartReopens(u: set<Bytes>, cfg: Config, s: Relay, disk: Disk, tries: seq<Try>, order: seq<Bytes>, now: nat,
                    s': Relay)
    requires NoCollision(u) && Coherent(u, s.queues, s.disk.fenv) && WithinCap(s.queues, cfg.maxPerHandle)
    requires Part(disk.fenv, s.disk.fenv) && Restarted(cfg, disk, tries, order, now, s')
    ensures Coherent(u, s'.queues, s'.disk.fenv) && WithinCap(s'.queues, cfg.maxPerHandle)
  {
    hide NoCollision, Coherent, WithinCap, Reopened, GoodHold, Addressed, Part;
    CoherentHold(u, s.queues, s.disk.fenv, cfg.maxPerHandle);
    RestartFinds(cfg, disk, tries, order, now, s');
    var found := Found(cfg, disk, tries);
    PartGood(u, disk.fenv, s.disk.fenv, cfg.maxPerHandle);
    PartGood(u, found.fenv, disk.fenv, cfg.maxPerHandle);
    OpenPart(found.fenv, now, cfg.horizon);
    PartGood(u, OpenFiles(found.fenv, now, cfg.horizon), found.fenv, cfg.maxPerHandle);
    OpenedCoherent(u, cfg, found, order, now, s');
  }

  lemma PopPart(s: Relay, d: Drain, now: nat, k: nat)
    requires k <= |PopSteps(s.queues, d, now)|
    ensures Part(ApplyAll(s.disk, PopSteps(s.queues, d, now)[..k]).fenv, s.disk.fenv)
  {
    hide ApplyAll, PopSteps, DrainCount;
    KilledPop(s, d, now, k);
  }

  lemma SamePart(disk: Disk, steps: seq<FileStep>)
    requires steps == []
    ensures Part(ApplyAll(disk, steps).fenv, disk.fenv) && Part(disk.fenv, disk.fenv)
  {
  }

  /** Every operation but an admitted fput that is killed keeps coherence and cap, whatever else is killed. */
  lemma OtherKillsKeepCoherent(u: set<Bytes>, cfg: Config, s: Relay, op: Op, s': Relay)
    requires NoCollision(u) && WellFormed(cfg.limits, s.regs.table) && Within(u, cfg, s, op) && Next(cfg, s, op, s')
    requires Coherent(u, s.queues, s.disk.fenv) && WithinCap(s.queues, cfg.maxPerHandle)
    requires !(op.CrashFput? && PutOf(cfg, s, op).Some?)
    ensures Coherent(u, s'.queues, s'.disk.fenv) && WithinCap(s'.queues, cfg.maxPerHandle)
  {
    hide NoCollision, Coherent, WithinCap, WellFormed, Within, Admit, Authorize, ApplyAll, Restarted, PopSteps,
         PutSteps, Reopened, Part;
    match op
    case CrashRestart(tries, order, now) =>
      SamePart(s.disk, []);
      PartReopens(u, cfg, s, s.disk, tries, order, now, s');
    case CrashFput(req, ip, tm, k, tries, order, now) =>
      SamePart(s.disk, PutLog(cfg, s, req, ip, tm)[..k]);
      PartReopens(u, cfg, s, ApplyAll(s.disk, PutLog(cfg, s, req, ip, tm)[..k]), tries, order, now, s');
    case CrashFpop(req, ip, tm, k, tries, order, now) =>
      if DrainOf(cfg, s, op).Some? {
        PopPart(s, DrainOf(cfg, s, op).value, tm.drain, k);
      } else {
        SamePart(s.disk, PopLog(cfg, s, req, ip, tm)[..k]);
      }
      PartReopens(u, cfg, s, ApplyAll(s.disk, PopLog(cfg, s, req, ip, tm)[..k]), tries, order, now, s');
    case _ => NextKeepsCoherent(u, cfg, s, op, s');
  }

  /** What a killed fput keeps in any case. */
  lemma KilledPutKeeps(u: set<Bytes>, cfg: Config, s: Relay, op: Op, s': Relay)
    requires WellFormed(cfg.limits, s.regs.table) && Within(u, cfg, s, op) && Next(cfg, s, op, s')
    requires NoOrphans(u, s.queues, s.disk.fenv) && op.CrashFput?
    ensures NoOrphans(u, s'.queues, s'.disk.fenv) && Backed(s'.queues, s'.disk.fenv)
    ensures forall h :: DistinctCids(QueueOf(s'.queues, h))
  {
    assert Addressed(u, s.disk.fenv);
    KilledAddressed(u, cfg, s, op);
    hide WellFormed, Within, ApplyAll, Reopened, NoOrphans, Addressed, Part, Backed, DistinctCids, PutLog, Tried;
    var disk := ApplyAll(s.disk, PutLog(cfg, s, op.req, op.ip, op.put)[..op.k]);
    RestartFinds(cfg, disk, op.tries, op.order, op.now, s');
    var found := Found(cfg, disk, op.tries).fenv;
    PartGood(u, found, disk.fenv, 0);
    OpenPart(found, op.now, cfg.horizon);
    PartGood(u, OpenFiles(found, op.now, cfg.horizon), found, 0);
    OpenedNoOrphans(u, cfg, Found(cfg, disk, op.tries), op.order, op.now, s');
  }

  /** One queue after a killed fput. */
  lemma KilledQueue(u: set<Bytes>, cfg: Config, s: Relay, op: Op, s': Relay, h: Bytes)
    requires NoCollision(u) && WellFormed(cfg.limits, s.regs.table) && Within(u, cfg, s, op) && Next(cfg, s, op, s')
    requires Coherent(u, s.queues, s.disk.fenv) && WithinCap(s.queues, cfg.maxPerHandle)
    requires op.CrashFput? && PutOf(cfg, s, op).Some?
    ensures DistinctPointers(QueueOf(s'.queues, h)) <==> !(h == PutOf(cfg, s, op).value.handle && Doubles(cfg, s, op))
    ensures |QueueOf(s'.queues, h)| <= cfg.maxPerHandle <==>
            !(h == PutOf(cfg, s, op).value.handle && Overfills(cfg, s, op))
  {
    hide NoCollision, WellFormed, Within, PutOf, Leaves, Doubled, Overfull, Coherent, Next, QueueBefore, Reopened,
         KilledBy, DistinctPointers, WithinCap, NewEntry, QueueOf;
    var a := PutOf(cfg, s, op).value;
    KilledByOp(u, cfg, s, op, s');
    var found: Disk :| found.fenv == Leaves(cfg, s, op) && Reopened(cfg, found, op.order, op.now, s');
    PutDistinctExactly(u, cfg, s, a, op.put, op.k, found, op.order, op.now, s', h);
    PutCapExactly(u, cfg, s, a, op.put, op.k, found, op.order, op.now, s', h);
  }

  /**
   * One operation of any kind, from a coherent relay within its cap: index and disk still agree both ways
   * with pointers distinct exactly unless the kill doubles one, and every queue is within the cap exactly
   * unless the kill overfills one.
   */
  lemma NextKeepsCoherentExactly(u: set<Bytes>, cfg: Config, s: Relay, op: Op, s': Relay)
    requires NoCollision(u) && WellFormed(cfg.limits, s.regs.table) && Within(u, cfg, s, op) && Next(cfg, s, op, s')
    requires Coherent(u, s.queues, s.disk.fenv) && WithinCap(s.queues, cfg.maxPerHandle)
    ensures Coherent(u, s'.queues, s'.disk.fenv) <==> !Doubles(cfg, s, op)
    ensures WithinCap(s'.queues, cfg.maxPerHandle) <==> !Overfills(cfg, s, op)
  {
    if op.CrashFput? && PutOf(cfg, s, op).Some? {
      CoherentParts(u, s.queues, s.disk.fenv);
      var own := PutOf(cfg, s, op).value.handle;
      hide *;
      KilledPutKeeps(u, cfg, s, op, s');
      forall h ensures DistinctPointers(QueueOf(s'.queues, h)) <==> !(h == own && Doubles(cfg, s, op)) {
        KilledQueue(u, cfg, s, op, s', h);
      }
      forall h ensures |QueueOf(s'.queues, h)| <= cfg.maxPerHandle <==> !(h == own && Overfills(cfg, s, op)) {
        KilledQueue(u, cfg, s, op, s', h);
      }
      CoherentUnless(u, s'.queues, s'.disk.fenv, own, Doubles(cfg, s, op));
      CapUnless(s'.queues, cfg.maxPerHandle, own, Overfills(cfg, s, op));
    } else {
      hide NoCollision, WellFormed, Within, Coherent, WithinCap, Next;
      OtherKillsKeepCoherent(u, cfg, s, op, s');
    }
  }

  lemma CoherentParts(u: set<Bytes>, queues: Index, files: Files)
    requires Coherent(u, queues, files)
    ensures NoOrphans(u, queues, files) && Backed(queues, files)
  {
    hide NoOrphans;
  }

  lemma CoherentUnless(u: set<Bytes>, queues: Index, files: Files, own: Bytes, bad: bool)
    requires NoOrphans(u, queues, files) && Backed(queues, files)
    requires forall h :: DistinctCids(QueueOf(queues, h))
    requires forall h :: DistinctPointers(QueueOf(queues, h)) <==> !(h == own && bad)
    ensures Coherent(u, queues, files) <==> !bad
  {
    hide NoOrphans, Backed, DistinctCids, DistinctPointers;
    assert DistinctPointers(QueueOf(queues, own)) <==> !bad;
  }

  lemma CapUnless(queues: Index, cap: nat, own: Bytes, bad: bool)
    requires forall h :: |QueueOf(queues, h)| <= cap <==> !(h == own && bad)
    ensures WithinCap(queues, cap) <==> !bad
  {
    assert |QueueOf(queues, own)| <= cap <==> !bad;
  }

  lemma PlainLeaves(u: set<Bytes>, cfg: Config, s: Relay, op: Op, s': Relay)
    requires WellFormed(cfg.limits, s.regs.table) && Next(cfg, s, op, s')
    requires op.CrashFput? && op.tries == [] && PutOf(cfg, s, op).Some? && IsHandle(PutOf(cfg, s, op).value.handle)
    ensures var a := PutOf(cfg, s, op).value;
            op.k == 2 ==> Leaves(cfg, s, op) ==
                          s.disk.fenv[NewEntry(a, op.put.receive).cid := RawOf(a, op.put.receive)]
  {
    hide WellFormed, Admit, ApplyAll, PutSteps, Reopened, PutStep, RawOf, Cid, IsHandle;
    var a := PutOf(cfg, s, op).value;
    KilledIs(cfg, s, a, op.put, op.k);
    if op.k == 2 {
      NoneRemoved(PutStep(cfg, s.queues, a, op.put).drops);
    }
  }

  lemma PlainConditions(q: Fifo, e: Queued, files: Files, raw: Bytes, k: nat, found: Files, cap: nat, now: nat,
                        horizon: nat)
    requires BackedQueue(q, files) && (k == 2 ==> found == files[e.cid := raw])
    ensures Doubled(q, e, k, found, now, horizon) <==>
            k == 2 && Superseded(q, e) != [] && !Outside(e.pointer, now, horizon)
    ensures Overfull(q, e, cap, k, found, now, horizon) <==>
            k == 2 && |q| == cap && e.cid !in Cids(q) && !Outside(e.pointer, now, horizon)
            && forall x :: x in q ==> !Outside(x.pointer, now, horizon)
  {
    hide Outside, Cids, Superseded;
    if Superseded(q, e) != [] {
      var x := SupersededEntry(q, e);
    }
  }

  /** Without killed tries, what a caller could check: the point of the kill, the queue, and the window. */
  lemma PlainKill(u: set<Bytes>, cfg: Config, s: Relay, op: Op, s': Relay)
    requires WellFormed(cfg.limits, s.regs.table) && Next(cfg, s, op, s')
    requires Coherent(u, s.queues, s.disk.fenv) && op.CrashFput? && op.tries == [] && PutOf(cfg, s, op).Some?
    requires IsHandle(PutOf(cfg, s, op).value.handle)
    ensures var a := PutOf(cfg, s, op).value;
            var q, e := QueueBefore(s, a), NewEntry(a, op.put.receive);
            && (Doubles(cfg, s, op) <==>
                  op.k == 2 && Superseded(q, e) != [] && !Outside(a.pointer, op.now, cfg.horizon))
            && (Overfills(cfg, s, op) <==>
                  op.k == 2 && |q| == cfg.maxPerHandle && e.cid !in Cids(q) && !Outside(a.pointer, op.now, cfg.horizon)
                  && forall x :: x in q ==> !Outside(x.pointer, op.now, cfg.horizon))
  {
    CoherentParts(u, s.queues, s.disk.fenv);
    hide WellFormed, PutOf, Next, Coherent, RawOf, Outside, Superseded, Cids, Cid, IsHandle,
         Doubled, Overfull, Leaves, BackedQueue;
    var a := PutOf(cfg, s, op).value;
    var q, e := QueueBefore(s, a), NewEntry(a, op.put.receive);
    PlainLeaves(u, cfg, s, op, s');
    assert BackedQueue(q, s.disk.fenv);
    PlainConditions(q, e, s.disk.fenv, RawOf(a, op.put.receive), op.k, Leaves(cfg, s, op), cfg.maxPerHandle, op.now,
                    cfg.horizon);
  }

  lemma NoneRemoved(drops: seq<Bytes>)
    ensures Elements(drops[..0]) == {}
  {
  }

  /** Runs with kills: as long as no kill doubles a pointer or overfills a queue, everything stays coherent. */
  lemma {:induction false} RunsAreCoherent(
    u: set<Bytes>, cfg: Config, hold: Disk, order: seq<Bytes>, now: nat, states: seq<Relay>, ops: seq<Op>, i: nat)
    requires NoCollision(u) && GoodHold(u, OpenFiles(hold.fenv, now, cfg.horizon), cfg.maxPerHandle)
    requires IsRun(u, cfg, states, ops) && Reopened(cfg, hold, order, now, states[0]) && i <= |ops|
    requires forall j :: 0 <= j < i && WellFormed(cfg.limits, states[j].regs.table) ==>
                           !Doubles(cfg, states[j], ops[j]) && !Overfills(cfg, states[j], ops[j])
    ensures Coherent(u, states[i].queues, states[i].disk.fenv) && WithinCap(states[i].queues, cfg.maxPerHandle)
  {
    hide NoCollision, GoodHold, Reopened, Coherent, WithinCap, Within, Next, WellFormed, Doubles, Overfills;
    if i == 0 {
      OpenedCoherent(u, cfg, hold, order, now, states[0]);
    } else {
      RunsAreCoherent(u, cfg, hold, order, now, states, ops, i - 1);
      RunKeepsShape(u, cfg, states, ops, i - 1);
      assert Moves(u, cfg, states[i - 1], ops[i - 1], states[i]);
      NextKeepsCoherentExactly(u, cfg, states[i - 1], ops[i - 1], states[i]);
    }
  }

  // --- A run that doubles a pointer ---

  /**
   * A pointer is put; a refresh in another second is killed between its rename and its first removal; the
   * hold is opened again in time: the queue then has the pointer twice.
   */
  lemma KilledRefreshDoubles(u: set<Bytes>, cfg: Config, s: Relay, first: Op, s1: Relay, second: Op, s2: Relay,
                             h: Bytes, p: Pointer)
    requires NoCollision(u) && WellFormed(cfg.limits, s.regs.table) && Within(u, cfg, s, first)
             && Next(cfg, s, first, s1)
    requires Coherent(u, s.queues, s.disk.fenv) && WithinCap(s.queues, cfg.maxPerHandle) && QueueOf(s.queues, h) == []
    requires first.DoFput? && PutOf(cfg, s, first) == Some(Admitted(h, p))
    requires cfg.maxPerHandle >= 1 && first.put.reap < Deadline(p)
    requires WellFormed(cfg.limits, s1.regs.table) && Within(u, cfg, s1, second) && Next(cfg, s1, second, s2)
    requires second.CrashFput? && second.k == 2 && second.tries == [] && PutOf(cfg, s1, second) == Some(Admitted(h, p))
    requires second.put.receive != first.put.receive && !Outside(p, second.now, cfg.horizon)
    ensures !DistinctPointers(QueueOf(s2.queues, h))
  {
    hide NoCollision, WellFormed, Within, Admit, Coherent, WithinCap, Next, Outside, PutOf, Doubled, QueueBefore,
         Superseded, NewEntry, KilledBy, IsHandle, Reopened;
    var a := Admitted(h, p);
    var tm, tm' := first.put, second.put;
    NextKeepsCoherent(u, cfg, s, first, s1);
    KilledByOp(u, cfg, s1, second, s2);
    FirstEntry(u, cfg, s, first, s1, h, p);
    DifferentNamesAt(u, cfg, s, first, s1, second, h, p);
    RefreshSupersedes(s1, a, tm, tm');
    PlainKill(u, cfg, s1, second, s2);
    var found: Disk :| found.fenv == Leaves(cfg, s1, second) && Reopened(cfg, found, second.order, second.now, s2);
    PutDistinctExactly(u, cfg, s1, a, tm', second.k, found, second.order, second.now, s2, h);
  }

  lemma RefreshSupersedes(s: Relay, a: Admitted, tm: PutTimes, tm': PutTimes)
    requires IsHandle(a.handle) && QueueOf(s.queues, a.handle) == [NewEntry(a, tm.receive)]
    requires NewEntry(a, tm.receive).cid != NewEntry(a, tm'.receive).cid
    ensures Superseded(QueueBefore(s, a), NewEntry(a, tm'.receive)) != []
  {
    hide RawOf, Cid;
  }

  lemma FirstEntry(u: set<Bytes>, cfg: Config, s: Relay, op: Op, s': Relay, h: Bytes, p: Pointer)
    requires WellFormed(cfg.limits, s.regs.table) && Within(u, cfg, s, op) && Next(cfg, s, op, s')
    requires op.DoFput? && PutOf(cfg, s, op) == Some(Admitted(h, p)) && QueueOf(s.queues, h) == [] && IsHandle(h)
    requires cfg.maxPerHandle >= 1 && op.put.reap < Deadline(p)
    ensures QueueOf(s'.queues, h) == [NewEntry(Admitted(h, p), op.put.receive)]
  {
    hide WellFormed, Within, Admit, ApplyAll, PutSteps, RawOf, Cid, IsHandle, Deadline;
    var e := NewEntry(Admitted(h, p), op.put.receive);
    assert Merge([], e) == [e] && Excess([], e, cfg.maxPerHandle) == 0 && [e][0..] == [e];
    assert [e][1..] == [] && Reap([e], op.put.reap) == [e] + Reap([], op.put.reap);
  }

  /** Two envelopes of one pointer with different receive times have different names. */
  lemma DifferentNamesAt(u: set<Bytes>, cfg: Config, s: Relay, first: Op, s1: Relay, second: Op, h: Bytes, p: Pointer)
    requires NoCollision(u) && WellFormed(cfg.limits, s.regs.table) && Within(u, cfg, s, first)
    requires WellFormed(cfg.limits, s1.regs.table) && Within(u, cfg, s1, second) && IsHandle(h)
    requires first.DoFput? && PutOf(cfg, s, first) == Some(Admitted(h, p))
    requires second.CrashFput? && PutOf(cfg, s1, second) == Some(Admitted(h, p))
    requires second.put.receive != first.put.receive
    ensures NewEntry(Admitted(h, p), first.put.receive).cid != NewEntry(Admitted(h, p), second.put.receive).cid
  {
    hide WellFormed, Within, Admit, Marshal, HexDecode, HexEncode, PutOf, Storable, IsHandle, Parse, HandleOf;
    PutIsStorable(u, cfg, s, first);
    PutIsStorable(u, cfg, s1, second);
    RawsDiffer(u, Admitted(h, p), first.put, second.put);
  }

  lemma RawsDiffer(u: set<Bytes>, a: Admitted, tm: PutTimes, tm': PutTimes)
    requires NoCollision(u) && Storable(u, a, tm) && Storable(u, a, tm') && tm.receive != tm'.receive
    ensures NewEntry(a, tm.receive).cid != NewEntry(a, tm'.receive).cid
  {
    hide RawOf, Parse, HandleOf, HexEncode;
    NewRaw(a, tm.receive);
    NewRaw(a, tm'.receive);
    var x, y := RawOf(a, tm.receive), RawOf(a, tm'.receive);
    if Cid(x) == Cid(y) {
      HexEncodeInjective(Sha256(x), Sha256(y));
    }
  }
}
