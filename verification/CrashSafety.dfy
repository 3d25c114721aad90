/** Nothing acknowledged is lost: kills between any two file operations, and any number of restarts. */
module CrashSafety {
  import opened Basics
  import opened Envelope
  import opened Registry
  import opened Queue
  import opened QueueFacts
  import opened Hold
  import opened Restart
  import opened Relay
  import opened Coherence
  import opened CoherenceSteps
  import opened Runs

  /** Pointer `p` of handle `h` has a file on disk. */
  ghost predicate Filed(files: Files, h: Bytes, p: Pointer) {
    exists c :: c in files && Stores(files[c], h, p)
  }

  /** The entries that an fput removes with their files: those over the cap, then those that have burned. */
  function Leavers(q: Fifo, e: Queued, cap: nat, now: nat): Fifo {
    var m, n := Merge(q, e), Excess(q, e, cap);
    m[..n] + Dead(m[n..], now)
  }

  /** Those of them that the first `j` removals reach: a superseded file goes before them. */
  function Reached(q: Fifo, e: Queued, cap: nat, now: nat, j: nat): Fifo {
    var all, first := Leavers(q, e, cap, now), |Superseded(q, e)|;
    all[..Min(if j <= first then 0 else j - first, |all|)]
  }

  predicate Outside(p: Pointer, now: nat, horizon: nat) {
    !(now < Deadline(p) <= now + horizon)
  }

  function TriesOf(op: Op): seq<Try> {
    if IsCrash(op) then op.tries else []
  }

  /** The killed `open` got as far as removing this file. */
  ghost predicate TryRemoves(horizon: nat, files: Files, t: Try, c: Bytes) {
    IsListing(t.order, files)
    && c in Elements(Unkept(t.order, files, t.now, horizon)[..Min(t.k, |Unkept(t.order, files, t.now, horizon)|)])
  }

  ghost predicate TriesRemove(horizon: nat, disk: Disk, tries: seq<Try>, c: Bytes) {
    if tries == [] then false else
    var before := Tried(horizon, disk, tries[..|tries| - 1]);
    TriesRemove(horizon, disk, tries[..|tries| - 1], c)
    || (before.Some? && TryRemoves(horizon, before.value.fenv, tries[|tries| - 1], c))
  }

  /** The killed opens got as far as removing every file that the pointer had. */
  ghost predicate OpensRemove(horizon: nat, disk: Disk, tries: seq<Try>, h: Bytes, p: Pointer) {
    Filed(disk.fenv, h, p)
    && forall c :: c in disk.fenv && Stores(disk.fenv[c], h, p) ==> TriesRemove(horizon, disk, tries, c)
  }

  /** The operation writes a file for the pointer: a killed fput must have reached its rename. */
  predicate Renames(cfg: Config, s: Relay, op: Op, h: Bytes, p: Pointer) {
    PutOf(cfg, s, op) == Some(Admitted(h, p)) && (op.CrashFput? ==> op.k >= 2)
  }

  /** The removals that the fput carries out: all, or as many as the kill lets it. */
  function PutRemovals(cfg: Config, s: Relay, op: Op, a: Admitted): nat
    requires (op.DoFput? || op.CrashFput?) && IsHandle(a.handle)
  {
    if op.DoFput? then |PutStep(cfg, s.queues, a, op.put).drops| else if op.k < 2 then 0 else op.k - 2
  }

  function PopRemovals(s: Relay, op: Op, d: Drain): (n: nat)
    requires op.DoFpop? || op.CrashFpop?
    ensures n <= |QueueOf(s.queues, d.handle)|
  {
    var n := DrainCount(s.queues, d, op.pop.drain);
    if op.DoFpop? then n else Min(op.k, n)
  }

  predicate PutRemoves(cfg: Config, s: Relay, op: Op, h: Bytes, p: Pointer) {
    match PutOf(cfg, s, op)
    case None => false
    case Some(a) =>
      h == a.handle && IsHandle(h)
      && p in Pointers(Reached(QueueOf(s.queues, h), NewEntry(a, op.put.receive), cfg.maxPerHandle, op.put.reap,
                               PutRemovals(cfg, s, op, a)))
  }

  predicate PopRemoves(cfg: Config, s: Relay, op: Op, h: Bytes, p: Pointer) {
    match DrainOf(cfg, s, op)
    case None => false
    case Some(d) => h == d.handle && p in Pointers(QueueOf(s.queues, h)[..PopRemovals(s, op, d)])
  }

  /** The hold as the operation leaves it to the next `open`. */
  function DiskAfter(cfg: Config, s: Relay, op: Op): Disk {
    if op.CrashFput? && PutOf(cfg, s, op).Some? && IsHandle(PutOf(cfg, s, op).value.handle) then
      var steps := PutSteps(cfg, s.queues, PutOf(cfg, s, op).value, op.put);
      ApplyAll(s.disk, steps[..Min(op.k, |steps|)])
    else if op.CrashFpop? && DrainOf(cfg, s, op).Some? then
      var steps := PopSteps(s.queues, DrainOf(cfg, s, op).value, op.pop.drain);
      ApplyAll(s.disk, steps[..Min(op.k, |steps|)])
    else s.disk
  }

  ghost predicate RestartRemoves(cfg: Config, s: Relay, op: Op, h: Bytes, p: Pointer) {
    (op.DoRestart? || IsCrash(op))
    && (Outside(p, op.now, cfg.horizon) || OpensRemove(cfg.horizon, DiskAfter(cfg, s, op), TriesOf(op), h, p))
  }

  /**
   * The operation removes the pointer: an fput that evicts or burns it, a drain that takes it, both only as far as
   * a kill lets them; or a restart whose window it is outside of, or one of the killed opens before it.
   */
  ghost predicate Removes(cfg: Config, s: Relay, op: Op, h: Bytes, p: Pointer) {
    PutRemoves(cfg, s, op, h, p) || PopRemoves(cfg, s, op, h, p) || RestartRemoves(cfg, s, op, h, p)
  }

  /** An entry of a rebuilt queue: its file, whose deadline is in the window, and that file's receive time. */
  lemma KeptEntry(files: Files, e: Queued, h: Bytes, now: nat, horizon: nat)
    requires IsEntry(e, files, h, now, horizon)
    ensures e.cid in files && Kept(files[e.cid], now, horizon) && Stores(files[e.cid], h, e.pointer)
    ensures !Outside(e.pointer, now, horizon)
    ensures Parse(files[e.cid]).Ok? && e.receivedAt == Parse(files[e.cid]).value.receivedAt
  {
    hide Parse, HandleOf, Deadline;
  }

  lemma EntryKept(files: Files, c: Bytes, h: Bytes, p: Pointer, now: nat, horizon: nat) returns (e: Queued)
    requires c in files && Stores(files[c], h, p) && !Outside(p, now, horizon)
    ensures IsEntry(e, files, h, now, horizon) && e.pointer == p && e.cid == c
  {
    hide Parse, HandleOf, Deadline;
    e := EntryOf(c, files[c]);
  }

  // --- fput ---

  lemma MergeFaithful(u: set<Bytes>, q: Fifo, a: Admitted, tm: PutTimes)
    requires FaithfulQueue(u, a.handle, q) && Storable(u, a, tm)
    ensures FaithfulQueue(u, a.handle, Merge(q, NewEntry(a, tm.receive)))
  {
    hide Names, RawOf, Find;
    NewNames(u, a, tm);
    var m := Merge(q, NewEntry(a, tm.receive));
    forall e | e in m ensures Names(u, e.cid, a.handle, e.pointer) && e.deadline == Deadline(e.pointer) {
      var k :| 0 <= k < |m| && m[k] == e;
      assert k < |q| ==> q[k] in q;
    }
  }

  /** The file operations of fput after its rename, in terms of entries. */
  lemma DropsAre(q: Fifo, e: Queued, cap: nat, now: nat)
    ensures Put(q, e, cap, now).drops == Superseded(q, e) + Cids(Leavers(q, e, cap, now))
  {
    hide Merge, Excess, Dead, Superseded, Cids;
    var m, n := Merge(q, e), Excess(q, e, cap);
    PointersSplit(m[..n], Dead(m[n..], now));
    Grouped(Superseded(q, e), Cids(m[..n]), Cids(Dead(m[n..], now)));
  }

  lemma Grouped(a: seq<Bytes>, b: seq<Bytes>, c: seq<Bytes>)
    ensures a + b + c == a + (b + c)
  {
  }

  lemma LeaverIsMerged(q: Fifo, e: Queued, cap: nat, now: nat, i: nat)
    requires i < |Leavers(q, e, cap, now)|
    ensures Leavers(q, e, cap, now)[i] in Merge(q, e)
  {
    hide Merge, Excess, Dead;
    var m, n := Merge(q, e), Excess(q, e, cap);
    if i < n {
      assert Leavers(q, e, cap, now)[i] == m[i];
    } else {
      var x := Dead(m[n..], now)[i - n];
      assert x in m[n..];
    }
  }

  /** The name at a position of the removals: a superseded one, or that of an entry reached just then. */
  lemma DropAt(q: Fifo, e: Queued, cap: nat, now: nat, i: nat, j: nat)
    requires i < j <= |Put(q, e, cap, now).drops|
    ensures var first := |Superseded(q, e)|;
            if i < first then Put(q, e, cap, now).drops[i] == Superseded(q, e)[i]
            else i - first < |Reached(q, e, cap, now, j)|
                 && Put(q, e, cap, now).drops[i] == Reached(q, e, cap, now, j)[i - first].cid
                 && Reached(q, e, cap, now, j)[i - first] in Merge(q, e)
  {
    DropsAre(q, e, cap, now);
    hide Put, Merge, Superseded, Leavers;
    if i >= |Superseded(q, e)| {
      LeaverIsMerged(q, e, cap, now, i - |Superseded(q, e)|);
    }
  }

  /** Why the first `j` removals of fput drop the file of a pointer. */
  lemma DropReason(u: set<Bytes>, q: Fifo, a: Admitted, tm: PutTimes, cap: nat, j: nat, c: Bytes, p: Pointer)
    requires NoCollision(u) && FaithfulQueue(u, a.handle, q) && Storable(u, a, tm)
    requires j <= |Put(q, NewEntry(a, tm.receive), cap, tm.reap).drops|
    requires Names(u, c, a.handle, p) && c in Put(q, NewEntry(a, tm.receive), cap, tm.reap).drops[..j]
    ensures var e := NewEntry(a, tm.receive);
            p in Pointers(Reached(q, e, cap, tm.reap, j)) || (p == a.pointer && c != e.cid)
  {
    hide Names, NoCollision, RawOf, Merge, Find, Put, Reached;
    var e := NewEntry(a, tm.receive);
    MergeFaithful(u, q, a, tm);
    var drops := Put(q, e, cap, tm.reap).drops;
    var i :| 0 <= i < j && drops[..j][i] == c;
    DropAt(q, e, cap, tm.reap, i, j);
    if i < |Superseded(q, e)| {
      var old' := q[Find(q, e.pointer)];
      assert old' in q;
      NamesUnique(u, c, a.handle, old'.pointer, a.handle, p);
    } else {
      var k := i - |Superseded(q, e)|;
      var x := Reached(q, e, cap, tm.reap, j)[k];
      NamesUnique(u, c, a.handle, x.pointer, a.handle, p);
      assert Pointers(Reached(q, e, cap, tm.reap, j))[k] == p;
    }
  }

  /** After the new file is there, the first `j` removals keep every pointer that they do not reach. */
  lemma PutSurvives(u: set<Bytes>, cfg: Config, s: Relay, a: Admitted, tm: PutTimes, j: nat, h: Bytes, p: Pointer)
    requires NoCollision(u) && NoOrphans(u, s.queues, s.disk.fenv) && Storable(u, a, tm)
    requires j <= |PutStep(cfg, s.queues, a, tm).drops|
    requires Filed(s.disk.fenv, h, p) || (h == a.handle && p == a.pointer)
    requires !(h == a.handle && p in Pointers(Reached(QueueOf(s.queues, a.handle), NewEntry(a, tm.receive),
                                                      cfg.maxPerHandle, tm.reap, j)))
    ensures var raw := RawOf(a, tm.receive);
            Filed(s.disk.fenv[Cid(raw) := raw] - Elements(PutStep(cfg, s.queues, a, tm).drops[..j]), h, p)
  {
    hide Names, NoCollision, RawOf, Cid, Put, Reached, Pointers, Stores, FaithfulQueue;
    assert FaithfulQueue(u, a.handle, QueueOf(s.queues, a.handle)) by { NoOrphansParts(u, s.queues, s.disk.fenv); }
    var q, raw := QueueOf(s.queues, a.handle), RawOf(a, tm.receive);
    var stem, ds := Cid(raw), PutStep(cfg, s.queues, a, tm).drops[..j];
    var files' := s.disk.fenv[stem := raw] - Elements(ds);
    NewRaw(a, tm.receive);
    NewNames(u, a, tm);
    if h == a.handle && p == a.pointer {
      if stem in ds {
        DropReason(u, q, a, tm, cfg.maxPerHandle, j, stem, p);
        assert false;
      }
      assert stem in files' && Stores(files'[stem], h, p);
    } else {
      var c :| c in s.disk.fenv && Stores(s.disk.fenv[c], h, p);
      FileNames(u, s.queues, s.disk.fenv, c, h, p);
      if c in ds {
        DroppedAtHome(u, q, a, tm, cfg.maxPerHandle, c, h, p);
        DropReason(u, q, a, tm, cfg.maxPerHandle, j, c, p);
        assert false;
      }
      if c == stem {
        NamesUnique(u, c, h, p, a.handle, a.pointer);
        assert false;
      }
      assert c in files' && files'[c] == s.disk.fenv[c];
    }
  }

  lemma FileNames(u: set<Bytes>, queues: Index, files: Files, c: Bytes, h: Bytes, p: Pointer)
    requires NoOrphans(u, queues, files) && c in files && Stores(files[c], h, p)
    ensures Names(u, c, h, p)
  {
    hide Stores;
  }

  lemma DroppedAtHome(u: set<Bytes>, q: Fifo, a: Admitted, tm: PutTimes, cap: nat, c: Bytes, h: Bytes, p: Pointer)
    requires NoCollision(u) && FaithfulQueue(u, a.handle, q) && Storable(u, a, tm)
    requires Names(u, c, h, p) && c in Put(q, NewEntry(a, tm.receive), cap, tm.reap).drops
    ensures h == a.handle
  {
    hide NoCollision, Names, Put, FaithfulQueue, Storable;
    if h != a.handle {
      StorableDecodes(u, a, tm);
      DropsStayHome(u, q, a, tm, cap, h, Queued(p, c, 0, 0), c);
      assert false;
    }
  }

  // --- One operation ---

  lemma OpenedExactly(cfg: Config, disk: Disk, order: seq<Bytes>, now: nat, s: Relay, h: Bytes, p: Pointer)
    requires Reopened(cfg, disk, order, now, s)
    ensures Filed(s.disk.fenv, h, p) <==> Filed(disk.fenv, h, p) && !Outside(p, now, cfg.horizon)
  {
    hide IsRebuilt, IsListing, HandleOf, Parse, Deadline;
    if Filed(s.disk.fenv, h, p) {
      var c :| c in s.disk.fenv && Stores(s.disk.fenv[c], h, p);
      assert c in disk.fenv && disk.fenv[c] == s.disk.fenv[c];
    }
    if Filed(disk.fenv, h, p) && !Outside(p, now, cfg.horizon) {
      var c :| c in disk.fenv && Stores(disk.fenv[c], h, p);
      assert c in s.disk.fenv && s.disk.fenv[c] == disk.fenv[c];
    }
  }

  lemma TryLeaves(horizon: nat, disk: Disk, t: Try)
    requires TryOpen(horizon, disk, t).Some?
    ensures var files := TryOpen(horizon, disk, t).value.fenv;
            Part(files, disk.fenv)
            && forall c :: c in files <==> c in disk.fenv && !TryRemoves(horizon, disk.fenv, t, c)
  {
    hide Kept, ApplyAll, Unkept;
    var gone := Unkept(t.order, disk.fenv, t.now, horizon);
    assert OpenSteps(t.order, disk.fenv, t.now, horizon)[..t.k] == RemoveSteps(gone[..t.k]);
    RemovesApplied(disk, gone[..t.k]);
  }

  /** Killed opens leave exactly the files that none of them got as far as removing. */
  lemma {:induction false} TriesLeave(horizon: nat, disk: Disk, tries: seq<Try>)
    requires Tried(horizon, disk, tries).Some?
    ensures var files := Tried(horizon, disk, tries).value.fenv;
            Part(files, disk.fenv)
            && forall c :: c in files <==> c in disk.fenv && !TriesRemove(horizon, disk, tries, c)
  {
    hide TryOpen, TryRemoves;
    if tries != [] {
      var n := |tries| - 1;
      TriesLeave(horizon, disk, tries[..n]);
      TryLeaves(horizon, Tried(horizon, disk, tries[..n]).value, tries[n]);
    }
  }

  /** A file that killed opens got as far as removing is outside the window of one of them. */
  lemma OpensRemoveOutside(horizon: nat, disk: Disk, tries: seq<Try>, h: Bytes, p: Pointer)
    requires Tried(horizon, disk, tries).Some? && OpensRemove(horizon, disk, tries, h, p)
    ensures exists t :: t in tries && Outside(p, t.now, horizon)
  {
    hide Tried, TriesRemove, Parse, HandleOf, Deadline;
    TriesPrune(horizon, disk, tries);
    TriesLeave(horizon, disk, tries);
    var c :| c in disk.fenv && Stores(disk.fenv[c], h, p);
    var t :| t in tries && !Kept(disk.fenv[c], t.now, horizon);
    assert Outside(p, t.now, horizon);
  }

  /**
   * A restart through any killed opens keeps the pointer exactly when it is in the window and the killed opens left
   * one of its files.
   */
  lemma RestartedExactly(
    cfg: Config, disk: Disk, tries: seq<Try>, order: seq<Bytes>, now: nat, s: Relay, h: Bytes, p: Pointer)
    requires Restarted(cfg, disk, tries, order, now, s)
    ensures Filed(s.disk.fenv, h, p) <==>
            Filed(disk.fenv, h, p) && !Outside(p, now, cfg.horizon) && !OpensRemove(cfg.horizon, disk, tries, h, p)
  {
    hide Reopened, Stores, TriesRemove, Tried, Outside;
    RestartFinds(cfg, disk, tries, order, now, s);
    TriesLeave(cfg.horizon, disk, tries);
    var found := Found(cfg, disk, tries);
    OpenedExactly(cfg, found, order, now, s, h, p);
    FoundIs(cfg, disk, tries);
    if Filed(disk.fenv, h, p) && !OpensRemove(cfg.horizon, disk, tries, h, p) {
      var c :| c in disk.fenv && Stores(disk.fenv[c], h, p) && !TriesRemove(cfg.horizon, disk, tries, c);
      assert c in found.fenv;
    }
  }

  lemma NothingRemoved(horizon: nat, disk: Disk, h: Bytes, p: Pointer)
    ensures !OpensRemove(horizon, disk, [], h, p)
  {
    hide Stores;
  }

  lemma FoundIs(cfg: Config, disk: Disk, tries: seq<Try>)
    requires Tried(cfg.horizon, disk, tries).Some?
    ensures Found(cfg, disk, tries) == Tried(cfg.horizon, disk, tries).value
  {
    hide Tried;
  }

  /** What survives a complete or killed fput. */
  lemma PutDiskSurvives(u: set<Bytes>, cfg: Config, s: Relay, a: Admitted, tm: PutTimes, k: nat, h: Bytes, p: Pointer)
    requires NoCollision(u) && NoOrphans(u, s.queues, s.disk.fenv) && Storable(u, a, tm)
    requires k <= |PutSteps(cfg, s.queues, a, tm)|
    requires Filed(s.disk.fenv, h, p) || (h == a.handle && p == a.pointer && k >= 2)
    requires !PutReaches(cfg, s, a, tm, k, h, p)
    ensures Filed(ApplyAll(s.disk, PutSteps(cfg, s.queues, a, tm)[..k]).fenv, h, p)
  {
    hide NoCollision, NoOrphans, ApplyAll, PutSteps, Filed, Reached, Storable, PutStep, Pointers;
    StorableDecodes(u, a, tm);
    KilledPut(cfg, s, a, tm, k);
    if k >= 2 {
      PutSurvives(u, cfg, s, a, tm, k - 2, h, p);
    }
  }

  /** The first `k` file operations of an fput remove the pointer. */
  predicate PutReaches(cfg: Config, s: Relay, a: Admitted, tm: PutTimes, k: nat, h: Bytes, p: Pointer)
    requires IsHandle(a.handle)
  {
    k >= 2 && h == a.handle
    && p in Pointers(Reached(QueueOf(s.queues, h), NewEntry(a, tm.receive), cfg.maxPerHandle, tm.reap, k - 2))
  }

  /** What survives a complete or killed fpop. */
  lemma PopDiskSurvives(u: set<Bytes>, s: Relay, d: Drain, now: nat, k: nat, h: Bytes, p: Pointer)
    requires NoCollision(u) && NoOrphans(u, s.queues, s.disk.fenv) && Filed(s.disk.fenv, h, p)
    requires k <= |PopSteps(s.queues, d, now)|
    requires k <= DrainCount(s.queues, d, now) && !(h == d.handle && p in Pointers(QueueOf(s.queues, h)[..k]))
    ensures Filed(ApplyAll(s.disk, PopSteps(s.queues, d, now)[..k]).fenv, h, p)
  {
    hide NoCollision, ApplyAll, PopSteps, Taken, Stores, Names, Addressed, Indexed, FaithfulQueue;
    KilledPop(s, d, now, k);
    var q := QueueOf(s.queues, d.handle);
    var c :| c in s.disk.fenv && Stores(s.disk.fenv[c], h, p);
    FileNames(u, s.queues, s.disk.fenv, c, h, p);
    if c in Cids(q[..k]) {
      var i := CidAt(q[..k], c);
      EntryNames(u, s.queues, d.handle, q[i]);
      assert Pointers(q[..k])[i] == q[i].pointer;
      NamesUnique(u, c, h, p, d.handle, q[i].pointer);
      assert false;
    }
    assert c in s.disk.fenv - Elements(Cids(q[..k]));
  }

  /** How many of its file operations an operation carries out. */
  function Carried(cfg: Config, s: Relay, op: Op): nat {
    if op.CrashFput? || op.CrashFpop? then op.k
    else if op.DoFput? && PutOf(cfg, s, op).Some? && IsHandle(PutOf(cfg, s, op).value.handle) then
      |PutSteps(cfg, s.queues, PutOf(cfg, s, op).value, op.put)|
    else if op.DoFpop? && DrainOf(cfg, s, op).Some? then
      |PopSteps(s.queues, DrainOf(cfg, s, op).value, op.pop.drain)|
    else 0
  }

  /** What an fput of any extent leaves, and which pointers it removes. */
  lemma PutCarried(u: set<Bytes>, cfg: Config, s: Relay, op: Op, s': Relay, h: Bytes, p: Pointer)
    requires WellFormed(cfg.limits, s.regs.table) && Within(u, cfg, s, op) && Next(cfg, s, op, s')
    requires PutOf(cfg, s, op).Some?
    ensures op.DoFput? || op.CrashFput?
    ensures var a, k := PutOf(cfg, s, op).value, Carried(cfg, s, op);
            && Storable(u, a, op.put) && IsHandle(a.handle) && k <= |PutSteps(cfg, s.queues, a, op.put)|
            && (PutReaches(cfg, s, a, op.put, k, h, p) <==> PutRemoves(cfg, s, op, h, p))
            && (Renames(cfg, s, op, h, p) <==> h == a.handle && p == a.pointer && k >= 2)
            && var disk := ApplyAll(s.disk, PutSteps(cfg, s.queues, a, op.put)[..k]);
               if op.DoFput? then s'.disk == disk
               else DiskAfter(cfg, s, op) == disk && Restarted(cfg, disk, op.tries, op.order, op.now, s')
  {
    hide WellFormed, Within, Admit, Restarted, ApplyAll, Reached, Pointers, Storable, IsHandle, RawOf, PutStep,
         NewEntry;
    PutIsStorable(u, cfg, s, op);
    var a := PutOf(cfg, s, op).value;
    StorableDecodes(u, a, op.put);
    PersistFirst(cfg, s, a, op.put);
    ReachedNone(QueueOf(s.queues, a.handle), NewEntry(a, op.put.receive), cfg.maxPerHandle, op.put.reap);
    var steps := PutSteps(cfg, s.queues, a, op.put);
    assert steps[..|steps|] == steps;
  }

  lemma ReachedNone(q: Fifo, e: Queued, cap: nat, now: nat)
    ensures Pointers(Reached(q, e, cap, now, 0)) == []
  {
    hide Leavers;
  }

  /** The same for an fpop. */
  lemma PopCarried(cfg: Config, s: Relay, op: Op, s': Relay, h: Bytes, p: Pointer)
    requires WellFormed(cfg.limits, s.regs.table) && Next(cfg, s, op, s') && DrainOf(cfg, s, op).Some?
    ensures op.DoFpop? || op.CrashFpop?
    ensures var d, k := DrainOf(cfg, s, op).value, Carried(cfg, s, op);
            && k <= |PopSteps(s.queues, d, op.pop.drain)| && k <= DrainCount(s.queues, d, op.pop.drain)
            && (PopRemoves(cfg, s, op, h, p) <==> h == d.handle && p in Pointers(QueueOf(s.queues, h)[..k]))
            && var disk := ApplyAll(s.disk, PopSteps(s.queues, d, op.pop.drain)[..k]);
               if op.DoFpop? then s'.disk == disk
               else DiskAfter(cfg, s, op) == disk && Restarted(cfg, disk, op.tries, op.order, op.now, s')
  {
    hide WellFormed, Authorize, Restarted, ApplyAll, Pointers, DrainCount;
    var d := DrainOf(cfg, s, op).value;
    DrainedDisk(s, d, op.pop.drain);
    var steps := PopSteps(s.queues, d, op.pop.drain);
    assert steps[..|steps|] == steps;
  }

  /** Every other operation leaves the hold alone, or to `open`. */
  lemma NothingCarried(cfg: Config, s: Relay, op: Op, s': Relay)
    requires WellFormed(cfg.limits, s.regs.table) && Next(cfg, s, op, s')
    requires PutOf(cfg, s, op).None? && DrainOf(cfg, s, op).None?
    ensures DiskAfter(cfg, s, op) == s.disk
    ensures if op.DoRestart? || IsCrash(op) then Restarted(cfg, s.disk, TriesOf(op), op.order, op.now, s')
            else s'.disk == s.disk
  {
    hide WellFormed, Admit, Authorize, Reopened, CheckFreg, GatedFreg;
    if op.DoRestart? {
      NoTries(cfg, s.disk, op.order, op.now, s');
    } else if op.CrashFput? {
      NothingApplied(s.disk, PutLog(cfg, s, op.req, op.ip, op.put)[..op.k]);
    } else if op.CrashFpop? {
      NothingApplied(s.disk, PopLog(cfg, s, op.req, op.ip, op.pop)[..op.k]);
    }
  }

  /** Any operation, killed or not, keeps the file of every pointer that it does not remove. */
  lemma NextSurvives(u: set<Bytes>, cfg: Config, s: Relay, op: Op, s': Relay, h: Bytes, p: Pointer)
    requires NoCollision(u) && WellFormed(cfg.limits, s.regs.table) && Within(u, cfg, s, op) && Next(cfg, s, op, s')
    requires NoOrphans(u, s.queues, s.disk.fenv)
    requires !Removes(cfg, s, op, h, p)
    requires Filed(s.disk.fenv, h, p) || Renames(cfg, s, op, h, p)
    ensures Filed(s'.disk.fenv, h, p)
  {
    hide NoCollision, WellFormed, NoOrphans, Filed, PutOf, DrainOf, PutSteps, PopSteps, ApplyAll, Within, Restarted,
         OpensRemove, Outside, Pointers, DrainCount, Storable, IsHandle, Next, PutRemoves, PopRemoves, DiskAfter,
         PutReaches, Carried;
    if PutOf(cfg, s, op).Some? {
      PutCarried(u, cfg, s, op, s', h, p);
      PutDiskSurvives(u, cfg, s, PutOf(cfg, s, op).value, op.put, Carried(cfg, s, op), h, p);
    } else if DrainOf(cfg, s, op).Some? {
      PopCarried(cfg, s, op, s', h, p);
      PopDiskSurvives(u, s, DrainOf(cfg, s, op).value, op.pop.drain, Carried(cfg, s, op), h, p);
    } else {
      NothingCarried(cfg, s, op, s');
    }
    if op.DoRestart? || IsCrash(op) {
      RestartedExactly(cfg, DiskAfter(cfg, s, op), TriesOf(op), op.order, op.now, s', h, p);
    }
  }

  lemma PersistFirst(cfg: Config, s: Relay, a: Admitted, tm: PutTimes)
    requires IsHandle(a.handle)
    ensures |PutSteps(cfg, s.queues, a, tm)| >= 2
  {
    hide PutStep, RawOf;
  }

  lemma DrainedDisk(s: Relay, d: Drain, now: nat)
    ensures Drained(s, d, now).disk == ApplyAll(s.disk, PopSteps(s.queues, d, now))
  {
    hide Taken;
    if d.handle !in s.queues {
      assert PopSteps(s.queues, d, now) == [];
    }
  }

  // --- Whole runs ---

  /** A pointer with a file is in the queue of its handle. */
  lemma FiledIsQueued(u: set<Bytes>, queues: Index, files: Files, h: Bytes, p: Pointer)
    requires NoCollision(u) && NoOrphans(u, queues, files) && Filed(files, h, p)
    ensures p in Pointers(QueueOf(queues, h))
  {
    hide NoCollision, NoOrphans, Stores;
    var c :| c in files && Stores(files[c], h, p);
    var i := EntryOfFile(u, queues, files, c, h, p);
    assert Pointers(QueueOf(queues, h))[i] == p;
  }

  /** With a file behind every entry of the queue, a pointer is in the queue exactly when it has a file. */
  lemma QueuedIsFiled(u: set<Bytes>, queues: Index, files: Files, h: Bytes, p: Pointer)
    requires NoCollision(u) && NoOrphans(u, queues, files)
    requires forall e :: e in QueueOf(queues, h) && e.pointer == p ==> e.cid in files
    ensures p in Pointers(QueueOf(queues, h)) <==> Filed(files, h, p)
  {
    hide NoCollision, NoOrphans, Stores;
    var q := QueueOf(queues, h);
    if Filed(files, h, p) {
      FiledIsQueued(u, queues, files, h, p);
    }
    if p in Pointers(q) {
      var i :| 0 <= i < |q| && Pointers(q)[i] == p;
      assert q[i] in q;
      FileOfEntry(u, queues, files, h, q[i]);
    }
  }

  /**
   * Crash safety: whatever is killed between any two file operations, and however often the relay is
   * reopened, a pointer whose file fput number `i` wrote, acknowledged or killed after its rename, is in
   * the queue of its handle, on disk as well as in memory, as long as no operation since removed it. A
   * killed operation removes no more than it had got to.
   */
  lemma {:induction false} AcknowledgedSurvives(
    u: set<Bytes>, cfg: Config, hold: Disk, order: seq<Bytes>, now: nat, states: seq<Relay>, ops: seq<Op>,
    i: nat, j: nat, h: Bytes, p: Pointer)
    requires NoCollision(u) && Addressed(u, OpenFiles(hold.fenv, now, cfg.horizon))
    requires IsRun(u, cfg, states, ops) && Reopened(cfg, hold, order, now, states[0])
    requires i < j <= |ops| && Renames(cfg, states[i], ops[i], h, p)
    requires forall k :: i <= k < j ==> !Removes(cfg, states[k], ops[k], h, p)
    ensures Filed(states[j].disk.fenv, h, p) && p in Pointers(QueueOf(states[j].queues, h))
  {
    hide NoCollision, Addressed, Reopened, NoOrphans, Removes, Renames, Filed, Within, Next, WellFormed, Pointers;
    if i < j - 1 {
      AcknowledgedSurvives(u, cfg, hold, order, now, states, ops, i, j - 1, h, p);
    }
    RunsHaveNoOrphans(u, cfg, hold, order, now, states, ops, j - 1);
    RunsHaveNoOrphans(u, cfg, hold, order, now, states, ops, j);
    RunKeepsShape(u, cfg, states, ops, j - 1);
    assert Moves(u, cfg, states[j - 1], ops[j - 1], states[j]);
    NextSurvives(u, cfg, states[j - 1], ops[j - 1], states[j], h, p);
    FiledIsQueued(u, states[j].queues, states[j].disk.fenv, h, p);
  }
}
