/** Whole runs of the relay: verbs, restarts, and kills between any two file operations. */
module Runs {
  import opened Basics
  import opened Text
  import opened Json
  import opened Envelope
  import opened Registry
  import opened Queue
  import opened QueueFacts
  import opened Hold
  import opened Restart
  import opened Relay
  import opened Coherence
  import opened CoherenceSteps

  /** An `open` that is killed after its first `k` removals. */
  datatype Try = Try(order: seq<Bytes>, now: nat, k: nat)

  /**
   * A crash kills the verb, or the node at rest, after its first `k` file operations. The hold is then
   * opened again: any number of tries are killed themselves before one comes to its end.
   */
  datatype Op =
    | DoFreg(req: Json, now: nat)
    | DoFput(req: Json, ip: Bytes, put: PutTimes)
    | DoFpop(req: Json, ip: Bytes, pop: PopTimes)
    | DoRestart(order: seq<Bytes>, now: nat)
    | CrashRestart(tries: seq<Try>, order: seq<Bytes>, now: nat)
    | CrashFput(req: Json, ip: Bytes, put: PutTimes, k: nat, tries: seq<Try>, order: seq<Bytes>, now: nat)
    | CrashFpop(req: Json, ip: Bytes, pop: PopTimes, k: nat, tries: seq<Try>, order: seq<Bytes>, now: nat)

  /** The hold was `disk` when the relay was opened. */
  ghost predicate Reopened(cfg: Config, disk: Disk, order: seq<Bytes>, now: nat, s: Relay) {
    IsListing(order, disk.fenv) && IsOpened(cfg, disk, order, now, s)
  }

  /** What killed tries leave of the hold; None when a try is impossible. */
  ghost function Tried(horizon: nat, disk: Disk, tries: seq<Try>): Option<Disk> {
    if tries == [] then Some(disk) else
    match Tried(horizon, disk, tries[..|tries| - 1])
    case None => None
    case Some(mid) => TryOpen(horizon, mid, tries[|tries| - 1])
  }

  ghost function TryOpen(horizon: nat, disk: Disk, t: Try): Option<Disk> {
    if !IsListing(t.order, disk.fenv) then None else
    var steps := OpenSteps(t.order, disk.fenv, t.now, horizon);
    if t.k <= |steps| then Some(ApplyAll(disk, steps[..t.k])) else None
  }

  /** The hold was `disk` after a kill, then the tries failed, then the relay was opened. */
  ghost predicate Restarted(cfg: Config, disk: Disk, tries: seq<Try>, order: seq<Bytes>, now: nat, s: Relay) {
    Tried(cfg.horizon, disk, tries).Some? && Reopened(cfg, Tried(cfg.horizon, disk, tries).value, order, now, s)
  }

  ghost predicate Next(cfg: Config, s: Relay, op: Op, s': Relay)
    requires WellFormed(cfg.limits, s.regs.table)
  {
    match op
    case DoFreg(req, now) => s' == RunFreg(cfg, s, req, now).0
    case DoFput(req, ip, tm) => s' == RunFput(cfg, s, req, ip, tm).0
    case DoFpop(req, ip, tm) => s' == RunFpop(cfg, s, req, ip, tm).0
    case DoRestart(order, now) => Reopened(cfg, s.disk, order, now, s')
    case CrashRestart(tries, order, now) => Restarted(cfg, s.disk, tries, order, now, s')
    case CrashFput(req, ip, tm, k, tries, order, now) =>
      var steps := PutLog(cfg, s, req, ip, tm);
      k <= |steps| && Restarted(cfg, ApplyAll(s.disk, steps[..k]), tries, order, now, s')
    case CrashFpop(req, ip, tm, k, tries, order, now) =>
      var steps := PopLog(cfg, s, req, ip, tm);
      k <= |steps| && Restarted(cfg, ApplyAll(s.disk, steps[..k]), tries, order, now, s')
  }

  predicate IsCrash(op: Op) {
    op.CrashRestart? || op.CrashFput? || op.CrashFpop?
  }

  // --- Killed tries ---

  /** A killed `open` removes some of the files it would not keep, and changes nothing else. */
  lemma TryPrunes(horizon: nat, disk: Disk, t: Try)
    requires TryOpen(horizon, disk, t).Some?
    ensures var files := TryOpen(horizon, disk, t).value.fenv;
            Part(files, disk.fenv) && forall c :: c in disk.fenv && c !in files ==> !Kept(disk.fenv[c], t.now, horizon)
  {
    hide Kept, ApplyAll, Unkept;
    var gone := Unkept(t.order, disk.fenv, t.now, horizon);
    assert OpenSteps(t.order, disk.fenv, t.now, horizon)[..t.k] == RemoveSteps(gone[..t.k]);
    RemovesApplied(disk, gone[..t.k]);
    forall c | c in gone[..t.k] ensures c in disk.fenv && !Kept(disk.fenv[c], t.now, horizon) {
      assert c in gone;
      UnkeptMembers(t.order, disk.fenv, t.now, horizon, c);
    }
  }

  /** Any number of killed tries: a file that is gone was not kept at the time of one of them. */
  lemma {:induction false} TriesPrune(horizon: nat, disk: Disk, tries: seq<Try>)
    requires Tried(horizon, disk, tries).Some?
    ensures var files := Tried(horizon, disk, tries).value.fenv;
            Part(files, disk.fenv)
            && forall c :: c in disk.fenv && c !in files ==>
                 exists t :: t in tries && !Kept(disk.fenv[c], t.now, horizon)
  {
    hide Kept, TryOpen;
    if tries != [] {
      var n := |tries| - 1;
      TriesPrune(horizon, disk, tries[..n]);
      TryPrunes(horizon, Tried(horizon, disk, tries[..n]).value, tries[n]);
      assert tries[n] in tries;
    }
  }

  /** What a restart finds on disk after its killed tries. */
  ghost function Found(cfg: Config, disk: Disk, tries: seq<Try>): (found: Disk)
    requires Tried(cfg.horizon, disk, tries).Some?
    ensures Part(found.fenv, disk.fenv)
  {
    TriesPrune(cfg.horizon, disk, tries);
    Tried(cfg.horizon, disk, tries).value
  }

  lemma NoTries(cfg: Config, disk: Disk, order: seq<Bytes>, now: nat, s: Relay)
    requires Reopened(cfg, disk, order, now, s)
    ensures Restarted(cfg, disk, [], order, now, s)
  {
    hide Reopened;
  }

  lemma RestartFinds(cfg: Config, disk: Disk, tries: seq<Try>, order: seq<Bytes>, now: nat, s: Relay)
    requires Restarted(cfg, disk, tries, order, now, s)
    ensures Reopened(cfg, Found(cfg, disk, tries), order, now, s)
  {
    hide Reopened;
  }

  /** The fput that an operation carries out, if its checks pass. */
  function PutOf(cfg: Config, s: Relay, op: Op): Option<Admitted> {
    if !op.DoFput? && !op.CrashFput? then None else
    match Admit(cfg, s, op.req, op.ip, op.put).1
    case Ok(a) => Some(a)
    case Err(_) => None
  }

  /** The drain that an operation carries out, if its checks pass. */
  function DrainOf(cfg: Config, s: Relay, op: Op): Option<Drain> {
    if !op.DoFpop? && !op.CrashFpop? then None else
    match Authorize(cfg, s, op.req, op.ip, op.pop).1
    case Ok(d) => Some(d)
    case Err(_) => None
  }

  /** The envelope an operation writes is one of the run's, and its clock readings are ordered. */
  ghost predicate Within(u: set<Bytes>, cfg: Config, s: Relay, op: Op) {
    (op.DoFput? || op.CrashFput? ==> OrderedPut(op.put))
    && (PutOf(cfg, s, op).Some? && IsHandle(PutOf(cfg, s, op).value.handle) ==>
        RawOf(PutOf(cfg, s, op).value, op.put.receive) in u)
  }

  lemma PutIsStorable(u: set<Bytes>, cfg: Config, s: Relay, op: Op)
    requires WellFormed(cfg.limits, s.regs.table) && Within(u, cfg, s, op) && PutOf(cfg, s, op).Some?
    ensures Storable(u, PutOf(cfg, s, op).value, op.put)
  {
    hide Admit, WellFormed, IsHandle, RawOf, HexEncode, HexDecode, PointerHeader;
    AdmittedDecodes(cfg, s, op.req, op.ip, op.put);
  }

  // --- Registrations keep their shape ---

  lemma NextKeepsShape(cfg: Config, s: Relay, op: Op, s': Relay)
    requires WellFormed(cfg.limits, s.regs.table) && Next(cfg, s, op, s')
    ensures WellFormed(cfg.limits, s'.regs.table)
  {
    hide WellFormed, GatedFreg, CheckFreg, Admit, Authorize, PutSteps, PopSteps, ApplyAll, IsListing, IsRebuilt, Tried;
    match op
    case DoFreg(req, now) =>
      if CheckFreg(req).Ok? {
        CheckedShape(req);
        FregKeepsShape(cfg.limits, s.regs, CheckFreg(req).value, now);
      }
    case _ => EmptyTable(cfg.limits);
  }

  lemma EmptyTable(limits: Limits)
    ensures WellFormed(limits, map[])
  {
  }

  // --- Restart ---

  function FilesOf(files: Files, h: Bytes): set<Bytes> {
    set c | c in files && Parse(files[c]).Ok? && HandleOf(files[c]) == h
  }

  /** No two files for one pointer of one handle. */
  ghost predicate OnePerPointer(files: Files) {
    forall c, d, h, p :: c in files && d in files && Stores(files[c], h, p) && Stores(files[d], h, p) ==> c == d
  }

  /** A hold to start from: named by digests, one file per pointer, queues within the cap. */
  ghost predicate GoodHold(u: set<Bytes>, files: Files, cap: nat) {
    Addressed(u, files) && OnePerPointer(files) && forall h :: |FilesOf(files, h)| <= cap
  }

  lemma OpenedQueue(cfg: Config, disk: Disk, order: seq<Bytes>, now: nat, s: Relay, h: Bytes)
    requires Reopened(cfg, disk, order, now, s)
    ensures DistinctCids(QueueOf(s.queues, h)) && Ascending(QueueOf(s.queues, h))
    ensures forall e :: e in QueueOf(s.queues, h) <==> IsEntry(e, disk.fenv, h, now, cfg.horizon)
  {
    hide Sort, Listed, IsEntry, Ascending, DistinctCids;
    RebuiltQueue(order, disk.fenv, h, now, cfg.horizon);
  }

  /** Opening indexes every kept file and nothing else. What it does not keep may be anything at all. */
  lemma OpenedNoOrphans(u: set<Bytes>, cfg: Config, disk: Disk, order: seq<Bytes>, now: nat, s: Relay)
    requires Addressed(u, OpenFiles(disk.fenv, now, cfg.horizon)) && Reopened(cfg, disk, order, now, s)
    ensures NoOrphans(u, s.queues, s.disk.fenv) && Backed(s.queues, s.disk.fenv)
    ensures forall h :: DistinctCids(QueueOf(s.queues, h))
  {
    hide Sort, Listed, Parse, HandleOf, Ascending, IsRebuilt, DistinctCids;
    forall h ensures DistinctCids(QueueOf(s.queues, h)) && FaithfulQueue(u, h, QueueOf(s.queues, h))
                     && BackedQueue(QueueOf(s.queues, h), s.disk.fenv)
    {
      OpenedQueue(cfg, disk, order, now, s, h);
      forall e | e in QueueOf(s.queues, h) ensures Names(u, e.cid, h, e.pointer) {
        assert e.cid in OpenFiles(disk.fenv, now, cfg.horizon);
        assert Stores(disk.fenv[e.cid], h, e.pointer);
      }
    }
    forall c | c in s.disk.fenv ensures c in Cids(QueueOf(s.queues, HandleOf(s.disk.fenv[c]))) {
      var h := HandleOf(disk.fenv[c]);
      OpenedQueue(cfg, disk, order, now, s, h);
      assert IsEntry(EntryOf(c, disk.fenv[c]), disk.fenv, h, now, cfg.horizon);
      CidIn(QueueOf(s.queues, h), EntryOf(c, disk.fenv[c]));
    }
  }

  /** From a good hold, opening gives a coherent index within the cap. */
  lemma OpenedCoherent(u: set<Bytes>, cfg: Config, disk: Disk, order: seq<Bytes>, now: nat, s: Relay)
    requires GoodHold(u, OpenFiles(disk.fenv, now, cfg.horizon), cfg.maxPerHandle) && Reopened(cfg, disk, order, now, s)
    ensures Coherent(u, s.queues, s.disk.fenv) && WithinCap(s.queues, cfg.maxPerHandle)
  {
    OpenedNoOrphans(u, cfg, disk, order, now, s);
    hide HandleOf, NoOrphans, Backed, Addressed, IsRebuilt, IsListing, Ascending, Parse;
    var files := OpenFiles(disk.fenv, now, cfg.horizon);
    forall h ensures DistinctPointers(QueueOf(s.queues, h)) && |QueueOf(s.queues, h)| <= cfg.maxPerHandle {
      var q := QueueOf(s.queues, h);
      OpenedQueue(cfg, disk, order, now, s, h);
      forall i, j | 0 <= i < j < |q| ensures q[i].pointer != q[j].pointer {
        assert q[i] in q && q[j] in q;
        assert q[i].cid in files && q[j].cid in files;
        assert Stores(files[q[i].cid], h, q[i].pointer) && Stores(files[q[j].cid], h, q[j].pointer);
      }
      QueueSize(q, FilesOf(files, h));
    }
  }

  lemma {:induction false} QueueSize(q: Fifo, files: set<Bytes>)
    requires DistinctCids(q) && forall e :: e in q ==> e.cid in files
    ensures |q| <= |files|
    decreases |q|
  {
    if q != [] {
      var k := |q| - 1;
      assert q[k] in q;
      forall e | e in q[..k] ensures e.cid in files - {q[k].cid} {
        var i :| 0 <= i < k && q[i] == e;
      }
      QueueSize(q[..k], files - {q[k].cid});
    }
  }

  /** Part of a good hold is one, and so is part of a hold of well-formed files. */
  lemma PartGood(u: set<Bytes>, some: Files, files: Files, cap: nat)
    requires Part(some, files)
    ensures Addressed(u, files) ==> Addressed(u, some)
    ensures GoodHold(u, files, cap) ==> GoodHold(u, some, cap)
  {
    hide Parse, HandleOf;
    if GoodHold(u, files, cap) {
      forall h ensures |FilesOf(some, h)| <= cap {
        SubsetSize(FilesOf(some, h), FilesOf(files, h));
        assert |FilesOf(files, h)| <= cap;
      }
    }
  }

  lemma OpenPart(files: Files, now: nat, horizon: nat)
    ensures Part(OpenFiles(files, now, horizon), files)
  {
  }

  /** A coherent relay within the cap leaves a good hold behind. */
  lemma CoherentHold(u: set<Bytes>, queues: Index, files: Files, cap: nat)
    requires NoCollision(u) && Coherent(u, queues, files) && WithinCap(queues, cap)
    ensures GoodHold(u, files, cap)
  {
    hide Parse, HandleOf, NoCollision, Names, Backed, Indexed, Stores, FilesOf, DistinctCids, DistinctPointers;
    assert NoOrphans(u, queues, files) && Addressed(u, files) && Distinct(queues);
    hide Coherent, NoOrphans, Distinct;
    forall c, d, h, p | c in files && d in files && Stores(files[c], h, p) && Stores(files[d], h, p) ensures c == d {
      SamePointerSameFile(u, queues, files, c, d, h, p);
    }
    forall h ensures |FilesOf(files, h)| <= cap {
      NoOrphansParts(u, queues, files);
      FilesWithinQueue(queues, files, h);
    }
  }

  lemma SamePointerSameFile(u: set<Bytes>, queues: Index, files: Files, c: Bytes, d: Bytes, h: Bytes, p: Pointer)
    requires NoCollision(u) && NoOrphans(u, queues, files) && Distinct(queues)
    requires c in files && d in files && Stores(files[c], h, p) && Stores(files[d], h, p)
    ensures c == d
  {
    hide NoCollision, NoOrphans, Stores;
    var i := EntryOfFile(u, queues, files, c, h, p);
    var j := EntryOfFile(u, queues, files, d, h, p);
    assert DistinctPointers(QueueOf(queues, h));
  }

  lemma FilesWithinQueue(queues: Index, files: Files, h: Bytes)
    requires forall c :: c in files ==> Parse(files[c]).Ok?
    requires Indexed(queues, files)
    ensures |FilesOf(files, h)| <= |QueueOf(queues, h)|
  {
    hide Parse, HandleOf, Indexed;
    var q := QueueOf(queues, h);
    forall c | c in FilesOf(files, h) ensures c in Elements(Cids(q)) {
      InOwnQueue(queues, files, c);
    }
    SubsetSize(FilesOf(files, h), Elements(Cids(q)));
    ElementsSize(Cids(q));
  }

  lemma {:induction false} ElementsSize(s: seq<Bytes>)
    ensures |Elements(s)| <= |s|
  {
    if s != [] {
      var k := |s| - 1;
      ElementsSize(s[..k]);
      assert Elements(s) == Elements(s[..k]) + {s[k]};
    }
  }

  /** The entry under the name of a file has that file's pointer. */
  lemma EntryOfFile(u: set<Bytes>, queues: Index, files: Files, c: Bytes, h: Bytes, p: Pointer) returns (i: nat)
    requires NoCollision(u) && NoOrphans(u, queues, files) && c in files && Stores(files[c], h, p)
    ensures i < |QueueOf(queues, h)| && QueueOf(queues, h)[i].cid == c && QueueOf(queues, h)[i].pointer == p
  {
    hide Parse, HandleOf, NoCollision;
    InOwnQueue(queues, files, c);
    i := CidAt(QueueOf(queues, h), c);
    var e := QueueOf(queues, h)[i];
    EntryNames(u, queues, h, e);
    assert Names(u, c, h, p);
    NamesUnique(u, c, h, e.pointer, h, p);
  }

  // --- One step ---

  /** Crash-free steps keep the two-way agreement, distinct pointers, and the cap. */
  lemma NextKeepsCoherent(u: set<Bytes>, cfg: Config, s: Relay, op: Op, s': Relay)
    requires NoCollision(u) && WellFormed(cfg.limits, s.regs.table) && Within(u, cfg, s, op) && Next(cfg, s, op, s')
    requires Coherent(u, s.queues, s.disk.fenv) && WithinCap(s.queues, cfg.maxPerHandle) && !IsCrash(op)
    ensures Coherent(u, s'.queues, s'.disk.fenv) && WithinCap(s'.queues, cfg.maxPerHandle)
  {
    hide NoCollision, Coherent, WithinCap, Within, Stored, Drained, Admit, Authorize, Reopened, GoodHold, Storable,
         WellFormed;
    match op
    case DoFreg(_, _) =>
    case DoFput(req, ip, tm) =>
      var (wins, r) := Admit(cfg, s, req, ip, tm);
      if r.Ok? {
        PutIsStorable(u, cfg, s, op);
        StorableDecodes(u, r.value, tm);
        PutKeepsCoherent(u, cfg, s.(wins := wins), r.value, tm);
        PutKeepsCap(cfg, s.(wins := wins), r.value, tm);
      }
    case DoFpop(req, ip, tm) =>
      var (wins, r) := Authorize(cfg, s, req, ip, tm);
      if r.Ok? {
        PopKeepsCoherent(u, s.(wins := wins), r.value, tm.drain);
        PopKeepsCap(s.(wins := wins), r.value, tm.drain, cfg.maxPerHandle);
      }
    case DoRestart(order, now) =>
      CoherentHold(u, s.queues, s.disk.fenv, cfg.maxPerHandle);
      OpenPart(s.disk.fenv, now, cfg.horizon);
      PartGood(u, OpenFiles(s.disk.fenv, now, cfg.horizon), s.disk.fenv, cfg.maxPerHandle);
      OpenedCoherent(u, cfg, s.disk, order, now, s');
  }

  lemma PopKeepsCap(s: Relay, d: Drain, now: nat, cap: nat)
    requires WithinCap(s.queues, cap)
    ensures WithinCap(Drained(s, d, now).queues, cap)
  {
    hide ApplyAll, PopSteps, Taken;
    var queues' := Drained(s, d, now).queues;
    forall h ensures |QueueOf(queues', h)| <= cap {
      assert |QueueOf(s.queues, h)| <= cap;
    }
  }

  // --- Kills ---

  /** What a killed fput leaves on disk: nothing new before the rename, then the new file and some of its removals. */
  lemma KilledPut(cfg: Config, s: Relay, a: Admitted, tm: PutTimes, k: nat)
    requires IsHandle(a.handle) && k <= |PutSteps(cfg, s.queues, a, tm)|
    ensures k >= 2 ==> k - 2 <= |PutStep(cfg, s.queues, a, tm).drops|
    ensures var raw := RawOf(a, tm.receive);
            ApplyAll(s.disk, PutSteps(cfg, s.queues, a, tm)[..k]).fenv ==
            if k < 2 then s.disk.fenv
            else s.disk.fenv[Cid(raw) := raw] - Elements(PutStep(cfg, s.queues, a, tm).drops[..k - 2])
  {
    hide ApplyAll, PutStep, RawOf, Cid;
    var raw, drops := RawOf(a, tm.receive), PutStep(cfg, s.queues, a, tm).drops;
    var persist, steps := PersistSteps(Cid(raw), raw), PutSteps(cfg, s.queues, a, tm);
    PersistApplied(s.disk, Cid(raw), raw);
    if k < 2 {
      assert steps[..k] == persist[..k];
      if k == 0 {
        NothingApplied(s.disk, persist[..0]);
      }
    } else {
      assert steps[..k] == persist + RemoveSteps(drops[..k - 2]);
      ApplyConcat(s.disk, persist, RemoveSteps(drops[..k - 2]));
      RemovesApplied(ApplyAll(s.disk, persist), drops[..k - 2]);
    }
  }

  lemma NothingApplied(d: Disk, steps: seq<FileStep>)
    requires steps == []
    ensures ApplyAll(d, steps) == d
  {
  }

  /** What a killed fpop leaves on disk. */
  lemma KilledPop(s: Relay, d: Drain, now: nat, k: nat)
    requires k <= |PopSteps(s.queues, d, now)|
    ensures k <= DrainCount(s.queues, d, now)
    ensures ApplyAll(s.disk, PopSteps(s.queues, d, now)[..k]).fenv ==
            s.disk.fenv - Elements(Cids(QueueOf(s.queues, d.handle)[..k]))
  {
    hide ApplyAll, Taken;
    var gone := QueueOf(s.queues, d.handle)[..DrainCount(s.queues, d, now)];
    assert gone[..k] == QueueOf(s.queues, d.handle)[..k];
    assert PopSteps(s.queues, d, now)[..k] == RemoveSteps(Cids(gone[..k]));
    RemovesApplied(s.disk, Cids(gone[..k]));
  }

  /** A kill leaves only well-formed files under their own names. */
  lemma KilledAddressed(u: set<Bytes>, cfg: Config, s: Relay, op: Op)
    requires WellFormed(cfg.limits, s.regs.table) && Within(u, cfg, s, op) && Addressed(u, s.disk.fenv)
    ensures op.CrashFput? && op.k <= |PutLog(cfg, s, op.req, op.ip, op.put)| ==>
            Addressed(u, ApplyAll(s.disk, PutLog(cfg, s, op.req, op.ip, op.put)[..op.k]).fenv)
    ensures op.CrashFpop? && op.k <= |PopLog(cfg, s, op.req, op.ip, op.pop)| ==>
            Addressed(u, ApplyAll(s.disk, PopLog(cfg, s, op.req, op.ip, op.pop)[..op.k]).fenv)
  {
    hide ApplyAll, PutSteps, PopSteps, Admit, Authorize, RawOf, Parse, Within, WellFormed, PutStep, Taken, Elements,
         Storable;
    if op.CrashFput? && op.k <= |PutLog(cfg, s, op.req, op.ip, op.put)| {
      if PutOf(cfg, s, op).Some? {
        var a := PutOf(cfg, s, op).value;
        PutIsStorable(u, cfg, s, op);
        StorableWrites(u, a, op.put);
        KilledPut(cfg, s, a, op.put, op.k);
      } else {
        NothingApplied(s.disk, []);
      }
    }
    if op.CrashFpop? && op.k <= |PopLog(cfg, s, op.req, op.ip, op.pop)| {
      if DrainOf(cfg, s, op).Some? {
        KilledPop(s, DrainOf(cfg, s, op).value, op.pop.drain, op.k);
      } else {
        NothingApplied(s.disk, []);
      }
    }
  }

  lemma StorableWrites(u: set<Bytes>, a: Admitted, tm: PutTimes)
    requires Storable(u, a, tm)
    ensures IsHandle(a.handle) && RawOf(a, tm.receive) in u && Parse(RawOf(a, tm.receive)).Ok?
  {
    hide Parse, RawOf, HandleOf;
    NewRaw(a, tm.receive);
  }

  /** Every step, kills included, leaves no orphan file: the index knows every file on disk. */
  lemma NextKeepsNoOrphans(u: set<Bytes>, cfg: Config, s: Relay, op: Op, s': Relay)
    requires WellFormed(cfg.limits, s.regs.table) && Within(u, cfg, s, op) && Next(cfg, s, op, s')
    requires NoOrphans(u, s.queues, s.disk.fenv)
    ensures NoOrphans(u, s'.queues, s'.disk.fenv)
  {
    assert Addressed(u, s.disk.fenv);
    hide NoOrphans, Addressed, Within, Stored, Drained, Admit, Authorize, Reopened, Storable, WellFormed, ApplyAll,
         PutLog, PopLog;
    match op
    case DoFreg(_, _) =>
    case DoFput(req, ip, tm) =>
      var (wins, r) := Admit(cfg, s, req, ip, tm);
      if r.Ok? {
        PutIsStorable(u, cfg, s, op);
        StorableDecodes(u, r.value, tm);
        PutKeepsNoOrphans(u, cfg, s.(wins := wins), r.value, tm);
      }
    case DoFpop(req, ip, tm) =>
      var (wins, r) := Authorize(cfg, s, req, ip, tm);
      if r.Ok? {
        PopKeepsNoOrphans(u, s.(wins := wins), r.value, tm.drain);
      }
    case DoRestart(order, now) =>
      NoTries(cfg, s.disk, order, now, s');
      RestartedNoOrphans(u, cfg, s.disk, [], order, now, s');
    case CrashRestart(tries, order, now) => RestartedNoOrphans(u, cfg, s.disk, tries, order, now, s');
    case CrashFput(req, ip, tm, k, tries, order, now) =>
      KilledAddressed(u, cfg, s, op);
      RestartedNoOrphans(u, cfg, ApplyAll(s.disk, PutLog(cfg, s, req, ip, tm)[..k]), tries, order, now, s');
    case CrashFpop(req, ip, tm, k, tries, order, now) =>
      KilledAddressed(u, cfg, s, op);
      RestartedNoOrphans(u, cfg, ApplyAll(s.disk, PopLog(cfg, s, req, ip, tm)[..k]), tries, order, now, s');
  }

  lemma RestartedNoOrphans(u: set<Bytes>, cfg: Config, disk: Disk, tries: seq<Try>, order: seq<Bytes>, now: nat,
                           s: Relay)
    requires Addressed(u, disk.fenv) && Restarted(cfg, disk, tries, order, now, s)
    ensures NoOrphans(u, s.queues, s.disk.fenv)
  {
    hide Addressed, Part, Reopened, NoOrphans;
    RestartFinds(cfg, disk, tries, order, now, s);
    var found := Found(cfg, disk, tries).fenv;
    PartGood(u, found, disk.fenv, 0);
    OpenPart(found, now, cfg.horizon);
    PartGood(u, OpenFiles(found, now, cfg.horizon), found, 0);
    OpenedNoOrphans(u, cfg, Found(cfg, disk, tries), order, now, s);
  }

  // --- Runs ---

  /** `states` is a run of `ops` from a relay that was opened on some hold. */
  ghost predicate IsRun(u: set<Bytes>, cfg: Config, states: seq<Relay>, ops: seq<Op>) {
    && |states| == |ops| + 1
    && WellFormed(cfg.limits, states[0].regs.table)
    && forall i :: 0 <= i < |ops| ==> Moves(u, cfg, states[i], ops[i], states[i + 1])
  }

  ghost predicate Moves(u: set<Bytes>, cfg: Config, s: Relay, op: Op, s': Relay) {
    WellFormed(cfg.limits, s.regs.table) ==> Within(u, cfg, s, op) && Next(cfg, s, op, s')
  }

  lemma {:induction false} RunKeepsShape(u: set<Bytes>, cfg: Config, states: seq<Relay>, ops: seq<Op>, i: nat)
    requires IsRun(u, cfg, states, ops) && i <= |ops|
    ensures WellFormed(cfg.limits, states[i].regs.table)
  {
    hide WellFormed, Within, Next;
    if i > 0 {
      RunKeepsShape(u, cfg, states, ops, i - 1);
      assert Moves(u, cfg, states[i - 1], ops[i - 1], states[i]);
      NextKeepsShape(cfg, states[i - 1], ops[i - 1], states[i]);
    }
  }

  /**
   * Index and disk agree: from a hold whose kept files are good, after `open` and after every verb and restart of a run
   * without kills, files and index entries match one to one, pointers are distinct within a queue,
   * and no queue is over the cap.
   */
  lemma {:induction false} CrashFreeRunsAreCoherent(
    u: set<Bytes>, cfg: Config, hold: Disk, order: seq<Bytes>, now: nat, states: seq<Relay>, ops: seq<Op>, i: nat)
    requires NoCollision(u) && GoodHold(u, OpenFiles(hold.fenv, now, cfg.horizon), cfg.maxPerHandle)
    requires IsRun(u, cfg, states, ops) && Reopened(cfg, hold, order, now, states[0]) && i <= |ops|
    requires forall j :: 0 <= j < i ==> !IsCrash(ops[j])
    ensures Coherent(u, states[i].queues, states[i].disk.fenv) && WithinCap(states[i].queues, cfg.maxPerHandle)
  {
    hide NoCollision, GoodHold, Reopened, Coherent, WithinCap, Within, Next, WellFormed;
    if i == 0 {
      OpenedCoherent(u, cfg, hold, order, now, states[0]);
    } else {
      CrashFreeRunsAreCoherent(u, cfg, hold, order, now, states, ops, i - 1);
      RunKeepsShape(u, cfg, states, ops, i - 1);
      assert Moves(u, cfg, states[i - 1], ops[i - 1], states[i]);
      NextKeepsCoherent(u, cfg, states[i - 1], ops[i - 1], states[i]);
    }
  }

  /**
   * In every run, whatever is killed and when, `open` itself included, every file on disk is a
   * well-formed envelope that the first `open` kept or some fput wrote, and its handle's queue has an
   * entry for it. Whatever else was in the hold at the start, corrupt or expired, may be anything.
   */
  lemma {:induction false} RunsHaveNoOrphans(
    u: set<Bytes>, cfg: Config, hold: Disk, order: seq<Bytes>, now: nat, states: seq<Relay>, ops: seq<Op>, i: nat)
    requires Addressed(u, OpenFiles(hold.fenv, now, cfg.horizon))
    requires IsRun(u, cfg, states, ops) && Reopened(cfg, hold, order, now, states[0]) && i <= |ops|
    ensures NoOrphans(u, states[i].queues, states[i].disk.fenv)
  {
    hide Addressed, Reopened, NoOrphans, Within, Next, WellFormed;
    if i == 0 {
      OpenedNoOrphans(u, cfg, hold, order, now, states[0]);
    } else {
      RunsHaveNoOrphans(u, cfg, hold, order, now, states, ops, i - 1);
      RunKeepsShape(u, cfg, states, ops, i - 1);
      assert Moves(u, cfg, states[i - 1], ops[i - 1], states[i]);
      NextKeepsNoOrphans(u, cfg, states[i - 1], ops[i - 1], states[i]);
    }
  }
}
