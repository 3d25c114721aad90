/** FIFO order: kept by every operation, and across restarts by the receive times of the files. */
module Order {
  import opened Basics
  import opened Envelope
  import opened Registry
  import opened Queue
  import opened QueueFacts
  import opened Hold
  import opened Restart
  import opened Relay
  import opened Coherence
  import opened CoherenceSteps
  import opened Runs
  import opened CrashSafety

  /** Oldest first, and nothing from after `clock`. */
  predicate InOrder(q: Fifo, clock: nat) {
    (forall i, j :: 0 <= i < j < |q| ==> q[i].receivedAt <= q[j].receivedAt)
    && forall i :: 0 <= i < |q| ==> q[i].receivedAt <= clock
  }

  ghost predicate Dated(s: Relay, clock: nat) {
    (forall h :: InOrder(QueueOf(s.queues, h), clock)) && FilesDated(s.disk.fenv, clock)
  }

  ghost predicate FilesDated(files: Files, clock: nat) {
    forall c :: c in files && Parse(files[c]).Ok? ==> Parse(files[c]).value.receivedAt <= clock
  }

  /** First and last clock reading of an operation. */
  function Starts(op: Op): nat {
    match op
    case DoFreg(_, now) => now
    case DoFput(_, _, tm) => tm.lease
    case DoFpop(_, _, tm) => tm.rate
    case DoRestart(_, now) => now
    case CrashRestart(tries, _, now) => if tries == [] then now else tries[0].now
    case CrashFput(_, _, tm, _, _, _, _) => tm.lease
    case CrashFpop(_, _, tm, _, _, _, _) => tm.rate
  }

  function Ends(op: Op): nat {
    match op
    case DoFreg(_, now) => now
    case DoFput(_, _, tm) => tm.reap
    case DoFpop(_, _, tm) => Max(tm.rate, tm.drain)
    case DoRestart(_, now) => now
    case CrashRestart(tries, _, now) => Latest(tries, now)
    case CrashFput(_, _, tm, _, tries, _, now) => Max(tm.reap, Latest(tries, now))
    case CrashFpop(_, _, tm, _, tries, _, now) => Max(tm.rate, Latest(tries, now))
  }

  function Latest(tries: seq<Try>, now: nat): nat {
    if tries == [] then now else Max(tries[0].now, Latest(tries[1..], now))
  }

  /** The clock after an operation. */
  function ClockAfter(op: Op): nat {
    Max(Starts(op), Ends(op))
  }

  /** The clock starts at `clock` and never goes back. */
  predicate Clocked(clock: nat, ops: seq<Op>) {
    (ops != [] ==> clock <= Starts(ops[0])) && forall i :: 0 < i < |ops| ==> ClockAfter(ops[i - 1]) <= Starts(ops[i])
  }

  lemma {:induction false} ReapInOrder(q: Fifo, now: nat, clock: nat)
    requires InOrder(q, clock)
    ensures InOrder(Reap(q, now), clock)
  {
    if q != [] {
      ReapInOrder(q[1..], now, clock);
      ReapFirst(q, now);
      hide Reap;
      var r := Reap(q[1..], now);
      forall j | 0 <= j < |r| ensures q[0].receivedAt <= r[j].receivedAt {
        var k := ReapedFrom(q, now, j);
      }
    }
  }

  /** fput appends at the end or refreshes in place: the order stands. */
  lemma PutInOrder(q: Fifo, e: Queued, cap: nat, now: nat, clock: nat, clock': nat)
    requires InOrder(q, clock) && clock <= e.receivedAt <= clock'
    ensures InOrder(Put(q, e, cap, now).queue, clock')
  {
    hide Find, Reap, Dead, Excess;
    var m, n := Merge(q, e), Excess(q, e, cap);
    assert InOrder(m, clock');
    ReapInOrder(m[n..], now, clock');
  }

  lemma OpenedInOrder(cfg: Config, disk: Disk, order: seq<Bytes>, now: nat, s: Relay, clock: nat)
    requires Reopened(cfg, disk, order, now, s) && FilesDated(OpenFiles(disk.fenv, now, cfg.horizon), clock)
    ensures Dated(s, clock)
  {
    hide Parse, HandleOf, Kept, Sort, Listed, DistinctCids, IsRebuilt, IsListing;
    forall h ensures InOrder(QueueOf(s.queues, h), clock) {
      OpenedQueue(cfg, disk, order, now, s, h);
      var q := QueueOf(s.queues, h);
      forall i | 0 <= i < |q| ensures q[i].receivedAt <= clock {
        assert q[i] in q;
        assert IsEntry(q[i], disk.fenv, h, now, cfg.horizon);
        KeptOk(disk.fenv[q[i].cid], now, cfg.horizon);
        assert q[i].cid in OpenFiles(disk.fenv, now, cfg.horizon);
      }
      forall i, j | 0 <= i < j < |q| ensures q[i].receivedAt <= q[j].receivedAt {
        assert Before(q[i], q[j]);
      }
    }
  }

  lemma RestartedInOrder(cfg: Config, disk: Disk, tries: seq<Try>, order: seq<Bytes>, now: nat, s: Relay, clock: nat)
    requires Restarted(cfg, disk, tries, order, now, s) && FilesDated(disk.fenv, clock)
    ensures Dated(s, clock)
  {
    hide Parse, Reopened, Kept;
    RestartFinds(cfg, disk, tries, order, now, s);
    OpenedInOrder(cfg, Found(cfg, disk, tries), order, now, s, clock);
  }

  lemma KeptOk(raw: Bytes, now: nat, horizon: nat)
    requires Kept(raw, now, horizon)
    ensures Parse(raw).Ok?
  {
  }

  lemma KilledPutDated(u: set<Bytes>, cfg: Config, s: Relay, a: Admitted, tm: PutTimes, k: nat, clock: nat)
    requires Storable(u, a, tm) && k <= |PutSteps(cfg, s.queues, a, tm)| && OrderedPut(tm)
    requires FilesDated(s.disk.fenv, clock) && clock <= tm.receive
    ensures FilesDated(ApplyAll(s.disk, PutSteps(cfg, s.queues, a, tm)[..k]).fenv, tm.reap)
  {
    hide ApplyAll, PutSteps, RawOf, Parse, PutStep;
    KilledPut(cfg, s, a, tm, k);
    NewRaw(a, tm.receive);
  }

  lemma KilledPopDated(s: Relay, d: Drain, now: nat, k: nat, clock: nat)
    requires k <= |PopSteps(s.queues, d, now)| && FilesDated(s.disk.fenv, clock)
    ensures FilesDated(ApplyAll(s.disk, PopSteps(s.queues, d, now)[..k]).fenv, clock)
  {
    hide ApplyAll, PopSteps, Parse, Taken;
    KilledPop(s, d, now, k);
  }

  lemma PutDated(u: set<Bytes>, cfg: Config, s: Relay, a: Admitted, tm: PutTimes, clock: nat)
    requires Storable(u, a, tm) && OrderedPut(tm) && Dated(s, clock) && clock <= tm.lease
    ensures Dated(Stored(cfg, s, a, tm), tm.reap)
  {
    hide ApplyAll, PutSteps, RawOf, Put, FilesDated, InOrder;
    var steps := PutSteps(cfg, s.queues, a, tm);
    KilledPutDated(u, cfg, s, a, tm, |steps|, clock);
    assert steps[..|steps|] == steps;
    var s' := Stored(cfg, s, a, tm);
    forall h ensures InOrder(QueueOf(s'.queues, h), tm.reap) {
      if h == a.handle {
        PutInOrder(QueueOf(s.queues, h), NewEntry(a, tm.receive), cfg.maxPerHandle, tm.reap, clock, tm.reap);
      } else {
        LaterInOrder(QueueOf(s.queues, h), clock, tm.reap);
      }
    }
  }

  lemma LaterInOrder(q: Fifo, clock: nat, clock': nat)
    requires InOrder(q, clock) && clock <= clock'
    ensures InOrder(q, clock') && forall n :: 0 <= n <= |q| ==> InOrder(q[n..], clock')
  {
  }

  lemma PopDated(s: Relay, d: Drain, now: nat, clock: nat, clock': nat)
    requires Dated(s, clock) && clock <= clock'
    ensures Dated(Drained(s, d, now), clock')
  {
    hide ApplyAll, PopSteps, InOrder, Taken;
    var s' := Drained(s, d, now);
    forall h ensures InOrder(QueueOf(s'.queues, h), clock') {
      LaterInOrder(QueueOf(s.queues, h), clock, clock');
    }
    DrainedFiles(s, d, now);
  }

  /** An operation of a run, from a state dated before it. */
  ghost predicate DatedStep(u: set<Bytes>, cfg: Config, s: Relay, op: Op, s': Relay, clock: nat) {
    && WellFormed(cfg.limits, s.regs.table) && Within(u, cfg, s, op) && Next(cfg, s, op, s')
    && Dated(s, clock) && clock <= Starts(op)
  }

  lemma FregDated(u: set<Bytes>, cfg: Config, s: Relay, op: Op, s': Relay, clock: nat)
    requires DatedStep(u, cfg, s, op, s', clock) && op.DoFreg?
    ensures Dated(s', ClockAfter(op))
  {
    hide Within, GatedFreg, CheckFreg, FregAnswer, WellFormed, Dated;
    LaterDated(s, s', clock, ClockAfter(op));
  }

  lemma FputDated(u: set<Bytes>, cfg: Config, s: Relay, op: Op, s': Relay, clock: nat)
    requires DatedStep(u, cfg, s, op, s', clock) && op.DoFput?
    ensures Dated(s', ClockAfter(op))
  {
    assert OrderedPut(op.put);
    hide Within, Admit, PutSteps, Stored, WellFormed, Storable, IsHandle, Dated;
    var (wins, r) := Admit(cfg, s, op.req, op.ip, op.put);
    if r.Ok? {
      PutIsStorable(u, cfg, s, op);
      StorableDecodes(u, r.value, op.put);
      LaterDated(s, s.(wins := wins), clock, clock);
      PutDated(u, cfg, s.(wins := wins), r.value, op.put, clock);
    } else {
      LaterDated(s, s', clock, ClockAfter(op));
    }
  }

  lemma FpopDated(u: set<Bytes>, cfg: Config, s: Relay, op: Op, s': Relay, clock: nat)
    requires DatedStep(u, cfg, s, op, s', clock) && op.DoFpop?
    ensures Dated(s', ClockAfter(op))
  {
    hide Within, Authorize, PopSteps, Drained, WellFormed, Dated;
    var (wins, r) := Authorize(cfg, s, op.req, op.ip, op.pop);
    if r.Ok? {
      LaterDated(s, s.(wins := wins), clock, clock);
      PopDated(s.(wins := wins), r.value, op.pop.drain, clock, ClockAfter(op));
    } else {
      LaterDated(s, s', clock, ClockAfter(op));
    }
  }

  lemma KilledFputDated(u: set<Bytes>, cfg: Config, s: Relay, op: Op, s': Relay, clock: nat)
    requires DatedStep(u, cfg, s, op, s', clock) && op.CrashFput?
    ensures Dated(s', ClockAfter(op))
  {
    assert OrderedPut(op.put) && FilesDated(s.disk.fenv, clock);
    hide Within, Admit, ApplyAll, Reopened, Restarted, PutSteps, WellFormed, Storable, IsHandle, Dated, FilesDated;
    var r := Admit(cfg, s, op.req, op.ip, op.put).1;
    var disk := ApplyAll(s.disk, PutLog(cfg, s, op.req, op.ip, op.put)[..op.k]);
    if r.Ok? {
      PutIsStorable(u, cfg, s, op);
      StorableDecodes(u, r.value, op.put);
      KilledPutDated(u, cfg, s, r.value, op.put, op.k, clock);
      LaterFiles(disk.fenv, op.put.reap, ClockAfter(op));
    } else {
      NothingApplied(s.disk, PutLog(cfg, s, op.req, op.ip, op.put)[..op.k]);
      LaterFiles(disk.fenv, clock, ClockAfter(op));
    }
    RestartedInOrder(cfg, disk, op.tries, op.order, op.now, s', ClockAfter(op));
  }

  lemma KilledFpopDated(u: set<Bytes>, cfg: Config, s: Relay, op: Op, s': Relay, clock: nat)
    requires DatedStep(u, cfg, s, op, s', clock) && op.CrashFpop?
    ensures Dated(s', ClockAfter(op))
  {
    assert FilesDated(s.disk.fenv, clock);
    hide Within, Authorize, ApplyAll, Reopened, Restarted, PopSteps, WellFormed, Dated, FilesDated;
    var r := Authorize(cfg, s, op.req, op.ip, op.pop).1;
    var disk := ApplyAll(s.disk, PopLog(cfg, s, op.req, op.ip, op.pop)[..op.k]);
    if r.Ok? {
      KilledPopDated(s, r.value, op.pop.drain, op.k, clock);
    } else {
      NothingApplied(s.disk, PopLog(cfg, s, op.req, op.ip, op.pop)[..op.k]);
    }
    LaterFiles(disk.fenv, clock, ClockAfter(op));
    RestartedInOrder(cfg, disk, op.tries, op.order, op.now, s', ClockAfter(op));
  }

  lemma RestartDated(u: set<Bytes>, cfg: Config, s: Relay, op: Op, s': Relay, clock: nat)
    requires DatedStep(u, cfg, s, op, s', clock) && (op.DoRestart? || op.CrashRestart?)
    ensures Dated(s', ClockAfter(op))
  {
    assert FilesDated(s.disk.fenv, clock);
    hide Within, Reopened, Restarted, WellFormed, Dated, FilesDated;
    LaterFiles(s.disk.fenv, clock, ClockAfter(op));
    if op.DoRestart? {
      NoTries(cfg, s.disk, op.order, op.now, s');
      RestartedInOrder(cfg, s.disk, [], op.order, op.now, s', ClockAfter(op));
    } else {
      RestartedInOrder(cfg, s.disk, op.tries, op.order, op.now, s', ClockAfter(op));
    }
  }

  /** Every operation, killed or not, keeps every queue in order of reception. */
  lemma NextDated(u: set<Bytes>, cfg: Config, s: Relay, op: Op, s': Relay, clock: nat)
    requires WellFormed(cfg.limits, s.regs.table) && Within(u, cfg, s, op) && Next(cfg, s, op, s')
    requires Dated(s, clock) && clock <= Starts(op)
    ensures Dated(s', ClockAfter(op))
  {
    hide WellFormed, Within, Next, Dated, Starts, ClockAfter;
    match op
    case DoFreg(_, _) => FregDated(u, cfg, s, op, s', clock);
    case DoFput(_, _, _) => FputDated(u, cfg, s, op, s', clock);
    case DoFpop(_, _, _) => FpopDated(u, cfg, s, op, s', clock);
    case DoRestart(_, _) => RestartDated(u, cfg, s, op, s', clock);
    case CrashRestart(_, _, _) => RestartDated(u, cfg, s, op, s', clock);
    case CrashFput(_, _, _, _, _, _, _) => KilledFputDated(u, cfg, s, op, s', clock);
    case CrashFpop(_, _, _, _, _, _, _) => KilledFpopDated(u, cfg, s, op, s', clock);
  }

  lemma LaterFiles(files: Files, clock: nat, clock': nat)
    requires FilesDated(files, clock) && clock <= clock'
    ensures FilesDated(files, clock')
  {
    hide Parse;
  }

  lemma LaterDated(s: Relay, s': Relay, clock: nat, clock': nat)
    requires Dated(s, clock) && clock <= clock' && s'.queues == s.queues && s'.disk == s.disk
    ensures Dated(s', clock')
  {
    LaterFiles(s.disk.fenv, clock, clock');
    forall h ensures InOrder(QueueOf(s'.queues, h), clock') {
      LaterInOrder(QueueOf(s.queues, h), clock, clock');
    }
  }

  /**
   * Over every run whose clock does not go back, kills and restarts included: each queue is in order of
   * reception, and neither an entry nor a file is from the future.
   */
  lemma {:induction false} RunIsDated(
    u: set<Bytes>, cfg: Config, hold: Disk, order: seq<Bytes>, now: nat, states: seq<Relay>, ops: seq<Op>,
    clock: nat, i: nat)
    requires FilesDated(OpenFiles(hold.fenv, now, cfg.horizon), clock) && Clocked(clock, ops)
    requires IsRun(u, cfg, states, ops) && Reopened(cfg, hold, order, now, states[0]) && i <= |ops|
    ensures Dated(states[i], if i == 0 then clock else ClockAfter(ops[i - 1]))
  {
    hide Reopened, Dated, FilesDated, Within, Next, WellFormed, Starts, ClockAfter;
    if i == 0 {
      OpenedInOrder(cfg, hold, order, now, states[0], clock);
    } else {
      RunIsDated(u, cfg, hold, order, now, states, ops, clock, i - 1);
      RunKeepsShape(u, cfg, states, ops, i - 1);
      assert Moves(u, cfg, states[i - 1], ops[i - 1], states[i]);
      NextDated(u, cfg, states[i - 1], ops[i - 1], states[i], if i == 1 then clock else ClockAfter(ops[i - 2]));
    }
  }

  // --- Across a restart ---

  /** The receive time in the file of an entry: later than the entry's own after a refresh. */
  function FileTime(files: Files, e: Queued): nat {
    if e.cid in files && Parse(files[e.cid]).Ok? then Parse(files[e.cid]).value.receivedAt else 0
  }

  /** The order that a restart gives: receive time in the file, then file name. */
  predicate FiledBefore(files: Files, a: Queued, b: Queued) {
    FileTime(files, a) < FileTime(files, b) || (FileTime(files, a) == FileTime(files, b) && Less(a.cid, b.cid))
  }

  /**
   * After a restart, any two entries of a handle stand in the order of the receive times in their files,
   * equal times in the order of the file names, and in no other. So a refreshed pointer moves back.
   */
  lemma RestartOrders(
    u: set<Bytes>, cfg: Config, s: Relay, order: seq<Bytes>, now: nat, s': Relay, h: Bytes, a: Queued, b: Queued)
    returns (i: nat, j: nat)
    requires NoCollision(u) && Coherent(u, s.queues, s.disk.fenv) && Reopened(cfg, s.disk, order, now, s')
    requires a in QueueOf(s.queues, h) && b in QueueOf(s.queues, h)
    requires !Outside(a.pointer, now, cfg.horizon) && !Outside(b.pointer, now, cfg.horizon)
    ensures i < |QueueOf(s'.queues, h)| && j < |QueueOf(s'.queues, h)|
    ensures QueueOf(s'.queues, h)[i].pointer == a.pointer && QueueOf(s'.queues, h)[j].pointer == b.pointer
    ensures i < j <==> FiledBefore(s.disk.fenv, a, b)
    ensures DistinctPointers(QueueOf(s'.queues, h))
  {
    hide NoCollision, NoOrphans, Reopened, Parse, HandleOf, Outside, DistinctCids, Deadline, FileTime, Less, Coherent,
         IsEntry;
    i := Reindexed(u, cfg, s, order, now, s', h, a);
    j := Reindexed(u, cfg, s, order, now, s', h, b);
    OpenedQueue(cfg, s.disk, order, now, s', h);
    var q := QueueOf(s'.queues, h);
    LessTotal(a.cid, b.cid);
    SameFileTime(s.disk.fenv, a, b);
    assert i < j ==> Before(q[i], q[j]);
    assert j < i ==> Before(q[j], q[i]);
    RestartDistinct(u, cfg, s, order, now, s', h);
  }

  lemma SameFileTime(files: Files, a: Queued, b: Queued)
    ensures a.cid == b.cid ==> FileTime(files, a) == FileTime(files, b)
  {
  }

  lemma RestartDistinct(u: set<Bytes>, cfg: Config, s: Relay, order: seq<Bytes>, now: nat, s': Relay, h: Bytes)
    requires NoCollision(u) && Coherent(u, s.queues, s.disk.fenv) && Reopened(cfg, s.disk, order, now, s')
    ensures DistinctPointers(QueueOf(s'.queues, h))
  {
    hide NoCollision, NoOrphans, Reopened, HandleOf, Parse, Outside, DistinctCids, IsEntry, Distinct;
    assert Distinct(s.queues);
    var q := QueueOf(s'.queues, h);
    OpenedQueue(cfg, s.disk, order, now, s', h);
    forall i, j | 0 <= i < j < |q| ensures q[i].pointer != q[j].pointer {
      assert q[i] in q && q[j] in q;
      KeptEntry(s.disk.fenv, q[i], h, now, cfg.horizon);
      KeptEntry(s.disk.fenv, q[j], h, now, cfg.horizon);
      if q[i].pointer == q[j].pointer {
        SamePointerSameFile(u, s.queues, s.disk.fenv, q[i].cid, q[j].cid, h, q[i].pointer);
        DifferentCids(q, i, j);
        assert false;
      }
    }
  }

  lemma DifferentCids(q: Fifo, i: nat, j: nat)
    requires DistinctCids(q) && i < j < |q|
    ensures q[i].cid != q[j].cid
  {
  }

  lemma Reindexed(u: set<Bytes>, cfg: Config, s: Relay, order: seq<Bytes>, now: nat, s': Relay, h: Bytes, e: Queued)
    returns (i: nat)
    requires NoCollision(u) && Coherent(u, s.queues, s.disk.fenv) && Reopened(cfg, s.disk, order, now, s')
    requires e in QueueOf(s.queues, h) && !Outside(e.pointer, now, cfg.horizon)
    ensures i < |QueueOf(s'.queues, h)| && QueueOf(s'.queues, h)[i].pointer == e.pointer
    ensures QueueOf(s'.queues, h)[i].receivedAt == FileTime(s.disk.fenv, e) && QueueOf(s'.queues, h)[i].cid == e.cid
  {
    hide NoCollision, NoOrphans, Reopened, HandleOf, Outside, DistinctCids, Deadline, Ascending, Parse;
    assert BackedQueue(QueueOf(s.queues, h), s.disk.fenv);
    FileOfEntry(u, s.queues, s.disk.fenv, h, e);
    OpenedQueue(cfg, s.disk, order, now, s', h);
    var raw := s.disk.fenv[e.cid];
    var x := EntryOf(e.cid, raw);
    InWindow(raw, h, e.pointer, now, cfg.horizon);
    assert IsEntry(x, s.disk.fenv, h, now, cfg.horizon);
    i :| 0 <= i < |QueueOf(s'.queues, h)| && QueueOf(s'.queues, h)[i] == x;
  }

  lemma InWindow(raw: Bytes, h: Bytes, p: Pointer, now: nat, horizon: nat)
    requires Stores(raw, h, p) && !Outside(p, now, horizon)
    ensures Parse(raw).Ok? && Kept(raw, now, horizon) && HandleOf(raw) == h && Parse(raw).value.pointer == p
  {
    hide Parse, HandleOf, Deadline;
  }

  // --- Pointers that are not refreshed, over whole runs ---

  /** Every entry and every file of the pointer carries the receive time `t`. */
  ghost predicate Timed(s: Relay, h: Bytes, p: Pointer, t: nat) {
    (forall e :: e in QueueOf(s.queues, h) && e.pointer == p ==> e.receivedAt == t) && FilesTimed(s.disk.fenv, h, p, t)
  }

  ghost predicate FilesTimed(files: Files, h: Bytes, p: Pointer, t: nat) {
    forall c :: c in files && Stores(files[c], h, p) ==> Parse(files[c]).value.receivedAt == t
  }

  /** Every entry of `a` stands before every entry of `b`. */
  predicate Precede(q: Fifo, a: Pointer, b: Pointer) {
    forall i, j :: 0 <= i < |q| && 0 <= j < |q| && q[i].pointer == a && q[j].pointer == b ==> i < j
  }

  lemma PartTimed(some: Files, files: Files, h: Bytes, p: Pointer, t: nat)
    requires Part(some, files) && FilesTimed(files, h, p, t)
    ensures FilesTimed(some, h, p, t)
  {
    hide Parse, HandleOf;
  }

  lemma OpenedTimed(cfg: Config, disk: Disk, order: seq<Bytes>, now: nat, s: Relay, h: Bytes, p: Pointer, t: nat)
    requires Reopened(cfg, disk, order, now, s) && FilesTimed(disk.fenv, h, p, t)
    ensures Timed(s, h, p, t)
  {
    OpenPart(disk.fenv, now, cfg.horizon);
    PartTimed(s.disk.fenv, disk.fenv, h, p, t);
    hide Parse, HandleOf, Kept, Sort, Listed, DistinctCids, IsRebuilt, IsListing, Ascending, IsEntry, Stores;
    OpenedQueue(cfg, disk, order, now, s, h);
    forall e | e in QueueOf(s.queues, h) && e.pointer == p ensures e.receivedAt == t {
      KeptEntry(disk.fenv, e, h, now, cfg.horizon);
    }
  }

  lemma RestartedTimed(
    cfg: Config, disk: Disk, tries: seq<Try>, order: seq<Bytes>, now: nat, s: Relay, h: Bytes, p: Pointer, t: nat)
    requires Restarted(cfg, disk, tries, order, now, s) && FilesTimed(disk.fenv, h, p, t)
    ensures Timed(s, h, p, t)
  {
    hide Reopened, FilesTimed, Timed, Part;
    RestartFinds(cfg, disk, tries, order, now, s);
    var found := Found(cfg, disk, tries);
    PartTimed(found.fenv, disk.fenv, h, p, t);
    OpenedTimed(cfg, found, order, now, s, h, p, t);
  }

  /** What an fput, or part of one, does to the files of another pointer. */
  lemma PutFilesTimed(u: set<Bytes>, cfg: Config, s: Relay, a: Admitted, tm: PutTimes, k: nat, h: Bytes, p: Pointer,
                      t: nat)
    requires Storable(u, a, tm) && k <= |PutSteps(cfg, s.queues, a, tm)| && Timed(s, h, p, t)
    requires a == Admitted(h, p) ==> k < 2
    ensures FilesTimed(ApplyAll(s.disk, PutSteps(cfg, s.queues, a, tm)[..k]).fenv, h, p, t)
  {
    hide ApplyAll, PutSteps, RawOf, Parse, PutStep, HandleOf;
    KilledPut(cfg, s, a, tm, k);
    NewRaw(a, tm.receive);
  }

  lemma PopFilesTimed(s: Relay, d: Drain, now: nat, k: nat, h: Bytes, p: Pointer, t: nat)
    requires k <= |PopSteps(s.queues, d, now)| && Timed(s, h, p, t)
    ensures FilesTimed(ApplyAll(s.disk, PopSteps(s.queues, d, now)[..k]).fenv, h, p, t)
  {
    hide ApplyAll, PopSteps, Parse, HandleOf, Taken;
    KilledPop(s, d, now, k);
  }

  lemma PutTimed(u: set<Bytes>, cfg: Config, s: Relay, a: Admitted, tm: PutTimes, h: Bytes, p: Pointer, t: nat)
    requires Storable(u, a, tm) && a != Admitted(h, p) && Timed(s, h, p, t)
    ensures Timed(Stored(cfg, s, a, tm), h, p, t)
  {
    hide ApplyAll, PutSteps, RawOf, Parse, Put, HandleOf;
    var steps := PutSteps(cfg, s.queues, a, tm);
    PutFilesTimed(u, cfg, s, a, tm, |steps|, h, p, t);
    assert steps[..|steps|] == steps;
    var q', e := QueueOf(Stored(cfg, s, a, tm).queues, h), NewEntry(a, tm.receive);
    forall x | x in q' && x.pointer == p ensures x.receivedAt == t {
      if h == a.handle {
        PutMembers(QueueOf(s.queues, h), e, cfg.maxPerHandle, tm.reap, x);
      }
    }
  }

  lemma PopTimed(s: Relay, d: Drain, now: nat, h: Bytes, p: Pointer, t: nat)
    requires Timed(s, h, p, t)
    ensures Timed(Drained(s, d, now), h, p, t)
  {
    hide ApplyAll, PopSteps, Parse, HandleOf, DrainCount;
    DrainedFiles(s, d, now);
    forall e | e in QueueOf(Drained(s, d, now).queues, h) ensures e in QueueOf(s.queues, h) {
    }
  }

  /** The first fput of a pointer dates it: it has no older file either. */
  lemma FirstTimed(u: set<Bytes>, cfg: Config, s: Relay, a: Admitted, tm: PutTimes)
    requires NoCollision(u) && NoOrphans(u, s.queues, s.disk.fenv) && Storable(u, a, tm)
    requires a.pointer !in Pointers(QueueOf(s.queues, a.handle))
    ensures Timed(Stored(cfg, s, a, tm), a.handle, a.pointer, tm.receive)
  {
    hide NoCollision, NoOrphans, ApplyAll, PutSteps, RawOf, Parse, HandleOf, Put, Pointers;
    NewRaw(a, tm.receive);
    StoredFiles(cfg, s, a, tm);
    var s' := Stored(cfg, s, a, tm);
    forall c | c in s.disk.fenv ensures !Stores(s.disk.fenv[c], a.handle, a.pointer) {
      if Stores(s.disk.fenv[c], a.handle, a.pointer) {
        FiledIsQueued(u, s.queues, s.disk.fenv, a.handle, a.pointer);
        assert false;
      }
    }
    var q, e := QueueOf(s.queues, a.handle), NewEntry(a, tm.receive);
    forall x | x in QueueOf(s'.queues, a.handle) && x.pointer == a.pointer ensures x.receivedAt == tm.receive {
      NotQueued(q, a.pointer);
      NewMember(q, e, cfg.maxPerHandle, tm.reap, x);
    }
  }

  lemma NotQueued(q: Fifo, p: Pointer)
    ensures p !in Pointers(q) ==> (forall k :: 0 <= k < |q| ==> q[k].pointer != p) && Find(q, p) == |q|
  {
    hide Find;
    if p !in Pointers(q) {
      forall k | 0 <= k < |q| ensures q[k].pointer != p {
        assert Pointers(q)[k] == q[k].pointer;
      }
    }
  }

  /** A new pointer's only entry is the new one. */
  lemma NewMember(q: Fifo, e: Queued, cap: nat, now: nat, x: Queued)
    requires (forall k :: 0 <= k < |q| ==> q[k].pointer != e.pointer) && Find(q, e.pointer) == |q|
    requires x in Put(q, e, cap, now).queue && x.pointer == e.pointer
    ensures x == e
  {
    hide Reap, Dead, Excess, Find;
    var n := Excess(q, e, cap);
    ReapMembers((q + [e])[n..], now, x);
    var k := After(q + [e], n, x);
  }

  /**
   * Nothing but an fput of the pointer itself, and only one that reached its rename, changes its receive time: no
   * other verb, no kill, no restart.
   */
  lemma NextTimed(u: set<Bytes>, cfg: Config, s: Relay, op: Op, s': Relay, h: Bytes, p: Pointer, t: nat)
    requires WellFormed(cfg.limits, s.regs.table) && Within(u, cfg, s, op) && Next(cfg, s, op, s')
    requires Timed(s, h, p, t) && !Renames(cfg, s, op, h, p)
    ensures Timed(s', h, p, t)
  {
    hide Within, Admit, Authorize, ApplyAll, Reopened, Restarted, PutSteps, PopSteps, Drained, Stored, WellFormed,
         Storable, IsHandle, FilesTimed;
    match op
    case DoFreg(_, _) =>
    case DoFput(req, ip, tm) =>
      var (wins, r) := Admit(cfg, s, req, ip, tm);
      if r.Ok? {
        PutIsStorable(u, cfg, s, op);
        StorableDecodes(u, r.value, tm);
        PutTimed(u, cfg, s.(wins := wins), r.value, tm, h, p, t);
      }
    case DoFpop(req, ip, tm) =>
      var (wins, r) := Authorize(cfg, s, req, ip, tm);
      if r.Ok? {
        PopTimed(s.(wins := wins), r.value, tm.drain, h, p, t);
      }
    case DoRestart(order, now) =>
      NoTries(cfg, s.disk, order, now, s');
      RestartedTimed(cfg, s.disk, [], order, now, s', h, p, t);
    case CrashRestart(tries, order, now) => RestartedTimed(cfg, s.disk, tries, order, now, s', h, p, t);
    case CrashFput(req, ip, tm, k, tries, order, now) =>
      var r := Admit(cfg, s, req, ip, tm).1;
      var disk := ApplyAll(s.disk, PutLog(cfg, s, req, ip, tm)[..k]);
      if r.Ok? {
        PutIsStorable(u, cfg, s, op);
        StorableDecodes(u, r.value, tm);
        PutFilesTimed(u, cfg, s, r.value, tm, k, h, p, t);
      } else {
        NothingApplied(s.disk, PutLog(cfg, s, req, ip, tm)[..k]);
      }
      RestartedTimed(cfg, disk, tries, order, now, s', h, p, t);
    case CrashFpop(req, ip, tm, k, tries, order, now) =>
      var r := Authorize(cfg, s, req, ip, tm).1;
      var disk := ApplyAll(s.disk, PopLog(cfg, s, req, ip, tm)[..k]);
      if r.Ok? {
        PopFilesTimed(s, r.value, tm.drain, k, h, p, t);
      } else {
        NothingApplied(s.disk, PopLog(cfg, s, req, ip, tm)[..k]);
      }
      RestartedTimed(cfg, disk, tries, order, now, s', h, p, t);
  }

  // --- The order of two such pointers ---

  lemma {:induction false} ReapPrecede(q: Fifo, now: nat, a: Pointer, b: Pointer)
    requires Precede(q, a, b)
    ensures Precede(Reap(q, now), a, b)
  {
    if q != [] {
      ReapPrecede(q[1..], now, a, b);
      ReapFirst(q, now);
      hide Reap;
      var r := Reap(q[1..], now);
      forall j | 0 <= j < |r| && r[j].pointer == a ensures q[0].pointer != b {
        var k := ReapedFrom(q, now, j);
      }
    }
  }

  /** An fput of neither pointer leaves their order; a first fput of `b` puts it last. */
  lemma PutPrecede(q: Fifo, e: Queued, cap: nat, now: nat, a: Pointer, b: Pointer)
    requires a != b && e.pointer != a && Precede(q, a, b)
    requires e.pointer == b ==> b !in Pointers(q)
    ensures Precede(Put(q, e, cap, now).queue, a, b)
  {
    NotQueued(q, b);
    hide Reap, Dead, Excess, Find;
    var m, n := Merge(q, e), Excess(q, e, cap);
    assert Precede(m, a, b);
    ReapPrecede(m[n..], now, a, b);
  }

  lemma OpenedPrecede(cfg: Config, disk: Disk, order: seq<Bytes>, now: nat, s: Relay, h: Bytes,
                      a: Pointer, t: nat, b: Pointer, v: nat)
    requires Reopened(cfg, disk, order, now, s) && Timed(s, h, a, t) && Timed(s, h, b, v) && t < v
    ensures Precede(QueueOf(s.queues, h), a, b)
  {
    hide Parse, HandleOf, Kept, Sort, Listed, DistinctCids, IsRebuilt, IsListing, IsEntry, Ascending;
    OpenedQueue(cfg, disk, order, now, s, h);
    var q := QueueOf(s.queues, h);
    forall i, j | 0 <= i < |q| && 0 <= j < |q| && q[i].pointer == a && q[j].pointer == b ensures i < j {
      assert q[i] in q && q[j] in q;
      EarlierFirst(q, i, j);
    }
  }

  lemma RestartedPrecede(cfg: Config, disk: Disk, tries: seq<Try>, order: seq<Bytes>, now: nat, s: Relay, h: Bytes,
                         a: Pointer, t: nat, b: Pointer, v: nat)
    requires Restarted(cfg, disk, tries, order, now, s) && Timed(s, h, a, t) && Timed(s, h, b, v) && t < v
    ensures Precede(QueueOf(s.queues, h), a, b)
  {
    hide Reopened, Timed, Precede;
    RestartFinds(cfg, disk, tries, order, now, s);
    OpenedPrecede(cfg, Found(cfg, disk, tries), order, now, s, h, a, t, b, v);
  }

  /** Any operation, killed or not, keeps the order of two pointers put in different seconds and not refreshed. */
  lemma NextPrecede(u: set<Bytes>, cfg: Config, s: Relay, op: Op, s': Relay, h: Bytes,
                    a: Pointer, t: nat, b: Pointer, v: nat)
    requires WellFormed(cfg.limits, s.regs.table) && Within(u, cfg, s, op) && Next(cfg, s, op, s')
    requires Precede(QueueOf(s.queues, h), a, b) && a != b && t < v
    requires !Renames(cfg, s, op, h, a) && !Renames(cfg, s, op, h, b)
    requires Timed(s', h, a, t) && Timed(s', h, b, v)
    ensures Precede(QueueOf(s'.queues, h), a, b)
  {
    hide Within, Admit, Authorize, ApplyAll, Reopened, Restarted, PutSteps, PopSteps, WellFormed, Storable, IsHandle,
         Timed, Put, Taken;
    match op
    case DoFreg(_, _) =>
    case DoFput(req, ip, tm) =>
      var r := Admit(cfg, s, req, ip, tm).1;
      if r.Ok? && r.value.handle == h {
        PutIsStorable(u, cfg, s, op);
        StorableDecodes(u, r.value, tm);
        PutPrecede(QueueOf(s.queues, h), NewEntry(r.value, tm.receive), cfg.maxPerHandle, tm.reap, a, b);
      }
    case DoFpop(req, ip, tm) =>
    case DoRestart(order, now) =>
      NoTries(cfg, s.disk, order, now, s');
      RestartedPrecede(cfg, s.disk, [], order, now, s', h, a, t, b, v);
    case CrashRestart(tries, order, now) => RestartedPrecede(cfg, s.disk, tries, order, now, s', h, a, t, b, v);
    case CrashFput(req, ip, tm, k, tries, order, now) =>
      var disk := ApplyAll(s.disk, PutLog(cfg, s, req, ip, tm)[..k]);
      RestartedPrecede(cfg, disk, tries, order, now, s', h, a, t, b, v);
    case CrashFpop(req, ip, tm, k, tries, order, now) =>
      var disk := ApplyAll(s.disk, PopLog(cfg, s, req, ip, tm)[..k]);
      RestartedPrecede(cfg, disk, tries, order, now, s', h, a, t, b, v);
  }

  /** Operation `m` writes a pointer that was not queued: an fput acknowledged, or killed after its rename. */
  ghost predicate FirstPut(cfg: Config, states: seq<Relay>, ops: seq<Op>, m: nat, h: Bytes, p: Pointer)
    requires |states| == |ops| + 1 && m < |ops|
  {
    (ops[m].DoFput? || ops[m].CrashFput?) && Renames(cfg, states[m], ops[m], h, p)
    && p !in Pointers(QueueOf(states[m].queues, h))
  }

  /** No fput of the pointer reaches its rename among the operations from `m` on and before `n`. */
  ghost predicate Unrefreshed(cfg: Config, states: seq<Relay>, ops: seq<Op>, m: nat, n: nat, h: Bytes, p: Pointer)
    requires |states| == |ops| + 1 && n <= |ops|
  {
    forall k :: m <= k < n ==> !Renames(cfg, states[k], ops[k], h, p)
  }

  lemma FirstIsTimed(u: set<Bytes>, cfg: Config, s: Relay, op: Op, s': Relay, h: Bytes, p: Pointer)
    requires NoCollision(u) && NoOrphans(u, s.queues, s.disk.fenv)
    requires WellFormed(cfg.limits, s.regs.table) && Within(u, cfg, s, op) && Next(cfg, s, op, s')
    requires (op.DoFput? || op.CrashFput?) && Renames(cfg, s, op, h, p) && p !in Pointers(QueueOf(s.queues, h))
    ensures Timed(s', h, p, op.put.receive)
  {
    hide NoCollision, NoOrphans, Timed, FilesTimed, Within, WellFormed, Admit, Pointers, Stored, Storable, ApplyAll,
         PutSteps, Restarted;
    PutIsStorable(u, cfg, s, op);
    StorableDecodes(u, Admitted(h, p), op.put);
    if op.DoFput? {
      FirstTimed(u, cfg, s.(wins := Admit(cfg, s, op.req, op.ip, op.put).0), Admitted(h, p), op.put);
    } else {
      KilledFirstTimed(u, cfg, s, Admitted(h, p), op.put, op.k);
      var disk := ApplyAll(s.disk, PutLog(cfg, s, op.req, op.ip, op.put)[..op.k]);
      RestartedTimed(cfg, disk, op.tries, op.order, op.now, s', h, p, op.put.receive);
    }
  }

  lemma KilledFirstTimed(u: set<Bytes>, cfg: Config, s: Relay, a: Admitted, tm: PutTimes, k: nat)
    requires NoCollision(u) && NoOrphans(u, s.queues, s.disk.fenv) && Storable(u, a, tm)
    requires a.pointer !in Pointers(QueueOf(s.queues, a.handle)) && k <= |PutSteps(cfg, s.queues, a, tm)|
    ensures FilesTimed(ApplyAll(s.disk, PutSteps(cfg, s.queues, a, tm)[..k]).fenv, a.handle, a.pointer, tm.receive)
  {
    hide NoCollision, NoOrphans, ApplyAll, PutSteps, RawOf, Parse, HandleOf, PutStep, Pointers;
    NewRaw(a, tm.receive);
    KilledPut(cfg, s, a, tm, k);
    forall c | c in s.disk.fenv ensures !Stores(s.disk.fenv[c], a.handle, a.pointer) {
      if Stores(s.disk.fenv[c], a.handle, a.pointer) {
        FiledIsQueued(u, s.queues, s.disk.fenv, a.handle, a.pointer);
        assert false;
      }
    }
  }

  lemma {:induction false} RunIsTimed(
    u: set<Bytes>, cfg: Config, hold: Disk, order: seq<Bytes>, now: nat, states: seq<Relay>, ops: seq<Op>,
    m: nat, n: nat, h: Bytes, p: Pointer)
    requires NoCollision(u) && Addressed(u, OpenFiles(hold.fenv, now, cfg.horizon))
    requires IsRun(u, cfg, states, ops) && Reopened(cfg, hold, order, now, states[0])
    requires m < n <= |ops| && FirstPut(cfg, states, ops, m, h, p) && Unrefreshed(cfg, states, ops, m + 1, n, h, p)
    ensures Timed(states[n], h, p, ops[m].put.receive)
  {
    hide NoCollision, Addressed, Reopened, NoOrphans, Timed, Within, WellFormed, Next, Renames, Pointers;
    RunKeepsShape(u, cfg, states, ops, n - 1);
    assert Moves(u, cfg, states[n - 1], ops[n - 1], states[n]);
    if n == m + 1 {
      RunsHaveNoOrphans(u, cfg, hold, order, now, states, ops, m);
      FirstIsTimed(u, cfg, states[m], ops[m], states[n], h, p);
    } else {
      RunIsTimed(u, cfg, hold, order, now, states, ops, m, n - 1, h, p);
      NextTimed(u, cfg, states[n - 1], ops[n - 1], states[n], h, p, ops[m].put.receive);
    }
  }

  /**
   * Two pointers of a handle put in different seconds, and not put again, stand in the order in which they
   * were put, in every state of every run: before and after every restart, and whatever is killed. An fput
   * counts once its file has its name: killed before its rename it is none, killed later it is one.
   */
  lemma {:induction false} RunKeepsPutOrder(
    u: set<Bytes>, cfg: Config, hold: Disk, order: seq<Bytes>, now: nat, states: seq<Relay>, ops: seq<Op>,
    m: nat, l: nat, n: nat, h: Bytes, a: Pointer, b: Pointer)
    requires NoCollision(u) && Addressed(u, OpenFiles(hold.fenv, now, cfg.horizon))
    requires IsRun(u, cfg, states, ops) && Reopened(cfg, hold, order, now, states[0])
    requires m < l < n <= |ops| && FirstPut(cfg, states, ops, m, h, a) && FirstPut(cfg, states, ops, l, h, b)
    requires ops[m].put.receive < ops[l].put.receive
    requires Unrefreshed(cfg, states, ops, m + 1, n, h, a) && Unrefreshed(cfg, states, ops, l + 1, n, h, b)
    ensures Precede(QueueOf(states[n].queues, h), a, b)
  {
    hide NoCollision, Addressed, Reopened, Timed, Within, WellFormed, Next, Renames, Pointers, Precede;
    assert a != b;
    var t, v := ops[m].put.receive, ops[l].put.receive;
    RunKeepsShape(u, cfg, states, ops, n - 1);
    assert Moves(u, cfg, states[n - 1], ops[n - 1], states[n]);
    if n == l + 1 {
      RunIsTimed(u, cfg, hold, order, now, states, ops, m, n, h, a);
      RunIsTimed(u, cfg, hold, order, now, states, ops, l, n, h, b);
      FirstPrecedes(u, cfg, states[l], ops[l], states[n], h, a, t, b, v);
    } else {
      RunKeepsPutOrder(u, cfg, hold, order, now, states, ops, m, l, n - 1, h, a, b);
      RunIsTimed(u, cfg, hold, order, now, states, ops, m, n, h, a);
      RunIsTimed(u, cfg, hold, order, now, states, ops, l, n, h, b);
      NextPrecede(u, cfg, states[n - 1], ops[n - 1], states[n], h, a, t, b, v);
    }
  }

  lemma FirstPrecedes(u: set<Bytes>, cfg: Config, s: Relay, op: Op, s': Relay, h: Bytes,
                      a: Pointer, t: nat, b: Pointer, v: nat)
    requires WellFormed(cfg.limits, s.regs.table) && Within(u, cfg, s, op) && Next(cfg, s, op, s')
    requires (op.DoFput? || op.CrashFput?) && Renames(cfg, s, op, h, b) && b !in Pointers(QueueOf(s.queues, h))
    requires a != b && Timed(s', h, a, t) && Timed(s', h, b, v) && t < v
    ensures Precede(QueueOf(s'.queues, h), a, b)
  {
    hide Within, Admit, WellFormed, Storable, IsHandle, Put, ApplyAll, PutSteps, Pointers, Timed, Restarted;
    PutIsStorable(u, cfg, s, op);
    StorableDecodes(u, Admitted(h, b), op.put);
    if op.DoFput? {
      var q := QueueOf(s.queues, h);
      NotQueued(q, b);
      PutPrecede(q, NewEntry(Admitted(h, b), op.put.receive), cfg.maxPerHandle, op.put.reap, a, b);
    } else {
      var disk := ApplyAll(s.disk, PutLog(cfg, s, op.req, op.ip, op.put)[..op.k]);
      RestartedPrecede(cfg, disk, op.tries, op.order, op.now, s', h, a, t, b, v);
    }
  }
}
