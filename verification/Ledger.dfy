/** Accounts: every pointer pushed is delivered, evicted, expired or still queued; none is delivered twice. */
module Ledger {
  import opened Basics
  import opened Envelope
  import opened Registry
  import opened Queue
  import opened QueueFacts
  import opened Hold
  import opened Restart
  import opened Relay
  import opened Coherence
  import opened CoherenceSteps
  import opened Runs
  import opened CrashSafety

  type Bag = multiset<Pointer>

  function Content(s: Relay, h: Bytes): Bag {
    multiset(Pointers(QueueOf(s.queues, h)))
  }

  /** One operation's entries in the books of handle `h`. */
  datatype Posting = Posting(pushed: Bag, delivered: Bag, evicted: Bag, expired: Bag)

  const NOTHING := Posting(multiset{}, multiset{}, multiset{}, multiset{})

  function Sum(a: Posting, b: Posting): Posting {
    Posting(a.pushed + b.pushed, a.delivered + b.delivered, a.evicted + b.evicted, a.expired + b.expired)
  }

  /** A refresh pushes nothing. */
  function PutPosting(cfg: Config, queues: Index, a: Admitted, tm: PutTimes): Posting
    requires IsHandle(a.handle)
  {
    var q, e := QueueOf(queues, a.handle), NewEntry(a, tm.receive);
    var m, n := Merge(q, e), Excess(q, e, cfg.maxPerHandle);
    Posting(if Queue.Queues(q, a.pointer) then multiset{} else multiset{a.pointer},
          multiset{}, multiset(Pointers(m[..n])), multiset(Pointers(Dead(m[n..], tm.reap))))
  }

  function PopPosting(queues: Index, d: Drain, now: nat): Posting {
    var q := QueueOf(queues, d.handle);
    Posting(multiset{}, multiset(Delivered(queues, d, now)), multiset{},
          multiset(Pointers(Dead(q[..DrainCount(queues, d, now)], now))))
  }

  function If(b: bool, e: Queued): Fifo {
    if b then [e] else []
  }

  /** What a restart composts: the pointers whose deadline is past, or beyond the horizon. */
  function Composted(q: Fifo, now: nat, horizon: nat): Fifo {
    if q == [] then [] else If(Outside(q[0].pointer, now, horizon), q[0]) + Composted(q[1..], now, horizon)
  }

  function Windowed(q: Fifo, now: nat, horizon: nat): Fifo {
    if q == [] then [] else If(!Outside(q[0].pointer, now, horizon), q[0]) + Windowed(q[1..], now, horizon)
  }

  /** The books of a crash-free operation. */
  function PostingFor(cfg: Config, s: Relay, op: Op, h: Bytes): Posting {
    match op
    case DoFput(_, _, tm) =>
      (match PutOf(cfg, s, op)
       case Some(a) => if a.handle == h && IsHandle(h) then PutPosting(cfg, s.queues, a, tm) else NOTHING
       case None => NOTHING)
    case DoFpop(_, _, tm) =>
      (match DrainOf(cfg, s, op)
       case Some(d) => if d.handle == h then PopPosting(s.queues, d, tm.drain) else NOTHING
       case None => NOTHING)
    case DoRestart(_, now) =>
      NOTHING.(expired := multiset(Pointers(Composted(QueueOf(s.queues, h), now, cfg.horizon))))
    case _ => NOTHING
  }

  ghost predicate Balanced(before: Bag, e: Posting, after: Bag) {
    before + e.pushed == after + e.delivered + e.evicted + e.expired
  }

  // --- Restart ---

  lemma WindowFirst(q: Fifo, now: nat, horizon: nat)
    requires q != []
    ensures var out := Outside(q[0].pointer, now, horizon);
            Windowed(q, now, horizon) == If(!out, q[0]) + Windowed(q[1..], now, horizon)
            && Composted(q, now, horizon) == If(out, q[0]) + Composted(q[1..], now, horizon)
  {
    hide Outside;
  }

  lemma {:induction false} WindowSplits(q: Fifo, now: nat, horizon: nat)
    ensures multiset(Pointers(q)) ==
            multiset(Pointers(Windowed(q, now, horizon))) + multiset(Pointers(Composted(q, now, horizon)))
  {
    if q == [] {
      BagNone();
    } else {
      WindowSplits(q[1..], now, horizon);
      WindowFirst(q, now, horizon);
      hide Outside, Windowed, Composted, Pointers;
      var out := Outside(q[0].pointer, now, horizon);
      assert q == [q[0]] + q[1..];
      BagSplit([q[0]], q[1..]);
      BagSplit(If(!out, q[0]), Windowed(q[1..], now, horizon));
      BagSplit(If(out, q[0]), Composted(q[1..], now, horizon));
      BagNone();
    }
  }

  lemma BagSplit(a: Fifo, b: Fifo)
    ensures multiset(Pointers(a + b)) == multiset(Pointers(a)) + multiset(Pointers(b))
  {
    PointersSplit(a, b);
  }

  lemma BagNone()
    ensures multiset(Pointers([])) == multiset{}
  {
    assert Pointers([]) == [];
  }

  lemma {:induction false} WindowMembers(q: Fifo, now: nat, horizon: nat, e: Queued)
    ensures e in Windowed(q, now, horizon) <==> e in q && !Outside(e.pointer, now, horizon)
  {
    hide Outside;
    if q != [] {
      WindowMembers(q[1..], now, horizon, e);
      assert e in q <==> e == q[0] || e in q[1..];
    }
  }

  lemma {:induction false} WindowDistinct(q: Fifo, now: nat, horizon: nat)
    requires DistinctPointers(q)
    ensures DistinctPointers(Windowed(q, now, horizon))
  {
    if q != [] {
      WindowDistinct(q[1..], now, horizon);
      WindowFirst(q, now, horizon);
      hide Outside, Windowed;
      var r := Windowed(q[1..], now, horizon);
      forall j | 0 <= j < |r| ensures r[j].pointer != q[0].pointer {
        WindowMembers(q[1..], now, horizon, r[j]);
        var k :| 0 <= k < |q[1..]| && q[1..][k] == r[j];
        assert q[k + 1] == r[j];
      }
    }
  }

  predicate NoRepeats(s: seq<Pointer>) {
    forall i, j :: 0 <= i < j < |s| ==> s[i] != s[j]
  }

  lemma {:induction false} CountOnce(s: seq<Pointer>, x: Pointer)
    requires NoRepeats(s)
    ensures multiset(s)[x] == if x in s then 1 else 0
  {
    if s != [] {
      CountOnce(s[1..], x);
      assert s == [s[0]] + s[1..];
      assert s[0] !in s[1..];
    }
  }

  lemma SameMembersSameBag(a: seq<Pointer>, b: seq<Pointer>)
    requires NoRepeats(a) && NoRepeats(b) && forall x :: x in a <==> x in b
    ensures multiset(a) == multiset(b)
  {
    forall x ensures multiset(a)[x] == multiset(b)[x] {
      CountOnce(a, x);
      CountOnce(b, x);
    }
  }

  /** Without kills, a restart keeps exactly the queued pointers whose deadline is in the window. */
  lemma RestartKeeps(u: set<Bytes>, cfg: Config, s: Relay, order: seq<Bytes>, now: nat, s': Relay, h: Bytes)
    requires NoCollision(u) && Coherent(u, s.queues, s.disk.fenv) && WithinCap(s.queues, cfg.maxPerHandle)
    requires Reopened(cfg, s.disk, order, now, s')
    ensures Content(s', h) == multiset(Pointers(Windowed(QueueOf(s.queues, h), now, cfg.horizon)))
  {
    CoherentHold(u, s.queues, s.disk.fenv, cfg.maxPerHandle);
    OpenPart(s.disk.fenv, now, cfg.horizon);
    PartGood(u, OpenFiles(s.disk.fenv, now, cfg.horizon), s.disk.fenv, cfg.maxPerHandle);
    OpenedCoherent(u, cfg, s.disk, order, now, s');
    hide NoCollision, GoodHold, WithinCap, NoOrphans, Backed, Reopened, Windowed, Pointers, NoRepeats,
         DistinctPointers, DistinctCids;
    var q, q', w := QueueOf(s.queues, h), QueueOf(s'.queues, h), Windowed(QueueOf(s.queues, h), now, cfg.horizon);
    assert DistinctPointers(q) && DistinctPointers(q');
    WindowDistinct(q, now, cfg.horizon);
    forall x ensures x in Pointers(q') <==> x in Pointers(w) {
      RestartPointer(u, cfg, s, order, now, s', h, x);
    }
    NoRepeatedPointers(q');
    NoRepeatedPointers(w);
    SameMembersSameBag(Pointers(q'), Pointers(w));
  }

  lemma NoRepeatedPointers(q: Fifo)
    requires DistinctPointers(q)
    ensures NoRepeats(Pointers(q))
  {
  }

  lemma PointerAt(q: Fifo, p: Pointer) returns (i: nat)
    requires p in Pointers(q)
    ensures i < |q| && q[i].pointer == p && q[i] in q
  {
    var k :| 0 <= k < |q| && Pointers(q)[k] == p;
    i := k;
  }

  lemma PointerIn(q: Fifo, e: Queued)
    requires e in q
    ensures e.pointer in Pointers(q)
  {
    var k :| 0 <= k < |q| && q[k] == e;
    assert Pointers(q)[k] == e.pointer;
  }

  lemma RestartPointer(
    u: set<Bytes>, cfg: Config, s: Relay, order: seq<Bytes>, now: nat, s': Relay, h: Bytes, p: Pointer)
    requires NoCollision(u) && Coherent(u, s.queues, s.disk.fenv) && Reopened(cfg, s.disk, order, now, s')
    ensures p in Pointers(QueueOf(s'.queues, h)) <==>
            p in Pointers(Windowed(QueueOf(s.queues, h), now, cfg.horizon))
  {
    hide NoCollision, Windowed, Reopened, Names, Addressed, Indexed, Stores, Pointers, Outside, IsEntry;
    var q, q', w := QueueOf(s.queues, h), QueueOf(s'.queues, h), Windowed(QueueOf(s.queues, h), now, cfg.horizon);
    OpenedQueue(cfg, s.disk, order, now, s', h);
    if p in Pointers(q') {
      var i := PointerAt(q', p);
      KeptEntry(s.disk.fenv, q'[i], h, now, cfg.horizon);
      var k := EntryOfFile(u, s.queues, s.disk.fenv, q'[i].cid, h, p);
      WindowMembers(q, now, cfg.horizon, q[k]);
      PointerIn(w, q[k]);
    }
    if p in Pointers(w) {
      var i := PointerAt(w, p);
      WindowMembers(q, now, cfg.horizon, w[i]);
      assert BackedQueue(q, s.disk.fenv);
      FileOfEntry(u, s.queues, s.disk.fenv, h, w[i]);
      var e := EntryKept(s.disk.fenv, w[i].cid, h, p, now, cfg.horizon);
      PointerIn(q', e);
    }
  }

  // --- Conservation ---

  lemma PutBalances(cfg: Config, s: Relay, a: Admitted, tm: PutTimes, h: Bytes)
    requires IsHandle(a.handle)
    ensures Balanced(Content(s, h), if a.handle == h then PutPosting(cfg, s.queues, a, tm) else NOTHING,
                     Content(Stored(cfg, s, a, tm), h))
  {
    hide Put, Merge, Excess, Dead, Reap, ApplyAll, PutSteps, Pointers, RawOf;
    PutConserves(QueueOf(s.queues, a.handle), NewEntry(a, tm.receive), cfg.maxPerHandle, tm.reap);
  }

  lemma PopBalances(s: Relay, d: Drain, now: nat, h: Bytes)
    ensures Balanced(Content(s, h), if d.handle == h then PopPosting(s.queues, d, now) else NOTHING,
                     Content(Drained(s, d, now), h))
  {
    hide Dead, Reap, ApplyAll, PopSteps, Pointers, Taken;
    DrainConserves(QueueOf(s.queues, d.handle), DrainCount(s.queues, d, now), now);
    if d.handle !in s.queues {
      DrainConserves([], 0, now);
    }
  }

  /** A crash-free operation balances the books of every handle. */
  lemma NextBalances(u: set<Bytes>, cfg: Config, s: Relay, op: Op, s': Relay, h: Bytes)
    requires NoCollision(u) && WellFormed(cfg.limits, s.regs.table) && Within(u, cfg, s, op) && Next(cfg, s, op, s')
    requires Coherent(u, s.queues, s.disk.fenv) && WithinCap(s.queues, cfg.maxPerHandle) && !IsCrash(op)
    ensures Balanced(Content(s, h), PostingFor(cfg, s, op, h), Content(s', h))
  {
    hide NoCollision, Coherent, WithinCap, Within, Admit, Authorize, ApplyAll, Reopened, Drained, Stored,
         WellFormed, PutPosting, PopPosting, Windowed, Composted, Storable, Pointers, Balanced;
    Idle(Content(s, h));
    match op
    case DoFreg(_, _) =>
    case DoFput(req, ip, tm) =>
      if PutOf(cfg, s, op).Some? {
        var a := PutOf(cfg, s, op).value;
        PutIsStorable(u, cfg, s, op);
        StorableDecodes(u, a, tm);
        PutBalances(cfg, s.(wins := Admit(cfg, s, req, ip, tm).0), a, tm, h);
      }
    case DoFpop(req, ip, tm) =>
      if DrainOf(cfg, s, op).Some? {
        PopBalances(s.(wins := Authorize(cfg, s, req, ip, tm).0), DrainOf(cfg, s, op).value, tm.drain, h);
      }
    case DoRestart(order, now) =>
      RestartBalances(u, cfg, s, order, now, s', h);
  }

  lemma Idle(b: Bag)
    ensures Balanced(b, NOTHING, b)
  {
  }

  lemma RestartBalances(u: set<Bytes>, cfg: Config, s: Relay, order: seq<Bytes>, now: nat, s': Relay, h: Bytes)
    requires NoCollision(u) && Coherent(u, s.queues, s.disk.fenv) && WithinCap(s.queues, cfg.maxPerHandle)
    requires Reopened(cfg, s.disk, order, now, s')
    ensures Balanced(Content(s, h), PostingFor(cfg, s, DoRestart(order, now), h), Content(s', h))
  {
    hide NoCollision, Coherent, WithinCap, Reopened, Windowed, Composted, Pointers;
    RestartKeeps(u, cfg, s, order, now, s', h);
    WindowSplits(QueueOf(s.queues, h), now, cfg.horizon);
  }

  lemma Chain(a: Bag, e: Posting, b: Bag, f: Posting, c: Bag)
    requires Balanced(a, e, b) && Balanced(b, f, c)
    ensures Balanced(a, Sum(e, f), c)
  {
    forall x ensures (a + Sum(e, f).pushed)[x] ==
                     (c + Sum(e, f).delivered + Sum(e, f).evicted + Sum(e, f).expired)[x]
    {
      assert (a + e.pushed)[x] == (b + e.delivered + e.evicted + e.expired)[x];
      assert (b + f.pushed)[x] == (c + f.delivered + f.evicted + f.expired)[x];
    }
  }

  /** The books of the first `i` operations together. */
  function Books(cfg: Config, states: seq<Relay>, ops: seq<Op>, h: Bytes, i: nat): Posting
    requires i <= |ops| && |states| == |ops| + 1
  {
    if i == 0 then NOTHING else Sum(Books(cfg, states, ops, h, i - 1), PostingFor(cfg, states[i - 1], ops[i - 1], h))
  }

  /**
   * Conservation: over a run without kills, restarts included, what was queued at the start plus what
   * was pushed is what was delivered, evicted and expired plus what is queued now, pointer by pointer.
   */
  lemma {:induction false} Conservation(
    u: set<Bytes>, cfg: Config, hold: Disk, order: seq<Bytes>, now: nat, states: seq<Relay>, ops: seq<Op>, h: Bytes,
    i: nat)
    requires NoCollision(u) && GoodHold(u, OpenFiles(hold.fenv, now, cfg.horizon), cfg.maxPerHandle)
    requires IsRun(u, cfg, states, ops) && Reopened(cfg, hold, order, now, states[0]) && i <= |ops|
    requires forall j :: 0 <= j < i ==> !IsCrash(ops[j])
    ensures Balanced(Content(states[0], h), Books(cfg, states, ops, h, i), Content(states[i], h))
  {
    hide NoCollision, GoodHold, Reopened, Coherent, WithinCap, Within, Next, WellFormed, Content, PostingFor;
    if i > 0 {
      Conservation(u, cfg, hold, order, now, states, ops, h, i - 1);
      CrashFreeRunsAreCoherent(u, cfg, hold, order, now, states, ops, i - 1);
      RunKeepsShape(u, cfg, states, ops, i - 1);
      assert Moves(u, cfg, states[i - 1], ops[i - 1], states[i]);
      NextBalances(u, cfg, states[i - 1], ops[i - 1], states[i], h);
      Chain(Content(states[0], h), Books(cfg, states, ops, h, i - 1), Content(states[i - 1], h),
            PostingFor(cfg, states[i - 1], ops[i - 1], h), Content(states[i], h));
    }
  }

  // --- At most once, kills included ---

  function FilesFor(files: Files, h: Bytes, p: Pointer): set<Bytes> {
    set c | c in files && Stores(files[c], h, p)
  }

  /** The operation writes an envelope of `p` for `h`: a killed fput must have reached its rename. */
  function Persists(cfg: Config, s: Relay, op: Op, h: Bytes, p: Pointer): nat {
    if Renames(cfg, s, op, h, p) then 1 else 0
  }

  /** Copies of `p` that the operation hands out; a killed drain answers nobody. */
  function Handed(cfg: Config, s: Relay, op: Op, h: Bytes, p: Pointer): nat {
    if op.DoFpop? then
      match DrainOf(cfg, s, op)
      case Some(d) => if d.handle == h then multiset(Delivered(s.queues, d, op.pop.drain))[p] else 0
      case None => 0
    else 0
  }

  lemma {:induction false} CountAtMost(q: Fifo, files: set<Bytes>, p: Pointer)
    requires DistinctCids(q) && forall e :: e in q && e.pointer == p ==> e.cid in files
    ensures multiset(Pointers(q))[p] <= |files|
    decreases |q|
  {
    if q != [] {
      var k := |q| - 1;
      var last, rest := q[k], q[..k];
      assert q == rest + [last] && last in q;
      PointersSplit(rest, [last]);
      var fewer := if last.pointer == p then files - {last.cid} else files;
      forall e | e in rest && e.pointer == p ensures e.cid in fewer {
        var i :| 0 <= i < k && q[i] == e;
      }
      CountAtMost(rest, fewer, p);
    }
  }

  lemma {:induction false} CountAtLeast(q: Fifo, files: set<Bytes>, p: Pointer)
    requires forall c :: c in files ==> exists e :: e in q && e.cid == c && e.pointer == p
    ensures |files| <= multiset(Pointers(q))[p]
    decreases |q|
  {
    if q == [] {
      assert files == {};
    } else {
      var k := |q| - 1;
      var last, rest := q[k], q[..k];
      assert q == rest + [last];
      PointersSplit(rest, [last]);
      var fewer := if last.pointer == p then files - {last.cid} else files;
      forall c | c in fewer ensures exists e :: e in rest && e.cid == c && e.pointer == p {
        var e: Queued :| e in q && e.cid == c && e.pointer == p;
        assert e in rest;
      }
      CountAtLeast(rest, fewer, p);
    }
  }

  /** Never more files than index entries, for any pointer. */
  lemma FilesBounded(u: set<Bytes>, s: Relay, h: Bytes, p: Pointer)
    requires NoCollision(u) && NoOrphans(u, s.queues, s.disk.fenv)
    ensures |FilesFor(s.disk.fenv, h, p)| <= Content(s, h)[p]
  {
    hide NoCollision, NoOrphans, Stores, Pointers;
    var q := QueueOf(s.queues, h);
    forall c | c in FilesFor(s.disk.fenv, h, p) ensures exists e :: e in q && e.cid == c && e.pointer == p {
      var i := EntryOfFile(u, s.queues, s.disk.fenv, c, h, p);
      assert q[i] in q;
    }
    CountAtLeast(q, FilesFor(s.disk.fenv, h, p), p);
  }

  lemma OpenedBounded(cfg: Config, disk: Disk, order: seq<Bytes>, now: nat, s: Relay, h: Bytes, p: Pointer)
    requires Reopened(cfg, disk, order, now, s)
    ensures Content(s, h)[p] <= |FilesFor(OpenFiles(disk.fenv, now, cfg.horizon), h, p)|
  {
    hide Reopened, Stores, IsEntry, Pointers, Ascending, DistinctCids;
    OpenedQueue(cfg, disk, order, now, s, h);
    var q := QueueOf(s.queues, h);
    var files := FilesFor(OpenFiles(disk.fenv, now, cfg.horizon), h, p);
    forall e | e in q && e.pointer == p ensures e.cid in files {
      KeptEntry(disk.fenv, e, h, now, cfg.horizon);
    }
    CountAtMost(q, files, p);
  }

  /** The same bound by all files that were on disk before the restart and its killed tries. */
  lemma RestartedBounded(
    cfg: Config, disk: Disk, tries: seq<Try>, order: seq<Bytes>, now: nat, s: Relay, h: Bytes, p: Pointer)
    requires Restarted(cfg, disk, tries, order, now, s)
    ensures Content(s, h)[p] <= |FilesFor(disk.fenv, h, p)|
  {
    hide Reopened, Content, Stores, Kept;
    RestartFinds(cfg, disk, tries, order, now, s);
    var found := Found(cfg, disk, tries);
    OpenedBounded(cfg, found, order, now, s, h, p);
    SubsetSize(FilesFor(OpenFiles(found.fenv, now, cfg.horizon), h, p), FilesFor(disk.fenv, h, p));
  }

  /** A kill leaves at most one file more for the pointer being put, and no more for any other. */
  lemma KilledBounded(u: set<Bytes>, cfg: Config, s: Relay, op: Op, h: Bytes, p: Pointer)
    requires WellFormed(cfg.limits, s.regs.table) && Within(u, cfg, s, op)
    ensures op.CrashFput? && op.k <= |PutLog(cfg, s, op.req, op.ip, op.put)| ==>
            |FilesFor(ApplyAll(s.disk, PutLog(cfg, s, op.req, op.ip, op.put)[..op.k]).fenv, h, p)|
            <= |FilesFor(s.disk.fenv, h, p)| + Persists(cfg, s, op, h, p)
    ensures op.CrashFpop? && op.k <= |PopLog(cfg, s, op.req, op.ip, op.pop)| ==>
            |FilesFor(ApplyAll(s.disk, PopLog(cfg, s, op.req, op.ip, op.pop)[..op.k]).fenv, h, p)|
            <= |FilesFor(s.disk.fenv, h, p)|
  {
    hide ApplyAll, PutSteps, PopSteps, Admit, Authorize, RawOf, Stores, Within, WellFormed, PutStep, Taken, Storable;
    if op.CrashFput? && op.k <= |PutLog(cfg, s, op.req, op.ip, op.put)| {
      if PutOf(cfg, s, op).Some? {
        var a := PutOf(cfg, s, op).value;
        PutIsStorable(u, cfg, s, op);
        StorableDecodes(u, a, op.put);
        KilledPut(cfg, s, a, op.put, op.k);
        KilledPutFiles(u, cfg, s, a, op.put, op.k, h, p);
      } else {
        NothingApplied(s.disk, []);
      }
    }
    if op.CrashFpop? && op.k <= |PopLog(cfg, s, op.req, op.ip, op.pop)| {
      if DrainOf(cfg, s, op).Some? {
        var d := DrainOf(cfg, s, op).value;
        KilledPop(s, d, op.pop.drain, op.k);
        SubsetSize(FilesFor(ApplyAll(s.disk, PopSteps(s.queues, d, op.pop.drain)[..op.k]).fenv, h, p),
                   FilesFor(s.disk.fenv, h, p));
      } else {
        NothingApplied(s.disk, []);
      }
    }
  }

  lemma KilledPutFiles(u: set<Bytes>, cfg: Config, s: Relay, a: Admitted, tm: PutTimes, k: nat, h: Bytes, p: Pointer)
    requires Storable(u, a, tm) && k <= |PutSteps(cfg, s.queues, a, tm)|
    ensures |FilesFor(ApplyAll(s.disk, PutSteps(cfg, s.queues, a, tm)[..k]).fenv, h, p)|
            <= |FilesFor(s.disk.fenv, h, p)| + if a == Admitted(h, p) && k >= 2 then 1 else 0
  {
    hide ApplyAll, PutSteps, RawOf, Parse, HandleOf, PutStep;
    var raw := RawOf(a, tm.receive);
    KilledPut(cfg, s, a, tm, k);
    NewRaw(a, tm.receive);
    var before := FilesFor(s.disk.fenv, h, p);
    var after := FilesFor(ApplyAll(s.disk, PutSteps(cfg, s.queues, a, tm)[..k]).fenv, h, p);
    if a == Admitted(h, p) && k >= 2 {
      assert after <= before + {Cid(raw)};
      SubsetSize(after, before + {Cid(raw)});
    } else {
      SubsetSize(after, before);
    }
  }

  /** Any operation: copies queued and handed out grow by at most the envelopes it writes. */
  lemma NextBounded(u: set<Bytes>, cfg: Config, s: Relay, op: Op, s': Relay, h: Bytes, p: Pointer)
    requires NoCollision(u) && WellFormed(cfg.limits, s.regs.table) && Within(u, cfg, s, op) && Next(cfg, s, op, s')
    requires NoOrphans(u, s.queues, s.disk.fenv)
    ensures Content(s', h)[p] + Handed(cfg, s, op, h, p) <= Content(s, h)[p] + Persists(cfg, s, op, h, p)
  {
    hide NoCollision, NoOrphans, Within, Admit, Authorize, ApplyAll, Reopened, Restarted, PutLog, PopLog, FilesFor,
         Drained, Stored, WellFormed, Storable, Pointers, Delivered, PutPosting, PopPosting, Balanced, IsHandle;
    match op
    case DoFreg(_, _) =>
    case DoFput(req, ip, tm) =>
      if PutOf(cfg, s, op).Some? {
        var a := PutOf(cfg, s, op).value;
        PutIsStorable(u, cfg, s, op);
        StorableDecodes(u, a, tm);
        PutBounded(cfg, s.(wins := Admit(cfg, s, req, ip, tm).0), a, tm, h, p);
      }
    case DoFpop(req, ip, tm) =>
      if DrainOf(cfg, s, op).Some? {
        PopBounded(s.(wins := Authorize(cfg, s, req, ip, tm).0), DrainOf(cfg, s, op).value, tm.drain, h, p);
      }
    case DoRestart(order, now) =>
      NoTries(cfg, s.disk, order, now, s');
      RestartedBounded(cfg, s.disk, [], order, now, s', h, p);
      FilesBounded(u, s, h, p);
    case CrashRestart(tries, order, now) =>
      RestartedBounded(cfg, s.disk, tries, order, now, s', h, p);
      FilesBounded(u, s, h, p);
    case CrashFput(req, ip, tm, k, tries, order, now) =>
      RestartedBounded(cfg, ApplyAll(s.disk, PutLog(cfg, s, req, ip, tm)[..k]), tries, order, now, s', h, p);
      KilledBounded(u, cfg, s, op, h, p);
      FilesBounded(u, s, h, p);
    case CrashFpop(req, ip, tm, k, tries, order, now) =>
      RestartedBounded(cfg, ApplyAll(s.disk, PopLog(cfg, s, req, ip, tm)[..k]), tries, order, now, s', h, p);
      KilledBounded(u, cfg, s, op, h, p);
      FilesBounded(u, s, h, p);
  }

  lemma PutBounded(cfg: Config, s: Relay, a: Admitted, tm: PutTimes, h: Bytes, p: Pointer)
    requires IsHandle(a.handle)
    ensures Content(Stored(cfg, s, a, tm), h)[p] <= Content(s, h)[p] + if a == Admitted(h, p) then 1 else 0
  {
    hide Stored, Content, Merge, Excess, Dead, Pointers;
    PutBalances(cfg, s, a, tm, h);
    if a.handle == h {
      var e := PutPosting(cfg, s.queues, a, tm);
      assert e.pushed[p] <= if a == Admitted(h, p) then 1 else 0;
      assert (Content(s, h) + e.pushed)[p] ==
             (Content(Stored(cfg, s, a, tm), h) + e.delivered + e.evicted + e.expired)[p];
    } else {
      assert (Content(s, h) + multiset{})[p] ==
             (Content(Stored(cfg, s, a, tm), h) + multiset{} + multiset{} + multiset{})[p];
    }
  }

  lemma PopBounded(s: Relay, d: Drain, now: nat, h: Bytes, p: Pointer)
    ensures Content(Drained(s, d, now), h)[p] + (if d.handle == h then multiset(Delivered(s.queues, d, now))[p] else 0)
            <= Content(s, h)[p]
  {
    hide Drained, Content, Dead, Pointers, Delivered, Taken;
    PopBalances(s, d, now, h);
    var e := if d.handle == h then PopPosting(s.queues, d, now) else NOTHING;
    assert (Content(s, h) + e.pushed)[p] ==
           (Content(Drained(s, d, now), h) + e.delivered + e.evicted + e.expired)[p];
  }

  function TotalPersists(cfg: Config, states: seq<Relay>, ops: seq<Op>, h: Bytes, p: Pointer, i: nat): nat
    requires i <= |ops| && |states| == |ops| + 1
  {
    if i == 0 then 0 else TotalPersists(cfg, states, ops, h, p, i - 1) + Persists(cfg, states[i - 1], ops[i - 1], h, p)
  }

  function TotalHanded(cfg: Config, states: seq<Relay>, ops: seq<Op>, h: Bytes, p: Pointer, i: nat): nat
    requires i <= |ops| && |states| == |ops| + 1
  {
    if i == 0 then 0 else TotalHanded(cfg, states, ops, h, p, i - 1) + Handed(cfg, states[i - 1], ops[i - 1], h, p)
  }

  /**
   * At most once: in any run, with kills, what was handed out of a pointer and what is still queued of it
   * never exceed the files of it that the first `open` kept plus the fput calls that wrote it. A drained pointer does
   * not come back unless it is put again.
   */
  lemma {:induction false} AtMostOnce(
    u: set<Bytes>, cfg: Config, hold: Disk, order: seq<Bytes>, now: nat, states: seq<Relay>, ops: seq<Op>,
    h: Bytes, p: Pointer, i: nat)
    requires NoCollision(u) && Addressed(u, OpenFiles(hold.fenv, now, cfg.horizon))
    requires IsRun(u, cfg, states, ops) && Reopened(cfg, hold, order, now, states[0]) && i <= |ops|
    ensures TotalHanded(cfg, states, ops, h, p, i) + Content(states[i], h)[p]
            <= |FilesFor(OpenFiles(hold.fenv, now, cfg.horizon), h, p)| + TotalPersists(cfg, states, ops, h, p, i)
  {
    hide NoCollision, Addressed, Reopened, NoOrphans, Within, Next, WellFormed, Content, Persists, Handed, FilesFor;
    if i == 0 {
      OpenedBounded(cfg, hold, order, now, states[0], h, p);
    } else {
      AtMostOnce(u, cfg, hold, order, now, states, ops, h, p, i - 1);
      RunsHaveNoOrphans(u, cfg, hold, order, now, states, ops, i - 1);
      RunKeepsShape(u, cfg, states, ops, i - 1);
      assert Moves(u, cfg, states[i - 1], ops[i - 1], states[i]);
      NextBounded(u, cfg, states[i - 1], ops[i - 1], states[i], h, p);
    }
  }
}
