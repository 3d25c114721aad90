/** The three verbs in a row: what is put at a registered handle is what its owner pops. */
module Delivery {
  import opened Basics
  import opened Text
  import opened Json
  import opened Envelope
  import opened Limiter
  import opened Registry
  import opened Queue
  import opened Hold
  import opened Relay
  import opened Runs
  import opened Answers

  /** The first entry of an empty queue stays if it is live and there is room for one. */
  lemma FirstPut(e: Queued, cap: nat, now: nat)
    requires cap >= 1 && e.deadline > now
    ensures Put([], e, cap, now).queue == [e]
  {
    var one := [e];
    assert Merge([], e) == one && Excess([], e, cap) == 0 && one[0..] == one && one[1..] == [];
    assert Reap(one, now) == one + Reap([], now);
  }

  lemma OneLive(e: Queued, now: nat, m: nat)
    requires e.deadline > now && m >= 1
    ensures FirstLive([e], now, m) == [e.pointer]
  {
    assert [e][1..] == [];
    assert Reap([e], now) == [e] && Pointers([e]) == [e.pointer];
    assert [e.pointer][..1] == [e.pointer];
  }

  /** What is left when the one pointer is handed out. */
  lemma NothingLeft(e: Queued, now: nat, n: nat)
    requires n <= 1 && Pointers(Reap([e][..n], now)) == [e.pointer]
    ensures [e][n..] == []
  {
    assert |Reap([e][..n], now)| <= n;
  }

  /** The registration after an accepted freg, by its answer. */
  lemma Registered(cfg: Config, s: Relay, s': Relay, req: Json, now: nat)
    requires WellFormed(cfg.limits, s.regs.table) && Next(cfg, s, DoFreg(req, now), s')
    requires RunFreg(cfg, s, req, now).1.Ok?
    ensures StrField(req, "handle").Some? && |StrField(req, "handle").value| == 64 && StrField(req, "token").Some?
    ensures var h := Lower(StrField(req, "handle").value);
            && h in s'.regs.table && Some(s'.regs.table[h].token) == StrField(req, "token")
            && Some(s'.regs.table[h].expires) == U64Field(RunFreg(cfg, s, req, now).1.value, "expires")
            && s'.queues == s.queues && s'.wins == s.wins && s'.disk == s.disk
  {
    hide HexDecode, Lower, Sweep, StrField, U64Field, WellFormed;
    RegisteredAnswer(cfg, s, req, now);
    FregExactly(cfg, s, req, now);
  }

  /** The queue after an fput that is queued at an empty one. */
  lemma Put1(cfg: Config, s: Relay, s': Relay, req: Json, ip: Bytes, tm: PutTimes, id: Bytes, mid: Bytes, d: nat)
    requires WellFormed(cfg.limits, s.regs.table) && Next(cfg, s, DoFput(req, ip, tm), s') && cfg.maxPerHandle >= 1
    requires |id| == 32 && |mid| == 64 && d < TWO_64 && QueueOf(s.queues, HexEncode(id)) == []
    requires StrField(req, "handle").Some? && |StrField(req, "handle").value| == 64
    requires Lower(StrField(req, "handle").value) == HexEncode(id)
    requires StrField(req, "pointer_hex") == Some(HexEncode([1, 0] + mid + LittleEndian(d, 8)))
    requires Registry.Live(s.regs.table, HexEncode(id), tm.lease)
    requires Touch(cfg.fputRate, s.wins, Call(ip, tm.rate)).1
    requires tm.accept < d <= tm.accept + cfg.horizon && tm.reap < d
    ensures s'.regs == s.regs
    ensures exists e :: QueueOf(s'.queues, HexEncode(id)) == [e] && e.pointer == PointerOf(mid, d) && e.deadline == d
  {
    hide HexDecode, HexEncode, Lower, StrField, WellFormed, Touch, LittleEndian, ApplyAll, Put, RunFput, Admit;
    QueuedInWindow(cfg, s, req, ip, tm, mid, d);
    QueuedWrites(cfg, s, req, ip, tm, id, mid, d);
    var raw: Bytes := [1] + id + [1, 0] + mid + LittleEndian(d, 8) + LittleEndian(tm.receive, 8);
    var e := Queued(PointerOf(mid, d), HexEncode(Sha256(raw)), d, tm.receive);
    FirstPut(e, cfg.maxPerHandle, tm.reap);
    assert QueueOf(s'.queues, HexEncode(id)) == [e];
  }

  /** A drain of a queue of one live pointer. */
  lemma Pop1(cfg: Config, s: Relay, s': Relay, req: Json, ip: Bytes, tm: PopTimes, h: Bytes, e: Queued)
    requires WellFormed(cfg.limits, s.regs.table) && Next(cfg, s, DoFpop(req, ip, tm), s')
    requires QueueOf(s.queues, h) == [e] && e.deadline > tm.drain
    requires StrField(req, "handle").Some? && |StrField(req, "handle").value| == 64
    requires Lower(StrField(req, "handle").value) == h
    requires Registry.Live(s.regs.table, h, tm.lease) && StrField(req, "token") == Some(s.regs.table[h].token)
    requires Touch(cfg.fputRate, s.wins, Call(ip, tm.rate)).1 && U64Field(req, "max") != Some(0)
    ensures var r := RunFpop(cfg, s, req, ip, tm).1;
            r.Ok? && ReadPointers(r.value) == Some([e.pointer]) && QueueOf(s'.queues, h) == []
  {
    hide Lower, StrField, U64Field, WellFormed, Touch, RunFpop, ReadPointers, Reap, Pointers, FirstLive;
    PopIsAuthorised(cfg, s, req, ip, tm);
    PoppedAnswer(cfg, s, req, ip, tm);
    OneLive(e, tm.drain, Wanted(req));
    var n :| 0 <= n <= 1 && QueueOf(s'.queues, h) == [e][n..]
             && Pointers(Reap([e][..n], tm.drain)) == FirstLive([e], tm.drain, Wanted(req));
    NothingLeft(e, tm.drain, n);
  }

  lemma PopIsAuthorised(cfg: Config, s: Relay, req: Json, ip: Bytes, tm: PopTimes)
    requires StrField(req, "handle").Some? && |StrField(req, "handle").value| == 64
    requires Registry.Live(s.regs.table, Lower(StrField(req, "handle").value), tm.lease)
    requires StrField(req, "token") == Some(s.regs.table[Lower(StrField(req, "handle").value)].token)
    requires Touch(cfg.fputRate, s.wins, Call(ip, tm.rate)).1
    ensures RunFpop(cfg, s, req, ip, tm).1.Ok?
  {
    hide Lower, StrField, Touch, RunFpop;
    FpopExactly(cfg, s, req, ip, tm);
  }

  /**
   * A handle is registered, a pointer is put at its empty queue, and its owner pops: all before the registration and
   * the pointer expire and within the rate. The owner then reads exactly that pointer, and the queue is empty again.
   */
  lemma SentIsDelivered(cfg: Config, s0: Relay, s1: Relay, s2: Relay, s3: Relay, reg: Json, now: nat,
                        put: Json, putIp: Bytes, ptm: PutTimes, pop: Json, popIp: Bytes, qtm: PopTimes,
                        id: Bytes, mid: Bytes, d: nat)
    requires WellFormed(cfg.limits, s0.regs.table) && Next(cfg, s0, DoFreg(reg, now), s1)
    requires WellFormed(cfg.limits, s1.regs.table) && Next(cfg, s1, DoFput(put, putIp, ptm), s2)
    requires WellFormed(cfg.limits, s2.regs.table) && Next(cfg, s2, DoFpop(pop, popIp, qtm), s3)
    requires cfg.maxPerHandle >= 1 && |id| == 32 && |mid| == 64 && d < TWO_64
    requires QueueOf(s0.queues, HexEncode(id)) == []
    requires RunFreg(cfg, s0, reg, now).1.Ok? && U64Field(RunFreg(cfg, s0, reg, now).1.value, "expires").Some?
    requires StrField(reg, "handle").Some? && Lower(StrField(reg, "handle").value) == HexEncode(id)
    requires StrField(put, "handle") == StrField(reg, "handle") == StrField(pop, "handle")
    requires StrField(pop, "token") == StrField(reg, "token") && U64Field(pop, "max") != Some(0)
    requires StrField(put, "pointer_hex") == Some(HexEncode([1, 0] + mid + LittleEndian(d, 8)))
    requires ptm.lease < U64Field(RunFreg(cfg, s0, reg, now).1.value, "expires").value
    requires qtm.lease < U64Field(RunFreg(cfg, s0, reg, now).1.value, "expires").value
    requires Touch(cfg.fputRate, s1.wins, Call(putIp, ptm.rate)).1
    requires Touch(cfg.fputRate, s2.wins, Call(popIp, qtm.rate)).1
    requires ptm.accept < d <= ptm.accept + cfg.horizon && ptm.reap < d && qtm.drain < d
    ensures var r := RunFpop(cfg, s2, pop, popIp, qtm).1;
            r.Ok? && ReadPointers(r.value) == Some([PointerOf(mid, d)])
    ensures QueueOf(s3.queues, HexEncode(id)) == []
  {
    hide HexEncode, Lower, StrField, U64Field, WellFormed, Touch, LittleEndian, RunFreg, RunFput, RunFpop, ReadPointers,
         Next;
    Registered(cfg, s0, s1, reg, now);
    Put1(cfg, s1, s2, put, putIp, ptm, id, mid, d);
    var e :| QueueOf(s2.queues, HexEncode(id)) == [e] && e.pointer == PointerOf(mid, d) && e.deadline == d;
    Pop1(cfg, s2, s3, pop, popIp, qtm, HexEncode(id), e);
  }
}
