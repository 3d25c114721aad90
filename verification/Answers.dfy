/**
 * The relay verbs as their callers see them: which answer each request gets, in the exact words, read from the
 * fields and bytes of the request, and what a client finds in it, directly or over rpc2.
 */
module Answers {
  import opened Basics
  import opened Text
  import opened Json
  import opened Cbor
  import opened CborRoundTrip
  import opened Envelope
  import opened Limiter
  import opened Registry
  import opened Queue
  import opened Hold
  import opened Restart
  import opened Relay
  import opened Runs
  import opened Ledger

  // --- Bytes ---

  /** The little-endian u64 at offset `i`. */
  function U64At(b: Bytes, i: nat): (n: nat)
    requires i + 8 <= |b|
  {
    var v: seq<nat> := b[i..i + 8];
    v[0] + 0x100 * v[1] + 0x1_0000 * v[2] + 0x100_0000 * v[3] + 0x1_0000_0000 * v[4] + 0x100_0000_0000 * v[5]
      + 0x1_0000_0000_0000 * v[6] + 0x100_0000_0000_0000 * v[7]
  }

  lemma EightBytes(b: Bytes)
    requires |b| == 8
    ensures FromLittleEndian(b) == U64At(b, 0)
  {
    assert b[1..][1..] == b[2..] && b[2..][1..] == b[3..] && b[3..][1..] == b[4..];
    assert b[4..][1..] == b[5..] && b[5..][1..] == b[6..] && b[6..][1..] == b[7..] && b[7..][1..] == [];
    assert FromLittleEndian(b[7..]) == b[7];
    assert FromLittleEndian(b[6..]) == b[6] + 256 * FromLittleEndian(b[7..]);
    assert FromLittleEndian(b[5..]) == b[5] + 256 * FromLittleEndian(b[6..]);
    assert FromLittleEndian(b[4..]) == b[4] + 256 * FromLittleEndian(b[5..]);
    assert FromLittleEndian(b[3..]) == b[3] + 256 * FromLittleEndian(b[4..]);
    assert FromLittleEndian(b[2..]) == b[2] + 256 * FromLittleEndian(b[3..]);
    assert FromLittleEndian(b[1..]) == b[1] + 256 * FromLittleEndian(b[2..]);
  }

  lemma U64Slice(b: Bytes, i: nat)
    requires i + 8 <= |b|
    ensures FromLittleEndian(b[i..i + 8]) == U64At(b, i)
  {
    hide FromLittleEndian;
    var s := b[i..i + 8];
    EightBytes(s);
  }

  /** The eight bytes of a number, least significant first, are read as that number. */
  lemma U64Written(a: Bytes, d: nat, z: Bytes)
    requires d < TWO_64
    ensures U64At(a + LittleEndian(d, 8) + z, |a|) == d
  {
    hide FromLittleEndian, LittleEndian, U64At, Pow256;
    PowValues();
    LittleEndianRoundTrip(d, 8);
    var b := a + LittleEndian(d, 8) + z;
    assert b[|a|..|a| + 8] == LittleEndian(d, 8);
    U64Slice(b, |a|);
  }

  lemma DeadlineAt(p: Pointer)
    ensures Deadline(p) == U64At(p, 66)
  {
    hide FromLittleEndian, U64At;
    U64Slice(p, 66);
  }

  /** Letters A to Z are folded, every other byte stays. */
  lemma LowerExactly(b: Bytes, i: nat)
    requires i < |b|
    ensures Lower(b)[i] == if 0x41 <= b[i] <= 0x5A then b[i] + 0x20 else b[i]
  {
  }

  // --- fput ---

  /**
   * Every answer of fput, in the order of its checks: the deadline is the little-endian number in bytes
   * 66 to 73 of the pointer, the header its first two bytes.
   */
  lemma FputExactly(cfg: Config, s: Relay, req: Json, ip: Bytes, tm: PutTimes)
    requires WellFormed(cfg.limits, s.regs.table)
    ensures var handle, hex := StrField(req, "handle"), StrField(req, "pointer_hex");
            var t, h := s.regs.table, if handle.Some? then Lower(handle.value) else [];
            var p := if hex.Some? && |hex.value| == 148 then HexDecode(hex.value) else None;
            RunFput(cfg, s, req, ip, tm).1 ==
            if handle.None? then Err("400 fput needs handle")
            else if |handle.value| != 64 then Err("400 handle must be 32-byte hex")
            else if h !in t then Err("404 unknown handle")
            else if t[h].expires <= tm.lease then Err("404 handle lease expired")
            else if !Touch(cfg.fputRate, s.wins, Call(ip, tm.rate)).1 then Err("429 fput rate")
            else if hex.None? then Err("400 fput needs pointer_hex")
            else if p.None? then Err("400 pointer must be 74-byte hex")
            else if p.value[0] != 1 || p.value[1] != 0 then Err("400 bad pointer payload header")
            else if U64At(p.value, 66) == 0 then Err("400 zero pointer deadline")
            else if U64At(p.value, 66) <= tm.accept then Err("410 gone")
            else if U64At(p.value, 66) > tm.accept + cfg.horizon then Err("400 deadline beyond horizon cap")
            else Ok(Obj(Entry(Ascii("queued"), Bool(true), Empty)))
  {
    hide U64At, HexDecode, Lower, Touch, Deadline, WellFormed, Stored;
    var hex := StrField(req, "pointer_hex");
    if hex.Some? && |hex.value| == 148 && HexDecode(hex.value).Some? {
      DeadlineAt(HexDecode(hex.value).value);
    }
  }

  /** A v1 pointer with these 64 bytes between its header and its deadline. */
  function PointerOf(mid: Bytes, d: nat): (p: Pointer)
    requires |mid| == 64
  {
    [1, 0] + mid + LittleEndian(d, 8)
  }

  lemma PointerBytes(mid: Bytes, d: nat)
    requires |mid| == 64 && d < TWO_64
    ensures PointerHeader(PointerOf(mid, d)) && U64At(PointerOf(mid, d), 66) == d
  {
    hide U64At, LittleEndian;
    U64Written([1, 0] + mid, d, []);
    assert [1, 0] + mid + LittleEndian(d, 8) + [] == PointerOf(mid, d);
  }

  /** At a live handle and within the rate, a v1 pointer is queued exactly when its deadline is in the window. */
  lemma QueuedInWindow(cfg: Config, s: Relay, req: Json, ip: Bytes, tm: PutTimes, mid: Bytes, d: nat)
    requires WellFormed(cfg.limits, s.regs.table) && |mid| == 64 && d < TWO_64
    requires StrField(req, "handle").Some? && |StrField(req, "handle").value| == 64
    requires Registry.Live(s.regs.table, Lower(StrField(req, "handle").value), tm.lease)
    requires Touch(cfg.fputRate, s.wins, Call(ip, tm.rate)).1
    requires StrField(req, "pointer_hex") == Some(HexEncode([1, 0] + mid + LittleEndian(d, 8)))
    ensures RunFput(cfg, s, req, ip, tm).1.Ok? <==> tm.accept < d <= tm.accept + cfg.horizon
    ensures tm.accept < d <= tm.accept + cfg.horizon ==>
            Admit(cfg, s, req, ip, tm).1 ==
              Ok(Admitted(Lower(StrField(req, "handle").value), PointerOf(mid, d)))
  {
    hide U64At, HexDecode, HexEncode, Lower, Touch, Deadline, WellFormed, Stored, LittleEndian;
    var p := PointerOf(mid, d);
    HexRoundTrip(p);
    PointerBytes(mid, d);
    DeadlineAt(p);
    FputExactly(cfg, s, req, ip, tm);
  }

  /**
   * A queued fput writes one envelope, version 1, the 32 bytes of the handle, the pointer and the receive time,
   * under the hex digest of these bytes, and puts its entry on the queue of that handle; it touches one rate
   * window, no registration and no other queue.
   */
  lemma QueuedWrites(cfg: Config, s: Relay, req: Json, ip: Bytes, tm: PutTimes, id: Bytes, mid: Bytes, d: nat)
    requires WellFormed(cfg.limits, s.regs.table) && |id| == 32 && |mid| == 64 && d < TWO_64
    requires Admit(cfg, s, req, ip, tm).1 == Ok(Admitted(HexEncode(id), [1, 0] + mid + LittleEndian(d, 8)))
    ensures var s' := RunFput(cfg, s, req, ip, tm).0;
            var h, p := HexEncode(id), [1, 0] + mid + LittleEndian(d, 8);
            var raw: Bytes := [1] + id + [1, 0] + mid + LittleEndian(d, 8) + LittleEndian(tm.receive, 8);
            var name := HexEncode(Sha256(raw));
            var step := Put(QueueOf(s.queues, h), Queued(p, name, d, tm.receive), cfg.maxPerHandle, tm.reap);
            && s'.regs == s.regs && s'.wins == Touch(cfg.fputRate, s.wins, Call(ip, tm.rate)).0
            && s'.queues == s.queues[h := step.queue]
            && s'.disk == ApplyAll(s.disk, [WriteTmp(name, raw), Rename(name)] + RemoveSteps(step.drops))
  {
    hide U64At, HexDecode, HexEncode, Lower, Touch, LittleEndian, WellFormed, Put, ApplyAll, RemoveSteps, Deadline;
    var p := PointerOf(mid, d);
    HexRoundTrip(id);
    PointerBytes(mid, d);
    DeadlineAt(p);
    AdmittedTouch(cfg, s, req, ip, tm);
    hide Admit;
    assert Marshal(Envelope(id, p, tm.receive)) ==
           [1] + id + [1, 0] + mid + LittleEndian(d, 8) + LittleEndian(tm.receive, 8);
  }

  lemma AdmittedTouch(cfg: Config, s: Relay, req: Json, ip: Bytes, tm: PutTimes)
    requires Admit(cfg, s, req, ip, tm).1.Ok?
    ensures Admit(cfg, s, req, ip, tm).0 == Touch(cfg.fputRate, s.wins, Call(ip, tm.rate)).0
  {
    hide Touch, CheckPointer, Lower;
  }

  // --- open ---

  /** The bytes of an envelope file. */
  function FileOf(id: Bytes, mid: Bytes, d: nat, t: nat): (raw: Bytes)
    requires |id| == 32 && |mid| == 64
    ensures |raw| == 115
  {
    [1] + id + [1, 0] + mid + LittleEndian(d, 8) + LittleEndian(t, 8)
  }

  lemma FileParses(id: Bytes, mid: Bytes, d: nat, t: nat)
    requires |id| == 32 && |mid| == 64 && d < TWO_64 && t < TWO_64
    ensures Parse(FileOf(id, mid, d, t)) == Ok(Envelope(id, PointerOf(mid, d), t))
    ensures Deadline(PointerOf(mid, d)) == d
  {
    hide LittleEndian, U64At, Deadline, Parse;
    PointerBytes(mid, d);
    DeadlineAt(PointerOf(mid, d));
    var e := Envelope(id, PointerOf(mid, d), t);
    assert Marshal(e) == FileOf(id, mid, d, t);
    ParseUndoesMarshal(e);
  }

  /** Every file that parses has this form. */
  lemma ParsedIsFile(raw: Bytes)
    requires Parse(raw).Ok?
    ensures var mid, d, t := raw[35..99], U64At(raw, 99), U64At(raw, 107);
            d < TWO_64 && t < TWO_64 && raw == FileOf(raw[1..33], mid, d, t)
  {
    hide U64At, LittleEndian, FromLittleEndian, Pow256;
    PowValues();
    FromLittleEndianRoundTrip(raw[99..107]);
    FromLittleEndianRoundTrip(raw[107..115]);
    U64Slice(raw, 99);
    U64Slice(raw, 107);
    assert raw == [raw[0]] + raw[1..33] + [raw[33], raw[34]] + raw[35..99] + raw[99..107] + raw[107..115];
  }

  /**
   * What `open` makes of a file, by its bytes: kept exactly when the deadline in it is in the window, and then
   * queued for the handle in it, under the name of the file, with the receive time in it.
   */
  lemma OpenReadsBytes(cfg: Config, disk: Disk, order: seq<Bytes>, now: nat, s: Relay, c: Bytes,
                       id: Bytes, mid: Bytes, d: nat, t: nat)
    requires Reopened(cfg, disk, order, now, s) && c in disk.fenv
    requires |id| == 32 && |mid| == 64 && d < TWO_64 && t < TWO_64
    requires disk.fenv[c] == [1] + id + [1, 0] + mid + LittleEndian(d, 8) + LittleEndian(t, 8)
    ensures s.regs == RegState(map[], 0) && s.wins == map[] && s.disk.tmp == disk.tmp
    ensures c in s.disk.fenv <==> now < d <= now + cfg.horizon
    ensures forall h, e: Queued :: e.cid == c ==>
              (e in QueueOf(s.queues, h) <==>
               now < d <= now + cfg.horizon && h == HexEncode(id)
               && e == Queued([1, 0] + mid + LittleEndian(d, 8), c, d, t))
  {
    hide LittleEndian, Parse, Deadline, HexEncode, IsRebuilt, Ascending, DistinctCids, IsListing;
    FileParses(id, mid, d, t);
    assert disk.fenv[c] == FileOf(id, mid, d, t);
    forall h, e: Queued | e.cid == c
      ensures e in QueueOf(s.queues, h) <==>
              now < d <= now + cfg.horizon && h == HexEncode(id) && e == Queued(PointerOf(mid, d), c, d, t)
    {
      OpenedQueue(cfg, disk, order, now, s, h);
    }
  }

  /** A file of any other form is removed, and nothing is queued under its name. */
  lemma OpenRemovesRest(cfg: Config, disk: Disk, order: seq<Bytes>, now: nat, s: Relay, c: Bytes)
    requires Reopened(cfg, disk, order, now, s) && c in disk.fenv
    requires forall id: Bytes, mid: Bytes, d: nat, t: nat ::
               |id| == 32 && |mid| == 64 && d < TWO_64 && t < TWO_64 ==>
               disk.fenv[c] != [1] + id + [1, 0] + mid + LittleEndian(d, 8) + LittleEndian(t, 8)
    ensures c !in s.disk.fenv && forall h, e: Queued :: e in QueueOf(s.queues, h) ==> e.cid != c
  {
    hide LittleEndian, Parse, Deadline, HexEncode, IsRebuilt, Ascending, DistinctCids, IsListing, U64At;
    var raw := disk.fenv[c];
    if Parse(raw).Ok? {
      ParsedIsFile(raw);
      assert false;
    }
    forall h, e: Queued | e in QueueOf(s.queues, h) ensures e.cid != c {
      OpenedQueue(cfg, disk, order, now, s, h);
    }
  }

  // --- freg ---

  /** The entries that have not expired, when a sweep is due; otherwise all of them. */
  lemma SweptExactly(s: RegState, now: nat, h: Bytes)
    ensures var t := if now > s.lastSweep then Sweep(s.table, now) else s.table;
            (h in t <==> h in s.table && (now > s.lastSweep ==> s.table[h].expires > now))
            && (h in t ==> t[h] == s.table[h])
  {
  }

  /**
   * Every answer of freg, in the order of its checks. An accepted one installs the token of the request for its
   * lease, an hour unless it says otherwise, but never for longer than the cap; a live handle is renewed exactly
   * by its current token, and a new one only taken within the budget.
   */
  lemma FregExactly(cfg: Config, s: Relay, req: Json, now: nat)
    ensures var handle, token := StrField(req, "handle"), StrField(req, "token");
            var prev := match StrField(req, "prev_token") case Some(p) => p case None => [];
            var lease := match U64Field(req, "lease") case Some(l) => l case None => 3600;
            var until := now + if lease <= cfg.limits.maxLease then lease else cfg.limits.maxLease;
            var h := if handle.Some? then Lower(handle.value) else [];
            var t := if now > s.regs.lastSweep then Sweep(s.regs.table, now) else s.regs.table;
            var last := if now > s.regs.lastSweep then now else s.regs.lastSweep;
            RunFreg(cfg, s, req, now) ==
            if handle.None? then (s, Err("400 freg needs handle"))
            else if |handle.value| != 64 || HexDecode(handle.value).None? then
              (s, Err("400 handle must be 32-byte hex"))
            else if token.None? then (s, Err("400 freg needs token"))
            else if |token.value| < 16 || |token.value| > 128 then (s, Err("400 token must be 16..=128 bytes"))
            else if h in t && t[h].expires > now && t[h].token != prev then
              (s.(regs := RegState(t, last)), Err("403 live registration: prev_token required"))
            else if !(h in t && t[h].expires > now) && |t| >= cfg.limits.maxRegs then
              (s.(regs := RegState(t, last)), Err("503 fabric registry full"))
            else
              (s.(regs := RegState(t[h := Registration(token.value, until)], last)),
               Ok(Obj(Entry(Ascii("expires"), UInt(until), Entry(Ascii("token"), Str(token.value), Empty)))))
  {
    hide HexDecode, Lower, Sweep, FregAnswer;
    if CheckFreg(req).Ok? {
      FregFields(CheckFreg(req).value.token, Expiry(cfg.limits, CheckFreg(req).value, now));
    }
  }

  /** The two members in the order of a BTreeMap, and how they are read. */
  lemma FregFields(token: Bytes, until: nat)
    ensures FregAnswer(token, until) ==
            Obj(Entry(Ascii("expires"), UInt(until), Entry(Ascii("token"), Str(token), Empty)))
    ensures StrField(FregAnswer(token, until), "token") == Some(token)
    ensures U64Field(FregAnswer(token, until), "expires") == Some(until)
  {
    assert Ascii("expires")[0] == 101 && Ascii("token")[0] == 116;
    var e, t := Ascii("expires"), Ascii("token");
    assert Less(e, t) && e != t;
    hide Ascii;
    var one := Insert(Empty, t, Str(token));
    assert one == Entry(t, Str(token), Empty);
    assert Insert(one, e, UInt(until)) == Entry(e, UInt(until), one);
    assert Lookup(Entry(e, UInt(until), one), t) == Lookup(one, t) == Some(Str(token));
  }

  /** The client of an accepted freg is told the token it presented and the second its registration ends. */
  lemma RegisteredAnswer(cfg: Config, s: Relay, req: Json, now: nat)
    requires RunFreg(cfg, s, req, now).1.Ok?
    ensures StrField(req, "handle").Some? && StrField(req, "token").Some?
    ensures var table, h := RunFreg(cfg, s, req, now).0.regs.table, Lower(StrField(req, "handle").value);
            var answer := RunFreg(cfg, s, req, now).1.value;
            var lease := match U64Field(req, "lease") case Some(l) => l case None => 3600;
            var until := now + if lease <= cfg.limits.maxLease then lease else cfg.limits.maxLease;
            && h in table && table[h] == Registration(StrField(req, "token").value, until)
            && StrField(answer, "token") == StrField(req, "token") && U64Field(answer, "expires") == Some(until)
  {
    hide HexDecode, Lower, Sweep, FregAnswer, StrField, U64Field;
    var f := CheckFreg(req).value;
    FregFields(f.token, Expiry(cfg.limits, f, now));
  }

  /** A live handle is renewed exactly by who presents its current token, in whatever state the budget is. */
  lemma RenewedExactly(cfg: Config, s: Relay, req: Json, now: nat)
    requires StrField(req, "handle").Some? && |StrField(req, "handle").value| == 64
    requires HexDecode(StrField(req, "handle").value).Some?
    requires StrField(req, "token").Some? && 16 <= |StrField(req, "token").value| <= 128
    requires Registry.Live(s.regs.table, Lower(StrField(req, "handle").value), now)
    ensures RunFreg(cfg, s, req, now).1.Ok? <==>
            s.regs.table[Lower(StrField(req, "handle").value)].token ==
              match StrField(req, "prev_token") case Some(p) => p case None => []
  {
    hide HexDecode, Lower, StrField, RunFreg, Sweep;
    FregExactly(cfg, s, req, now);
    SweptExactly(s.regs, now, Lower(StrField(req, "handle").value));
  }

  // --- fpop ---

  /** Every answer of fpop, in the order of its checks, but for the pointers that a good one carries. */
  lemma FpopExactly(cfg: Config, s: Relay, req: Json, ip: Bytes, tm: PopTimes)
    ensures var handle := StrField(req, "handle");
            var token := match StrField(req, "token") case Some(t) => t case None => [];
            var t, h := s.regs.table, if handle.Some? then Lower(handle.value) else [];
            var (s', r) := RunFpop(cfg, s, req, ip, tm);
            if handle.None? then r == Err("400 fpop needs handle") && s' == s
            else if |handle.value| != 64 then r == Err("400 handle must be 32-byte hex") && s' == s
            else
              s'.wins == Touch(cfg.fputRate, s.wins, Call(ip, tm.rate)).0
              && if !Touch(cfg.fputRate, s.wins, Call(ip, tm.rate)).1 then
                   r == Err("429 fpop rate") && s' == s.(wins := s'.wins)
                 else if h !in t then r == Err("404 unknown handle") && s' == s.(wins := s'.wins)
                 else if t[h].expires <= tm.lease || t[h].token != token then
                   r == Err("403 wrong token") && s' == s.(wins := s'.wins)
                 else r.Ok?
  {
    hide Touch, Lower, ApplyAll, DrainCount, Delivered, PopAnswer;
  }

  /** How many pointers an fpop asks for: 8 unless it says otherwise, and never more than 64. */
  function Wanted(req: Json): (m: nat)
    ensures m <= 64
  {
    match U64Field(req, "max")
    case Some(n) => if n > 64 then 64 else n
    case None => 8
  }

  /** The pointers that a client reads in an answer; None when it is not of the promised form. */
  function ReadPointers(answer: Json): Option<seq<Bytes>> {
    match Get(answer, "pointers")
    case Some(Arr(items)) => HexItems(items)
    case _ => None
  }

  function HexItems(items: seq<Json>): (r: Option<seq<Bytes>>)
    ensures r.Some? ==> |r.value| == |items|
  {
    if items == [] then Some([]) else
    match (AsStr(Some(items[0])), HexItems(items[1..]))
    case (Some(text), Some(rest)) => if HexDecode(text).Some? then Some([HexDecode(text).value] + rest) else None
    case _ => None
  }

  lemma {:induction false} TextsRead(ps: seq<Pointer>)
    ensures HexItems(HexTexts(ps)) == Some(ps)
  {
    if ps == [] {
      assert HexTexts(ps) == [];
    } else {
      hide HexDecode, HexEncode;
      HexRoundTrip(ps[0]);
      TextsRead(ps[1..]);
      assert HexTexts(ps)[1..] == HexTexts(ps[1..]) && HexTexts(ps)[0] == Str(HexEncode(ps[0]));
      assert ps == [ps[0]] + ps[1..];
    }
  }

  /** The first pointers of the live ones of a queue, in their order, at most `m` of them. */
  function FirstLive(q: Fifo, now: nat, m: nat): (ps: seq<Pointer>)
    ensures |ps| <= m
  {
    var live := Pointers(Reap(q, now));
    if m <= |live| then live[..m] else live
  }

  /**
   * The client of a drain reads, in their order, the first min(max, live) pointers that were live in the queue
   * when it was drained: nothing it drained is missing from the answer, and the rest of the queue stays.
   */
  lemma PoppedAnswer(cfg: Config, s: Relay, req: Json, ip: Bytes, tm: PopTimes)
    requires RunFpop(cfg, s, req, ip, tm).1.Ok?
    ensures StrField(req, "handle").Some?
    ensures var h := Lower(StrField(req, "handle").value);
            var q, (s', r) := QueueOf(s.queues, h), RunFpop(cfg, s, req, ip, tm);
            && ReadPointers(r.value) == Some(FirstLive(q, tm.drain, Wanted(req)))
            && (exists n :: 0 <= n <= |q| && QueueOf(s'.queues, h) == q[n..]
                            && Pointers(Reap(q[..n], tm.drain)) == FirstLive(q, tm.drain, Wanted(req)))
  {
    hide Touch, Lower, HexTexts, Reap, Pointers, Drained, Delivered, DrainCount;
    var (wins, a) := Authorize(cfg, s, req, ip, tm);
    var d := a.value;
    assert d == Drain(Lower(StrField(req, "handle").value), Wanted(req));
    hide Authorize, Wanted;
    var out := Delivered(s.queues, d, tm.drain);
    TextsRead(out);
    DrainExactly(s.(wins := wins), d, tm.drain);
    AnswerPointers(out);
    var n, live := DrainCount(s.queues, d, tm.drain), Pointers(Reap(QueueOf(s.queues, d.handle), tm.drain));
    assert live[..|live|] == live;
    assert out == Pointers(Reap(QueueOf(s.queues, d.handle)[..n], tm.drain)) by { DeliveredAt(s.queues, d, tm.drain); }
  }

  lemma DeliveredAt(queues: Index, d: Drain, now: nat)
    ensures Delivered(queues, d, now) ==
            Pointers(Reap(QueueOf(queues, d.handle)[..DrainCount(queues, d, now)], now))
  {
    hide Reap, Pointers, DrainCount;
  }

  lemma AnswerPointers(ps: seq<Pointer>)
    ensures Get(PopAnswer(ps), "pointers") == Some(Arr(HexTexts(ps)))
    ensures ReadPointers(PopAnswer(ps)) == Some(ps)
  {
    hide HexTexts, HexItems;
    TextsRead(ps);
  }

  // --- The same answers over rpc2 ---

  lemma {:induction false} TextsArePlain(ps: seq<Pointer>)
    ensures AllValid(HexTexts(ps)) && PlainItems(HexTexts(ps)) && ItemsFit(HexTexts(ps), 2) && |HexTexts(ps)| == |ps|
  {
    if ps == [] {
      assert HexTexts(ps) == [];
    } else {
      hide HexEncode, ValidUtf8;
      HexIsUtf8(ps[0]);
      TextsArePlain(ps[1..]);
      assert HexTexts(ps)[1..] == HexTexts(ps[1..]);
    }
  }

  /** An array of plain items is plain, and so is an object of one plain member. */
  lemma PlainArray(items: seq<Json>)
    requires AllValid(items) && PlainItems(items) && ItemsFit(items, 2) && |items| < TWO_63
    ensures Valid(Arr(items)) && Plain(Arr(items)) && Fits(Arr(items), 1)
  {
  }

  lemma PlainEntry(key: Bytes, v: Json, rest: Fields)
    requires ValidText(key) && Valid(v) && Plain(v) && Fits(v, 1)
    requires FieldsValid(rest) && PlainFields(rest) && FieldsFit(rest, 1)
    ensures var fs := Entry(key, v, rest);
            FieldsValid(fs) && PlainFields(fs) && FieldsFit(fs, 1) && Count(fs) == 1 + Count(rest)
  {
    hide ValidUtf8;
  }

  lemma PlainObject(fs: Fields)
    requires FieldsValid(fs) && PlainFields(fs) && FieldsFit(fs, 1) && Sorted(fs) && Count(fs) < TWO_63
    ensures Valid(Obj(fs)) && Plain(Obj(fs)) && Fits(Obj(fs), 0)
  {
    hide ValidUtf8;
  }

  lemma NoFields()
    ensures FieldsValid(Empty) && PlainFields(Empty) && FieldsFit(Empty, 1) && Sorted(Empty) && Count(Empty) == 0
  {
  }

  lemma LiteralKey(key: string)
    requires key in ["pointers", "queued", "token", "expires"]
    ensures ValidText(Ascii(key))
  {
    AsciiText(key);
  }

  /** A drain of at most 64 pointers loses nothing on its way through CBOR, whatever follows the answer. */
  lemma PoppedOverRpc(ps: seq<Pointer>, t: Bytes)
    requires |ps| <= 64
    ensures Valid(PopAnswer(ps))
    ensures DecodeValue(ToCbor(PopAnswer(ps)) + t, 0) == Some(Decoded(PopAnswer(ps), |ToCbor(PopAnswer(ps))|))
    ensures ReadPointers(DecodeValue(ToCbor(PopAnswer(ps)) + t, 0).value.value) == Some(ps)
  {
    hide HexTexts, HexItems, DecoderAt, Ascii, ValidUtf8, ToCbor;
    LiteralKey("pointers");
    TextsArePlain(ps);
    PlainArray(HexTexts(ps));
    NoFields();
    PlainEntry(Ascii("pointers"), Arr(HexTexts(ps)), Empty);
    PlainObject(Entry(Ascii("pointers"), Arr(HexTexts(ps)), Empty));
    RoundTripExactly(PopAnswer(ps), 0, t);
    AnswerPointers(ps);
  }

  /** The freg answer comes back over CBOR as it is. */
  lemma RegisteredOverRpc(token: Bytes, until: nat, t: Bytes)
    requires ValidText(token) && until < TWO_64
    ensures Valid(FregAnswer(token, until))
    ensures DecodeValue(ToCbor(FregAnswer(token, until)) + t, 0) ==
            Some(Decoded(FregAnswer(token, until), |ToCbor(FregAnswer(token, until))|))
  {
    hide DecoderAt, Ascii, ValidUtf8, ToCbor, FregAnswer;
    LiteralKey("expires");
    LiteralKey("token");
    FregFields(token, until);
    FregSorted();
    var one := Entry(Ascii("token"), Str(token), Empty);
    var two := Entry(Ascii("expires"), UInt(until), one);
    NoFields();
    PlainEntry(Ascii("token"), Str(token), Empty);
    PlainEntry(Ascii("expires"), UInt(until), one);
    PlainObject(two);
    RoundTripExactly(Obj(two), 0, t);
  }

  lemma FregSorted()
    ensures Less(Ascii("expires"), Ascii("token"))
  {
    assert Ascii("expires")[0] == 101 && Ascii("token")[0] == 116;
  }

  // --- The books carry what the clients read ---

  /** The books of a handle post as delivered exactly the pointers that the client of its drain reads. */
  lemma PostedIsAnswered(cfg: Config, s: Relay, req: Json, ip: Bytes, tm: PopTimes, h: Bytes)
    ensures var op, r := DoFpop(req, ip, tm), RunFpop(cfg, s, req, ip, tm).1;
            var read := if r.Ok? && StrField(req, "handle").Some? && Lower(StrField(req, "handle").value) == h
                        then ReadPointers(r.value) else Some([]);
            && read.Some?
            && (forall p: Pointer :: multiset(read.value)[p] == PostingFor(cfg, s, op, h).delivered[p]
                                     && Handed(cfg, s, op, h, p) == multiset(read.value)[p])
  {
    hide Touch, Lower, Delivered, PopAnswer, Drained, ReadPointers;
    var d := DrainOf(cfg, s, DoFpop(req, ip, tm));
    if d.Some? {
      AnswerPointers(Delivered(s.queues, d.value, tm.drain));
    }
  }
}
