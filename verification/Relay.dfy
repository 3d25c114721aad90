/** The relay verbs as functions of the whole relay state (src/fabric.rs). */
module Relay {
  import opened Basics
  import opened Text
  import opened Json
  import opened Envelope
  import opened Limiter
  import opened Registry
  import opened Queue
  import opened Hold

  datatype Config = Config(maxPerHandle: nat, limits: Limits, fputRate: nat, horizon: nat)

  /** Registrations and rate windows are memory only; the index mirrors the hold. */
  datatype Relay = Relay(regs: RegState, wins: Windows, queues: Index, disk: Disk)

  // --- freg ---

  function FregAnswer(token: Bytes, expires: nat): Json {
    Obj(Insert(Insert(Empty, Ascii("token"), Str(token)), Ascii("expires"), UInt(expires)))
  }

  function RunFreg(cfg: Config, s: Relay, req: Json, now: nat): (Relay, Result<Json>) {
    match CheckFreg(req)
    case Err(e) => (s, Err(e))
    case Ok(f) =>
      var (regs, answer) := GatedFreg(cfg.limits, s.regs, f, now);
      (s.(regs := regs),
       match answer case Ok(expires) => Ok(FregAnswer(f.token, expires)) case Err(e) => Err(e))
  }

  // --- fput ---

  /** The clock readings of one fput, in the order it takes them. */
  datatype PutTimes = PutTimes(lease: nat, rate: nat, accept: nat, receive: nat, reap: nat)

  predicate OrderedPut(tm: PutTimes) {
    tm.lease <= tm.rate <= tm.accept <= tm.receive <= tm.reap < TWO_64
  }

  /** An fput that passed every check; the handle is the registry key. */
  datatype Admitted = Admitted(handle: Bytes, pointer: Pointer)

  function CheckPointer(req: Json, accept: nat, horizon: nat): Result<Pointer> {
    match StrField(req, "pointer_hex")
    case None => Err("400 fput needs pointer_hex")
    case Some(hex) =>
      if |hex| != 2 * POINTER_LEN || HexDecode(hex).None? then Err("400 pointer must be 74-byte hex") else
      var p: Pointer := HexDecode(hex).value;
      if !PointerHeader(p) then Err("400 bad pointer payload header")
      else if Deadline(p) == 0 then Err("400 zero pointer deadline")
      else if Deadline(p) <= accept then Err("410 gone")
      else if Deadline(p) > accept + horizon then Err("400 deadline beyond horizon cap")
      else Ok(p)
  }

  /** Every check of fput, in order; only the rate window can change. */
  function Admit(cfg: Config, s: Relay, req: Json, ip: Bytes, tm: PutTimes): (Windows, Result<Admitted>) {
    match StrField(req, "handle")
    case None => (s.wins, Err("400 fput needs handle"))
    case Some(text) =>
      if |text| != 64 then (s.wins, Err("400 handle must be 32-byte hex")) else
      var h := Lower(text);
      if h !in s.regs.table then (s.wins, Err("404 unknown handle"))
      else if s.regs.table[h].expires <= tm.lease then (s.wins, Err("404 handle lease expired"))
      else
        var (wins, ok) := Touch(cfg.fputRate, s.wins, Call(ip, tm.rate));
        if !ok then (wins, Err("429 fput rate")) else
        match CheckPointer(req, tm.accept, cfg.horizon)
        case Err(e) => (wins, Err(e))
        case Ok(p) => (wins, Ok(Admitted(h, p)))
  }

  /** The envelope of an admitted pointer, as it is written. */
  function RawOf(a: Admitted, receive: nat): Bytes
    requires IsHandle(a.handle)
  {
    Marshal(Envelope(HexDecode(a.handle).value, a.pointer, receive))
  }

  function NewEntry(a: Admitted, receive: nat): Queued
    requires IsHandle(a.handle)
  {
    Queued(a.pointer, Cid(RawOf(a, receive)), Deadline(a.pointer), receive)
  }

  /** The critical section of an admitted fput, on its queue. */
  function PutStep(cfg: Config, queues: Index, a: Admitted, tm: PutTimes): Step
    requires IsHandle(a.handle)
  {
    Put(QueueOf(queues, a.handle), NewEntry(a, tm.receive), cfg.maxPerHandle, tm.reap)
  }

  /** All file operations of an admitted fput, in order. */
  function PutSteps(cfg: Config, queues: Index, a: Admitted, tm: PutTimes): seq<FileStep>
    requires IsHandle(a.handle)
  {
    var raw := RawOf(a, tm.receive);
    PersistSteps(Cid(raw), raw) + RemoveSteps(PutStep(cfg, queues, a, tm).drops)
  }

  /** Every registry key is a handle, so an admitted one decodes. */
  ghost predicate KeysDecode(t: Table) {
    forall h :: h in t ==> IsHandle(h)
  }

  lemma WellFormedDecodes(limits: Limits, t: Table)
    requires WellFormed(limits, t)
    ensures KeysDecode(t)
  {
    hide IsHandle;
    forall h | h in t ensures IsHandle(h) {
      GoodKeyDecodes(h);
    }
  }

  ghost function RunFput(cfg: Config, s: Relay, req: Json, ip: Bytes, tm: PutTimes): (Relay, Result<Json>)
    requires WellFormed(cfg.limits, s.regs.table)
  {
    WellFormedDecodes(cfg.limits, s.regs.table);
    var (wins, admitted) := Admit(cfg, s, req, ip, tm);
    match admitted
    case Err(e) => (s.(wins := wins), Err(e))
    case Ok(a) => (Stored(cfg, s.(wins := wins), a, tm), Ok(QueuedAnswer(true)))
  }

  /** The relay after an admitted fput. */
  function Stored(cfg: Config, s: Relay, a: Admitted, tm: PutTimes): Relay
    requires IsHandle(a.handle)
  {
    s.(queues := s.queues[a.handle := PutStep(cfg, s.queues, a, tm).queue],
       disk := ApplyAll(s.disk, PutSteps(cfg, s.queues, a, tm)))
  }

  // --- fpop ---

  datatype PopTimes = PopTimes(rate: nat, lease: nat, drain: nat)

  /** A drain that passed every check. */
  datatype Drain = Drain(handle: Bytes, max: nat)

  /** Every check of fpop, in order; a missing token is the empty one. */
  function Authorize(cfg: Config, s: Relay, req: Json, ip: Bytes, tm: PopTimes): (Windows, Result<Drain>) {
    match StrField(req, "handle")
    case None => (s.wins, Err("400 fpop needs handle"))
    case Some(text) =>
      if |text| != 64 then (s.wins, Err("400 handle must be 32-byte hex")) else
      var h := Lower(text);
      var max := Min(match U64Field(req, "max") case Some(n) => n case None => 8, 64);
      var (wins, ok) := Touch(cfg.fputRate, s.wins, Call(ip, tm.rate));
      if !ok then (wins, Err("429 fpop rate"))
      else if h !in s.regs.table then (wins, Err("404 unknown handle"))
      else if s.regs.table[h].expires <= tm.lease || s.regs.table[h].token != StrOrEmpty(req, "token") then
        (wins, Err("403 wrong token"))
      else (wins, Ok(Drain(h, max)))
  }

  function DrainCount(queues: Index, d: Drain, now: nat): (n: nat)
    ensures n <= |QueueOf(queues, d.handle)|
  {
    Taken(QueueOf(queues, d.handle), d.max, now)
  }

  /** The pointers a drain hands out. */
  function Delivered(queues: Index, d: Drain, now: nat): seq<Pointer> {
    Pointers(Reap(QueueOf(queues, d.handle)[..DrainCount(queues, d, now)], now))
  }

  function PopSteps(queues: Index, d: Drain, now: nat): seq<FileStep> {
    RemoveSteps(Cids(QueueOf(queues, d.handle)[..DrainCount(queues, d, now)]))
  }

  function HexTexts(ps: seq<Pointer>): seq<Json> {
    seq(|ps|, i requires 0 <= i < |ps| => Str(HexEncode(ps[i])))
  }

  function PopAnswer(ps: seq<Pointer>): Json {
    Obj(Entry(Ascii("pointers"), Arr(HexTexts(ps)), Empty))
  }

  /** The relay after a drain. */
  function Drained(s: Relay, d: Drain, now: nat): Relay {
    if d.handle !in s.queues then s
    else s.(queues := s.queues[d.handle := s.queues[d.handle][DrainCount(s.queues, d, now)..]],
            disk := ApplyAll(s.disk, PopSteps(s.queues, d, now)))
  }

  /**
   * A drain hands out min(max, live) pointers: the live ones of the shortest prefix that holds so many,
   * in order. The rest of the queue, and every other queue, stays as it is.
   */
  lemma DrainExactly(s: Relay, d: Drain, now: nat)
    ensures var q, after := QueueOf(s.queues, d.handle), Drained(s, d, now).queues;
            var n, out := DrainCount(s.queues, d, now), Delivered(s.queues, d, now);
            && |out| == Min(d.max, |Reap(q, now)|) && out == Pointers(Reap(q, now))[..|out|]
            && QueueOf(after, d.handle) == q[n..]
            && (forall k :: 0 <= k < n ==> |Reap(q[..k], now)| < d.max)
            && (forall h :: h != d.handle ==> QueueOf(after, h) == QueueOf(s.queues, h))
  {
    hide Reap, Taken;
    var q, n := QueueOf(s.queues, d.handle), DrainCount(s.queues, d, now);
    TakenExactly(q, d.max, now);
    ReapAppend(q[..n], q[n..], now);
    assert q[..n] + q[n..] == q;
    if n == |q| {
      assert q[..n] == q;
    }
  }

  function RunFpop(cfg: Config, s: Relay, req: Json, ip: Bytes, tm: PopTimes): (Relay, Result<Json>) {
    var (wins, d) := Authorize(cfg, s, req, ip, tm);
    match d
    case Err(e) => (s.(wins := wins), Err(e))
    case Ok(d) => (Drained(s.(wins := wins), d, tm.drain), Ok(PopAnswer(Delivered(s.queues, d, tm.drain))))
  }

  // --- The file operations of the verbs ---

  ghost function PutLog(cfg: Config, s: Relay, req: Json, ip: Bytes, tm: PutTimes): seq<FileStep>
    requires WellFormed(cfg.limits, s.regs.table)
  {
    WellFormedDecodes(cfg.limits, s.regs.table);
    match Admit(cfg, s, req, ip, tm).1
    case Err(_) => []
    case Ok(a) => PutSteps(cfg, s.queues, a, tm)
  }

  function PopLog(cfg: Config, s: Relay, req: Json, ip: Bytes, tm: PopTimes): seq<FileStep> {
    match Authorize(cfg, s, req, ip, tm).1
    case Err(_) => []
    case Ok(d) => PopSteps(s.queues, d, tm.drain)
  }

  // --- Authority of the verbs ---

  /**
   * A drain is authorised exactly for who presents, within the rate, the current token of a live
   * registration: never an absent or empty one.
   */
  lemma AuthorizedExactly(cfg: Config, s: Relay, req: Json, ip: Bytes, tm: PopTimes)
    requires WellFormed(cfg.limits, s.regs.table)
    ensures var text := StrField(req, "handle");
            Authorize(cfg, s, req, ip, tm).1.Ok? <==>
            && text.Some? && |text.value| == 64
            && Touch(cfg.fputRate, s.wins, Call(ip, tm.rate)).1
            && Registry.Live(s.regs.table, Lower(text.value), tm.lease)
            && StrField(req, "token") == Some(s.regs.table[Lower(text.value)].token)
    ensures Authorize(cfg, s, req, ip, tm).1.Ok? ==>
            Authorize(cfg, s, req, ip, tm).1.value.handle == Lower(StrField(req, "handle").value)
  {
    hide Touch, Lower;
  }

  predicate Acceptable(p: Bytes, accept: nat, horizon: nat) {
    |p| == POINTER_LEN && PointerHeader(p) && accept < Deadline(p) <= accept + horizon
  }

  /**
   * An fput is admitted exactly at a live handle, within the rate, with a v1 pointer whose deadline is in the
   * window.
   */
  lemma AdmittedExactly(cfg: Config, s: Relay, req: Json, ip: Bytes, tm: PutTimes)
    ensures var text, hex := StrField(req, "handle"), StrField(req, "pointer_hex");
            Admit(cfg, s, req, ip, tm).1.Ok? <==>
            && text.Some? && |text.value| == 64 && Registry.Live(s.regs.table, Lower(text.value), tm.lease)
            && Touch(cfg.fputRate, s.wins, Call(ip, tm.rate)).1
            && hex.Some? && HexDecode(hex.value).Some? && Acceptable(HexDecode(hex.value).value, tm.accept, cfg.horizon)
    ensures Admit(cfg, s, req, ip, tm).1.Ok? ==>
            Admit(cfg, s, req, ip, tm).1.value ==
            Admitted(Lower(StrField(req, "handle").value), HexDecode(StrField(req, "pointer_hex").value).value)
  {
    hide Touch, Lower, HexDecode, PointerHeader, Deadline;
  }

  /** A handle that fput admits is a registry key, so its 32 bytes decode and re-encode to it. */
  lemma AdmittedDecodes(cfg: Config, s: Relay, req: Json, ip: Bytes, tm: PutTimes)
    requires WellFormed(cfg.limits, s.regs.table) && Admit(cfg, s, req, ip, tm).1.Ok?
    ensures var a := Admit(cfg, s, req, ip, tm).1.value;
            && IsHandle(a.handle) && HexEncode(HexDecode(a.handle).value) == a.handle
            && PointerHeader(a.pointer) && tm.accept < Deadline(a.pointer) <= tm.accept + cfg.horizon
  {
    AdmittedExactly(cfg, s, req, ip, tm);
    hide Admit, Touch, Lower, HexDecode, HexEncode;
    GoodKeyDecodes(Admit(cfg, s, req, ip, tm).1.value.handle);
  }

  // --- open ---

  /** The relay right after `open`: no registrations, no rate windows. */
  ghost predicate IsOpened(cfg: Config, before: Disk, order: seq<Bytes>, now: nat, s: Relay)
    requires IsListing(order, before.fenv)
  {
    && s.regs == RegState(map[], 0) && s.wins == map[]
    && s.disk == before.(fenv := OpenFiles(before.fenv, now, cfg.horizon))
    && IsRebuilt(s.queues, order, before.fenv, now, cfg.horizon)
  }
}
