/** The registration table of the relay and its `freg` verb: leases, chained tokens, gated sweep. */
module Registry {
  import opened Basics
  import opened Text
  import opened Json

  datatype Registration = Registration(token: Bytes, expires: nat)

  type Table = map<Bytes, Registration>

  /** The table and the second of its last sweep. */
  datatype RegState = RegState(table: Table, lastSweep: nat)

  datatype Limits = Limits(maxLease: nat, maxRegs: nat)

  /** A freg request that passed the shape checks; the handle is in lower case. */
  datatype Freg = Freg(handle: Bytes, token: Bytes, prev: Bytes, lease: nat)

  const DEFAULT_LEASE: nat := 3600

  predicate IsHandle(h: Bytes) {
    HexDecode(h).Some? && |HexDecode(h).value| == 32
  }

  function CheckFreg(req: Json): Result<Freg> {
    match StrField(req, "handle")
    case None => Err("400 freg needs handle")
    case Some(h) =>
      if !IsHandle(h) then Err("400 handle must be 32-byte hex") else
      match StrField(req, "token")
      case None => Err("400 freg needs token")
      case Some(token) =>
        if !(16 <= |token| <= 128) then Err("400 token must be 16..=128 bytes") else
        var lease := match U64Field(req, "lease") case Some(n) => n case None => DEFAULT_LEASE;
        Ok(Freg(Lower(h), token, StrOrEmpty(req, "prev_token"), lease))
  }

  // --- The verb ---

  function Sweep(t: Table, now: nat): Table {
    map h | h in t && t[h].expires > now :: t[h]
  }

  predicate Live(t: Table, h: Bytes, now: nat) {
    h in t && t[h].expires > now
  }

  function Expiry(limits: Limits, f: Freg, now: nat): nat {
    now + Min(f.lease, limits.maxLease)
  }

  /** Admission and insertion, after whatever sweep took place. */
  function Register(limits: Limits, t: Table, f: Freg, now: nat): (Table, Result<nat>) {
    if Live(t, f.handle, now) && t[f.handle].token != f.prev then
      (t, Err("403 live registration: prev_token required"))
    else if !Live(t, f.handle, now) && |t| >= limits.maxRegs then
      (t, Err("503 fabric registry full"))
    else
      (t[f.handle := Registration(f.token, Expiry(limits, f, now))], Ok(Expiry(limits, f, now)))
  }

  /** freg as it runs: at most one sweep per second. */
  function GatedFreg(limits: Limits, s: RegState, f: Freg, now: nat): (RegState, Result<nat>) {
    var swept := if now > s.lastSweep then RegState(Sweep(s.table, now), now) else s;
    var (t, answer) := Register(limits, swept.table, f, now);
    (RegState(t, swept.lastSweep), answer)
  }

  /** freg with a sweep every time. */
  function EagerFreg(limits: Limits, t: Table, f: Freg, now: nat): (Table, Result<nat>) {
    Register(limits, Sweep(t, now), f, now)
  }

  // --- The gate refines the eager sweep ---

  /** Every entry outlives the last sweep. */
  ghost predicate Fresh(s: RegState) {
    forall h :: h in s.table ==> s.table[h].expires > s.lastSweep
  }

  lemma SweepSize(t: Table, now: nat)
    ensures |Sweep(t, now)| <= |t|
    ensures |Sweep(t, now)| == |t| <==> Sweep(t, now) == t
    ensures Sweep(t, now) == t <==> forall h :: h in t ==> t[h].expires > now
  {
    var s := Sweep(t, now);
    SubsetSize(s.Keys, t.Keys);
    assert |s.Keys| == |s| && |t.Keys| == |t|;
    if s.Keys == t.Keys {
      assert s == t;
    }
  }

  /**
   * One freg of either kind gives the same table and the same answer exactly when the gated one
   * sweeps too, or no other registration has expired and an expired one of this handle does not
   * fill the last place.
   */
  lemma GateExactly(limits: Limits, s: RegState, f: Freg, now: nat)
    ensures
      GatedFreg(limits, s, f, now).0.table == EagerFreg(limits, s.table, f, now).0
      && GatedFreg(limits, s, f, now).1 == EagerFreg(limits, s.table, f, now).1
      <==>
      now > s.lastSweep
      || ((forall h :: h in s.table && h != f.handle ==> s.table[h].expires > now)
          && (f.handle in s.table && s.table[f.handle].expires <= now ==> |s.table| < limits.maxRegs))
  {
    var t, swept := s.table, Sweep(s.table, now);
    var h := f.handle;
    if now <= s.lastSweep {
      SweepSize(t, now);
      if forall k :: k in t && k != h ==> t[k].expires > now {
        if h in t && t[h].expires <= now {
          OneSwept(t, now, h, Registration(f.token, Expiry(limits, f, now)));
        }
      } else {
        hide Expiry;
        var k :| k in t && k != h && t[k].expires <= now;
        assert k !in EagerFreg(limits, t, f, now).0;
        assert k in GatedFreg(limits, s, f, now).0.table;
      }
    }
  }

  lemma OneSwept(t: Table, now: nat, h: Bytes, r: Registration)
    requires h in t && t[h].expires <= now && forall k :: k in t && k != h ==> t[k].expires > now
    ensures |Sweep(t, now)| == |t| - 1 && h !in Sweep(t, now) && Sweep(t, now)[h := r] == t[h := r]
  {
    var s := Sweep(t, now);
    assert s.Keys + {h} == t.Keys;
    assert |s.Keys + {h}| == |s.Keys| + 1 && |s.Keys| == |s| && |t.Keys| == |t|;
  }

  /** With leases of at least a second, a step of either kind agrees and keeps every entry fresh. */
  lemma GateRefinesStep(limits: Limits, s: RegState, f: Freg, now: nat)
    requires Fresh(s) && s.lastSweep <= now && Min(f.lease, limits.maxLease) >= 1
    ensures var (s', answer) := GatedFreg(limits, s, f, now);
            Fresh(s') && s'.lastSweep == now && (s'.table, answer) == EagerFreg(limits, s.table, f, now)
  {
    GateExactly(limits, s, f, now);
  }

  /** A lease of zero leaves an entry that a same-second gated freg still counts. */
  lemma ZeroLeaseDiverges(a: Freg, b: Freg)
    requires a.handle != b.handle && a.lease == 0
    ensures var limits := Limits(3600, 1);
            var (s, _) := GatedFreg(limits, RegState(map[], 0), a, 5);
            GatedFreg(limits, s, b, 5).1.Err? && EagerFreg(limits, s.table, b, 5).1.Ok?
  {
    var limits := Limits(3600, 1);
    var (s, _) := GatedFreg(limits, RegState(map[], 0), a, 5);
    assert Sweep(map[], 5) == map[];
    assert s.table == map[a.handle := Registration(a.token, 5)];
    assert Sweep(s.table, 5) == map[];
  }

  // --- Runs of freg calls ---

  datatype Event = Event(f: Freg, now: nat)

  predicate Clocked(events: seq<Event>, from: nat)
    decreases |events|
  {
    events == [] || (from <= events[0].now && Clocked(events[1..], events[0].now))
  }

  predicate RealLeases(limits: Limits, events: seq<Event>) {
    forall i :: 0 <= i < |events| ==> Min(events[i].f.lease, limits.maxLease) >= 1
  }

  function RunGated(limits: Limits, s: RegState, events: seq<Event>): (RegState, seq<Result<nat>>)
    decreases |events|
  {
    if events == [] then (s, []) else
    var (s', answer) := GatedFreg(limits, s, events[0].f, events[0].now);
    var (end, answers) := RunGated(limits, s', events[1..]);
    (end, [answer] + answers)
  }

  function RunEager(limits: Limits, t: Table, events: seq<Event>): (Table, seq<Result<nat>>)
    decreases |events|
  {
    if events == [] then (t, []) else
    var (t', answer) := EagerFreg(limits, t, events[0].f, events[0].now);
    var (end, answers) := RunEager(limits, t', events[1..]);
    (end, [answer] + answers)
  }

  /** Over whole runs: the same table, after every freg, and the same answers. */
  lemma {:induction false} GateRefinesRun(limits: Limits, s: RegState, events: seq<Event>)
    requires Fresh(s) && Clocked(events, s.lastSweep) && RealLeases(limits, events)
    ensures var (end, answers) := RunGated(limits, s, events);
            Fresh(end) && (end.table, answers) == RunEager(limits, s.table, events)
    decreases |events|
  {
    if events != [] {
      var e := events[0];
      GateRefinesStep(limits, s, e.f, e.now);
      GateRefinesRun(limits, GatedFreg(limits, s, e.f, e.now).0, events[1..]);
    }
  }

  // --- Budget, shape, and authority ---

  /** Within the budget, with keys of 64 lower-case hex digits and tokens of 16..=128 bytes. */
  ghost predicate WellFormed(limits: Limits, t: Table) {
    |t| <= limits.maxRegs && forall h :: h in t ==> GoodKey(h) && 16 <= |t[h].token| <= 128
  }

  predicate GoodKey(h: Bytes) {
    |h| == 64 && IsLowerHex(h)
  }

  /** A key always decodes to the 32 bytes whose hex it is: fput's unwrap cannot fail. */
  lemma GoodKeyDecodes(h: Bytes)
    requires GoodKey(h)
    ensures IsHandle(h) && HexEncode(HexDecode(h).value) == h
  {
    LowerHexDecodes(h);
  }

  lemma CheckedShape(req: Json)
    requires CheckFreg(req).Ok?
    ensures GoodKey(CheckFreg(req).value.handle) && 16 <= |CheckFreg(req).value.token| <= 128
  {
    hide HexDecode;
    LowerOfHexIsLowerHex(StrField(req, "handle").value);
  }

  lemma FregKeepsShape(limits: Limits, s: RegState, f: Freg, now: nat)
    requires WellFormed(limits, s.table) && GoodKey(f.handle) && 16 <= |f.token| <= 128
    ensures WellFormed(limits, GatedFreg(limits, s, f, now).0.table)
  {
    SweepSize(s.table, now);
  }

  /** A registration is only ever replaced, while live, by who presents its token; others are left alone. */
  lemma FregAuthority(limits: Limits, s: RegState, f: Freg, now: nat, h: Bytes)
    requires Live(s.table, h, now)
    ensures var (s', answer) := GatedFreg(limits, s, f, now);
            if h == f.handle && answer.Ok?
            then f.prev == s.table[h].token && s'.table[h].token == f.token
            else h in s'.table && s'.table[h] == s.table[h]
  {
  }

  /** An accepted freg: what was presented, and what was installed. */
  datatype Install = Install(prev: Bytes, token: Bytes)

  function Installs(limits: Limits, s: RegState, events: seq<Event>, h: Bytes): seq<Install>
    decreases |events|
  {
    if events == [] then [] else
    var e := events[0];
    var (s', answer) := GatedFreg(limits, s, e.f, e.now);
    (if e.f.handle == h && answer.Ok? then [Install(e.f.prev, e.f.token)] else [])
      + Installs(limits, s', events[1..], h)
  }

  /** `h` is live whenever a freg runs. */
  predicate LiveThroughout(limits: Limits, s: RegState, events: seq<Event>, h: Bytes)
    decreases |events|
  {
    events == [] ||
    (Live(s.table, h, events[0].now)
     && LiveThroughout(limits, GatedFreg(limits, s, events[0].f, events[0].now).0, events[1..], h))
  }

  /** Each install presented the token of the one before; `token` is the first one's predecessor. */
  predicate Linked(token: Bytes, installs: seq<Install>)
    decreases |installs|
  {
    installs == [] || (installs[0].prev == token && Linked(installs[0].token, installs[1..]))
  }

  function LastToken(token: Bytes, installs: seq<Install>): Bytes
    decreases |installs|
  {
    if installs == [] then token else LastToken(installs[0].token, installs[1..])
  }

  /** While a registration stays live, its tokens form one chain, and it holds the last of them. */
  lemma {:induction false} TokenChain(limits: Limits, s: RegState, events: seq<Event>, h: Bytes)
    requires h in s.table && LiveThroughout(limits, s, events, h)
    ensures Linked(s.table[h].token, Installs(limits, s, events, h))
    ensures h in RunGated(limits, s, events).0.table
    ensures RunGated(limits, s, events).0.table[h].token ==
            LastToken(s.table[h].token, Installs(limits, s, events, h))
    decreases |events|
  {
    if events != [] {
      var e := events[0];
      FregAuthority(limits, s, e.f, e.now, h);
      var (s', answer) := GatedFreg(limits, s, e.f, e.now);
      TokenChain(limits, s', events[1..], h);
      var rest := Installs(limits, s', events[1..], h);
      if e.f.handle == h && answer.Ok? {
        assert ([Install(e.f.prev, e.f.token)] + rest)[1..] == rest;
      } else {
        assert [] + rest == rest;
      }
    }
  }
}
