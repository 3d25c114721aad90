/**
 * Sequences of requests to one relay: the gated sweep is invisible in the answers, and fput and fpop share
 * one budget.
 */
module Service {
  import opened Basics
  import opened Text
  import opened Json
  import opened Envelope
  import opened Limiter
  import opened Registry
  import opened Relay

  datatype Request =
    | AskFreg(req: Json, now: nat)
    | AskFput(req: Json, ip: Bytes, put: PutTimes)
    | AskFpop(req: Json, ip: Bytes, pop: PopTimes)

  /** freg with a sweep every time: the reference the gated one is compared with. */
  function RunFregEagerly(cfg: Config, s: Relay, req: Json, now: nat): (Relay, Result<Json>) {
    match CheckFreg(req)
    case Err(e) => (s, Err(e))
    case Ok(f) =>
      var (t, answer) := EagerFreg(cfg.limits, s.regs.table, f, now);
      (s.(regs := s.regs.(table := t)),
       match answer case Ok(expires) => Ok(FregAnswer(f.token, expires)) case Err(e) => Err(e))
  }

  ghost function Serve(cfg: Config, s: Relay, r: Request): (Relay, Result<Json>)
    requires WellFormed(cfg.limits, s.regs.table)
  {
    match r
    case AskFreg(req, now) => RunFreg(cfg, s, req, now)
    case AskFput(req, ip, tm) => RunFput(cfg, s, req, ip, tm)
    case AskFpop(req, ip, tm) => RunFpop(cfg, s, req, ip, tm)
  }

  ghost function ServeEagerly(cfg: Config, s: Relay, r: Request): (Relay, Result<Json>)
    requires WellFormed(cfg.limits, s.regs.table)
  {
    if r.AskFreg? then RunFregEagerly(cfg, s, r.req, r.now) else Serve(cfg, s, r)
  }

  lemma ServeKeepsShape(cfg: Config, s: Relay, r: Request)
    requires WellFormed(cfg.limits, s.regs.table)
    ensures WellFormed(cfg.limits, Serve(cfg, s, r).0.regs.table)
    ensures WellFormed(cfg.limits, ServeEagerly(cfg, s, r).0.regs.table)
  {
    hide WellFormed, GatedFreg, EagerFreg, CheckFreg, Admit, Authorize, PutSteps, PopSteps;
    if r.AskFreg? && CheckFreg(r.req).Ok? {
      var f := CheckFreg(r.req).value;
      CheckedShape(r.req);
      FregKeepsShape(cfg.limits, s.regs, f, r.now);
      EagerKeepsShape(cfg.limits, s.regs.table, f, r.now);
    }
  }

  lemma EagerKeepsShape(limits: Limits, t: Table, f: Freg, now: nat)
    requires WellFormed(limits, t) && GoodKey(f.handle) && 16 <= |f.token| <= 128
    ensures WellFormed(limits, EagerFreg(limits, t, f, now).0)
  {
    SweepSize(t, now);
  }

  /** The relay after all requests, and their answers. */
  ghost function ServeAll(cfg: Config, s: Relay, rs: seq<Request>): (Relay, seq<Result<Json>>)
    requires WellFormed(cfg.limits, s.regs.table)
    decreases |rs|
  {
    if rs == [] then (s, []) else
    ServeKeepsShape(cfg, s, rs[0]);
    var (s', answer) := Serve(cfg, s, rs[0]);
    var (end, answers) := ServeAll(cfg, s', rs[1..]);
    (end, [answer] + answers)
  }

  ghost function ServeAllEagerly(cfg: Config, s: Relay, rs: seq<Request>): (Relay, seq<Result<Json>>)
    requires WellFormed(cfg.limits, s.regs.table)
    decreases |rs|
  {
    if rs == [] then (s, []) else
    ServeKeepsShape(cfg, s, rs[0]);
    var (s', answer) := ServeEagerly(cfg, s, rs[0]);
    var (end, answers) := ServeAllEagerly(cfg, s', rs[1..]);
    (end, [answer] + answers)
  }

  // --- The gated sweep refines the eager one ---

  /** The freg clock never goes back, and no accepted freg asks for a lease of zero. */
  predicate Timely(cfg: Config, rs: seq<Request>, from: nat)
    decreases |rs|
  {
    rs == [] ||
    if rs[0].AskFreg? then
      from <= rs[0].now && Timely(cfg, rs[1..], rs[0].now)
      && (CheckFreg(rs[0].req).Ok? ==> Min(CheckFreg(rs[0].req).value.lease, cfg.limits.maxLease) >= 1)
    else Timely(cfg, rs[1..], from)
  }

  /** Equal but for the second of the last sweep, which only the gated relay keeps. */
  predicate SameBut(gated: Relay, eager: Relay) {
    gated.regs.table == eager.regs.table && gated.(regs := eager.regs) == eager
  }

  lemma SameAnswer(cfg: Config, gated: Relay, eager: Relay, r: Request, from: nat)
    requires WellFormed(cfg.limits, gated.regs.table) && Fresh(gated.regs) && SameBut(gated, eager)
    requires gated.regs.lastSweep <= from && Timely(cfg, [r], from)
    ensures var (g, a) := Serve(cfg, gated, r);
            var (e, b) := ServeEagerly(cfg, eager, r);
            SameBut(g, e) && a == b && Fresh(g.regs) && g.regs.lastSweep <= if r.AskFreg? then r.now else from
  {
    hide Fresh, WellFormed, RunFreg, RunFregEagerly, CheckFreg, Admit, PutSteps, PopSteps, Touch;
    match r
    case AskFreg(req, now) => SameFreg(cfg, gated, eager, req, now, from);
    case AskFput(req, ip, tm) => SameAdmit(cfg, gated, eager, req, ip, tm);
    case AskFpop(req, ip, tm) =>
  }

  lemma SameFreg(cfg: Config, gated: Relay, eager: Relay, req: Json, now: nat, from: nat)
    requires Fresh(gated.regs) && SameBut(gated, eager)
    requires gated.regs.lastSweep <= from && Timely(cfg, [AskFreg(req, now)], from)
    ensures var (g, a) := RunFreg(cfg, gated, req, now);
            var (e, b) := RunFregEagerly(cfg, eager, req, now);
            SameBut(g, e) && a == b && Fresh(g.regs) && g.regs.lastSweep <= now
  {
    hide Fresh, GatedFreg, EagerFreg, CheckFreg, FregAnswer;
    if CheckFreg(req).Ok? {
      GateRefinesStep(cfg.limits, gated.regs, CheckFreg(req).value, now);
    }
  }

  lemma SameAdmit(cfg: Config, gated: Relay, eager: Relay, req: Json, ip: Bytes, tm: PutTimes)
    requires SameBut(gated, eager)
    ensures Admit(cfg, gated, req, ip, tm) == Admit(cfg, eager, req, ip, tm)
  {
    hide Touch, CheckPointer;
  }

  /** Over any sequence of requests: the same answers to all three verbs, and the same relay but for the gate. */
  lemma {:induction false} GateIsInvisible(cfg: Config, gated: Relay, eager: Relay, rs: seq<Request>, from: nat)
    requires WellFormed(cfg.limits, gated.regs.table) && Fresh(gated.regs) && SameBut(gated, eager)
    requires gated.regs.lastSweep <= from && Timely(cfg, rs, from)
    ensures var (g, a) := ServeAll(cfg, gated, rs);
            var (e, b) := ServeAllEagerly(cfg, eager, rs);
            SameBut(g, e) && a == b
    decreases |rs|
  {
    hide Fresh, WellFormed, Serve, ServeEagerly, SameBut, CheckFreg;
    TablesAgree(gated, eager);
    if rs != [] {
      SameAnswer(cfg, gated, eager, rs[0], from) by {
        assert [rs[0]][1..] == [];
      }
      ServeKeepsShape(cfg, gated, rs[0]);
      ServeKeepsShape(cfg, eager, rs[0]);
      GateIsInvisible(cfg, Serve(cfg, gated, rs[0]).0, ServeEagerly(cfg, eager, rs[0]).0, rs[1..],
                      if rs[0].AskFreg? then rs[0].now else from);
    }
  }

  lemma TablesAgree(gated: Relay, eager: Relay)
    requires SameBut(gated, eager)
    ensures gated.regs.table == eager.regs.table
  {
  }

  // --- One budget for fput and fpop ---

  /** The rate check a request gets to, if it does: both verbs use the same windows. */
  function RateCall(s: Relay, r: Request): (c: Option<Call>)
    ensures c.Some? ==> !r.AskFreg? && c.value.ip == r.ip
  {
    if r.AskFreg? then None else
    match StrField(r.req, "handle")
    case None => None
    case Some(text) =>
      if |text| != 64 then None
      else if r.AskFpop? then Some(Call(r.ip, r.pop.rate))
      else if Live(s.regs.table, Lower(text), r.put.lease) then Some(Call(r.ip, r.put.rate))
      else None
  }

  function AsSeq(c: Option<Call>): seq<Call> {
    if c.Some? then [c.value] else []
  }

  predicate RateRefused(answer: Result<Json>) {
    answer == Err("429 fput rate") || answer == Err("429 fpop rate")
  }

  /** A request that gets to its rate check is refused there exactly when the shared history is full. */
  lemma SharedBudget(cfg: Config, s: Relay, calls: seq<Call>, r: Request)
    requires WellFormed(cfg.limits, s.regs.table) && s.wins == Replay(cfg.fputRate, calls)
    ensures var (s', answer) := Serve(cfg, s, r);
            var c := RateCall(s, r);
            && s'.wins == Replay(cfg.fputRate, calls + AsSeq(c))
            && (c.None? ==> !RateRefused(answer))
            && (c.Some? && Ordered(calls, r.ip, c.value.second) ==>
                  (RateRefused(answer) <==> cfg.fputRate > 0 && Hits(calls, r.ip, c.value.second) >= cfg.fputRate))
  {
    hide WellFormed, Touch, Hits, Ordered, Replay, RateRefused, RateCall, Serve;
    var c := RateCall(s, r);
    ServeChecksRate(cfg, s, r);
    if c.None? {
      assert calls + [] == calls;
    } else {
      ReplayNext(cfg.fputRate, calls, c.value);
      if Ordered(calls, r.ip, c.value.second) {
        LimiterRefinesHistory(cfg.fputRate, calls, c.value);
      }
    }
  }

  lemma ServeChecksRate(cfg: Config, s: Relay, r: Request)
    requires WellFormed(cfg.limits, s.regs.table)
    ensures var (s', answer) := Serve(cfg, s, r);
            RateChecked(cfg, s, RateCall(s, r), s', answer)
  {
    hide WellFormed, RateChecked, Serve;
    match r
    case AskFreg(req, now) => FregHasNoRate(cfg, s, req, now);
    case AskFput(req, ip, tm) => PutRate(cfg, s, req, ip, tm);
    case AskFpop(req, ip, tm) => PopRate(cfg, s, req, ip, tm);
  }

  /** The rate check as a verb carries it out: the windows it leaves, and whether it refused. */
  ghost predicate RateChecked(cfg: Config, s: Relay, c: Option<Call>, s': Relay, answer: Result<Json>) {
    if c.None? then s'.wins == s.wins && !RateRefused(answer)
    else s'.wins == Touch(cfg.fputRate, s.wins, c.value).0
         && (RateRefused(answer) <==> !Touch(cfg.fputRate, s.wins, c.value).1)
  }

  lemma FregHasNoRate(cfg: Config, s: Relay, req: Json, now: nat)
    requires WellFormed(cfg.limits, s.regs.table)
    ensures RateCall(s, AskFreg(req, now)) == None
    ensures var (s', answer) := Serve(cfg, s, AskFreg(req, now));
            RateChecked(cfg, s, None, s', answer)
  {
    hide WellFormed, Touch, Sweep, HexDecode, IsHandle, FregAnswer;
  }

  lemma PutRate(cfg: Config, s: Relay, req: Json, ip: Bytes, tm: PutTimes)
    requires WellFormed(cfg.limits, s.regs.table)
    ensures var r := AskFput(req, ip, tm);
            var (s', answer) := Serve(cfg, s, r);
            RateChecked(cfg, s, RateCall(s, r), s', answer)
  {
    hide WellFormed, Admit, RateCall, RateRefused, PutSteps, QueuedAnswer;
    AdmitRate(cfg, s, req, ip, tm);
    AnswersPass(QueuedAnswer(true));
    var (wins, r) := Admit(cfg, s, req, ip, tm);
    var (s', answer) := Serve(cfg, s, AskFput(req, ip, tm));
    assert s'.wins == wins;
    assert answer == if r.Err? then Err(r.error) else Ok(QueuedAnswer(true));
  }

  lemma AnswersPass(answer: Json)
    ensures !RateRefused(Ok(answer))
  {
  }

  lemma AdmitRate(cfg: Config, s: Relay, req: Json, ip: Bytes, tm: PutTimes)
    ensures var (wins, r) := Admit(cfg, s, req, ip, tm);
            var c := RateCall(s, AskFput(req, ip, tm));
            && wins == (if c.None? then s.wins else Touch(cfg.fputRate, s.wins, c.value).0)
            && ((r.Err? && RateRefused(Err(r.error))) <==> (c.Some? && !Touch(cfg.fputRate, s.wins, c.value).1))
  {
    hide Touch, CheckPointer, Lower;
    if CheckPointer(req, tm.accept, cfg.horizon).Err? {
      PointerRefusals(req, tm.accept, cfg.horizon);
    }
  }

  lemma PointerRefusals(req: Json, accept: nat, horizon: nat)
    requires CheckPointer(req, accept, horizon).Err?
    ensures !RateRefused(Err(CheckPointer(req, accept, horizon).error))
  {
    hide HexDecode, PointerHeader, Deadline;
  }

  lemma PopRate(cfg: Config, s: Relay, req: Json, ip: Bytes, tm: PopTimes)
    requires WellFormed(cfg.limits, s.regs.table)
    ensures var r := AskFpop(req, ip, tm);
            var (s', answer) := Serve(cfg, s, r);
            RateChecked(cfg, s, RateCall(s, r), s', answer)
  {
    hide WellFormed, Touch, PopSteps, Lower, PopAnswer, Delivered;
  }

  lemma ReplayNext(max: nat, calls: seq<Call>, c: Call)
    ensures Replay(max, calls + [c]) == Touch(max, Replay(max, calls), c).0
  {
    assert (calls + [c])[..|calls|] == calls;
  }

  /** All rate checks of a sequence of requests. */
  ghost function History(cfg: Config, s: Relay, rs: seq<Request>): seq<Call>
    requires WellFormed(cfg.limits, s.regs.table)
    decreases |rs|
  {
    if rs == [] then [] else
    ServeKeepsShape(cfg, s, rs[0]);
    AsSeq(RateCall(s, rs[0])) + History(cfg, Serve(cfg, s, rs[0]).0, rs[1..])
  }

  /** The stored windows are those of the whole history of both verbs, at every point of every run. */
  lemma {:induction false} WindowsAreHistory(cfg: Config, s: Relay, calls: seq<Call>, rs: seq<Request>)
    requires WellFormed(cfg.limits, s.regs.table) && s.wins == Replay(cfg.fputRate, calls)
    ensures ServeAll(cfg, s, rs).0.wins == Replay(cfg.fputRate, calls + History(cfg, s, rs))
    decreases |rs|
  {
    hide WellFormed, Serve, Replay, RateCall, AsSeq;
    if rs == [] {
      assert calls + [] == calls;
    } else {
      ServeKeepsShape(cfg, s, rs[0]);
      SharedBudget(cfg, s, calls, rs[0]);
      var next := AsSeq(RateCall(s, rs[0]));
      var s' := Serve(cfg, s, rs[0]).0;
      WindowsAreHistory(cfg, s', calls + next, rs[1..]);
      assert calls + (next + History(cfg, s', rs[1..])) == calls + next + History(cfg, s', rs[1..]);
    }
  }

  // --- Token authority over runs of all verbs ---

  /** The fregs of a sequence of requests that pass their checks. */
  function FregEvents(rs: seq<Request>): seq<Event>
    decreases |rs|
  {
    if rs == [] then []
    else if rs[0].AskFreg? && CheckFreg(rs[0].req).Ok? then
      [Event(CheckFreg(rs[0].req).value, rs[0].now)] + FregEvents(rs[1..])
    else FregEvents(rs[1..])
  }

  lemma ServeRegs(cfg: Config, s: Relay, r: Request)
    requires WellFormed(cfg.limits, s.regs.table)
    ensures Serve(cfg, s, r).0.regs ==
            if r.AskFreg? && CheckFreg(r.req).Ok? then GatedFreg(cfg.limits, s.regs, CheckFreg(r.req).value, r.now).0
            else s.regs
  {
    hide WellFormed, GatedFreg, CheckFreg, Admit, Authorize, PutSteps, PopSteps;
  }

  /** Only fregs touch the registry, so a run of all verbs leaves what its fregs leave. */
  lemma {:induction false} RegsFollowFregs(cfg: Config, s: Relay, rs: seq<Request>)
    requires WellFormed(cfg.limits, s.regs.table)
    ensures ServeAll(cfg, s, rs).0.regs == RunGated(cfg.limits, s.regs, FregEvents(rs)).0
    decreases |rs|
  {
    hide WellFormed, Serve, GatedFreg, CheckFreg;
    if rs != [] {
      ServeKeepsShape(cfg, s, rs[0]);
      ServeRegs(cfg, s, rs[0]);
      RegsFollowFregs(cfg, Serve(cfg, s, rs[0]).0, rs[1..]);
      if rs[0].AskFreg? && CheckFreg(rs[0].req).Ok? {
        var e := Event(CheckFreg(rs[0].req).value, rs[0].now);
        assert ([e] + FregEvents(rs[1..]))[1..] == FregEvents(rs[1..]);
      }
    }
  }

  lemma {:induction false} ServeAllKeepsShape(cfg: Config, s: Relay, rs: seq<Request>)
    requires WellFormed(cfg.limits, s.regs.table)
    ensures WellFormed(cfg.limits, ServeAll(cfg, s, rs).0.regs.table)
    decreases |rs|
  {
    hide WellFormed, Serve;
    if rs != [] {
      ServeKeepsShape(cfg, s, rs[0]);
      ServeAllKeepsShape(cfg, Serve(cfg, s, rs[0]).0, rs[1..]);
    }
  }

  /**
   * Authority over whole runs: while a registration stays live, its tokens form one chain of installs, each
   * presented with its predecessor, and every fpop that drains it presents the last of them so far.
   */
  lemma DrainsPresentLast(cfg: Config, s: Relay, rs: seq<Request>, k: nat, h: Bytes)
    requires WellFormed(cfg.limits, s.regs.table) && h in s.regs.table && k < |rs| && rs[k].AskFpop?
    requires LiveThroughout(cfg.limits, s.regs, FregEvents(rs[..k]), h)
    requires var d := Authorize(cfg, ServeAll(cfg, s, rs[..k]).0, rs[k].req, rs[k].ip, rs[k].pop).1;
             d.Ok? && d.value.handle == h
    ensures var installs := Installs(cfg.limits, s.regs, FregEvents(rs[..k]), h);
            && Linked(s.regs.table[h].token, installs)
            && StrField(rs[k].req, "token") == Some(LastToken(s.regs.table[h].token, installs))
  {
    hide WellFormed, ServeAll, FregEvents, RunGated, Installs, LastToken, LiveThroughout, Linked, Authorize;
    var end := ServeAll(cfg, s, rs[..k]).0;
    RegsFollowFregs(cfg, s, rs[..k]);
    TokenChain(cfg.limits, s.regs, FregEvents(rs[..k]), h);
    ServeAllKeepsShape(cfg, s, rs[..k]);
    AuthorizedExactly(cfg, end, rs[k].req, rs[k].ip, rs[k].pop);
  }
}
