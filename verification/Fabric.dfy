/** FabricState as the program runs it: fields updated in place, files written and removed one by one. */
module Fabric {
  import opened Basics
  import opened Text
  import opened Json
  import opened Envelope
  import opened Limiter
  import opened Registry
  import opened Queue
  import opened Hold
  import opened Relay

  /** The hold directory; `log` records every file operation in order. */
  class HoldDir {
    var disk: Disk
    ghost var log: seq<FileStep>

    constructor (disk: Disk)
      ensures this.disk == disk && log == []
    {
      this.disk := disk;
      log := [];
    }

    method Do(s: FileStep)
      modifies this
      ensures disk == Apply(old(disk), s) && log == old(log) + [s]
    {
      match s {
        case WriteTmp(c, raw) => disk := Disk(disk.fenv, disk.tmp[c := raw]);
        case Rename(c) =>
          if c in disk.tmp {
            disk := Disk(disk.fenv[c := disk.tmp[c]], disk.tmp - {c});
          }
        case Remove(c) => disk := Disk(disk.fenv - {c}, disk.tmp);
      }
      log := log + [s];
    }
  }

  class FabricState {
    const cfg: Config
    const limiter: RateLimiter
    const hold: HoldDir
    var reg: Table
    var lastSweep: nat
    var queues: Index

    ghost predicate Valid()
      reads this, limiter
    {
      limiter.max == cfg.fputRate && limiter.Valid() && WellFormed(cfg.limits, reg)
    }

    /** The relay state that the fields, the limiter and the hold hold together. */
    ghost function State(): Relay
      reads this, limiter, hold
    {
      Relay(RegState(reg, lastSweep), limiter.wins, queues, hold.disk)
    }

    /** open: read every file once, compost what is corrupt, expired or too far out, then sort. */
    constructor Open(hold: HoldDir, cfg: Config, order: seq<Bytes>, now: nat)
      requires IsListing(order, hold.disk.fenv)
      modifies hold
      ensures Valid() && fresh(limiter) && this.hold == hold && this.cfg == cfg
      ensures IsOpened(cfg, old(hold.disk), order, now, State())
      ensures hold.log == old(hold.log) + OpenSteps(order, old(hold.disk.fenv), now, cfg.horizon)
    {
      hide Listed, Sort, OpenFiles, OpenSteps, Replay;
      var index := ReadIndex(hold, order, now, cfg.horizon);
      index := SortAll(index);
      this.cfg := cfg;
      this.hold := hold;
      limiter := new RateLimiter(cfg.fputRate);
      reg, lastSweep, queues := map[], 0, index;
      new;
      EmptyReplay(cfg.fputRate);
    }

    static lemma EmptyReplay(max: nat)
      ensures Replay(max, []) == map[]
    {
    }

    static method ReadIndex(hold: HoldDir, order: seq<Bytes>, now: nat, horizon: nat) returns (index: Index)
      requires IsListing(order, hold.disk.fenv)
      modifies hold
      ensures hold.disk == old(hold.disk).(fenv := OpenFiles(old(hold.disk.fenv), now, horizon))
      ensures hold.log == old(hold.log) + OpenSteps(order, old(hold.disk.fenv), now, horizon)
      ensures forall h :: QueueOf(index, h) == Listed(order, old(hold.disk.fenv), h, now, horizon)
    {
      hide Kept, HandleOf, EntryOf, Listed, Parse, Filtered, Indexed, QueueOf, OpenFiles, OpenSteps;
      ghost var before := hold.disk;
      index := map[];
      NothingListed(before.fenv, now, horizon);
      NothingRemoved(before.fenv, now, horizon);
      assert hold.log + [] == hold.log;
      for i := 0 to |order|
        invariant hold.disk.tmp == before.tmp
        invariant forall c :: c in order[..i] ==> c in before.fenv
        invariant hold.log == old(hold.log) + OpenSteps(order[..i], before.fenv, now, horizon)
        invariant Filtered(hold.disk.fenv, before.fenv, order[..i], now, horizon)
        invariant Indexed(index, before.fenv, order[..i], now, horizon)
      {
        var c := order[i];
        Unlisted(order, i);
        assert order[..i + 1] == order[..i] + [c];
        RemovedNext(before.fenv, order[..i], c, now, horizon);
        IndexNext(index, before.fenv, order[..i], c, now, horizon);
        FilterNext(hold.disk.fenv, before.fenv, order[..i], c, now, horizon);
        var raw := hold.disk.fenv[c];
        if Kept(raw, now, horizon) {
          KeptParses(raw, now, horizon);
          var h := HandleOf(raw);
          index := index[h := QueueOf(index, h) + [EntryOf(c, raw)]];
        } else {
          hold.Do(Remove(c));
        }
      }
      assert order[..|order|] == order;
      AllListed(index, hold.disk.fenv, before.fenv, order, now, horizon);
    }

    /** `files` is `before` without the files of `seen` that `open` does not keep. */
    static ghost predicate Filtered(files: Files, before: Files, seen: seq<Bytes>, now: nat, horizon: nat) {
      (forall c :: c in files <==> c in before && (c in seen ==> Kept(before[c], now, horizon)))
      && forall c :: c in files ==> files[c] == before[c]
    }

    static ghost predicate Indexed(index: Index, before: Files, seen: seq<Bytes>, now: nat, horizon: nat) {
      (forall c :: c in seen ==> c in before)
      && forall h :: QueueOf(index, h) == Listed(seen, before, h, now, horizon)
    }

    static lemma NothingListed(before: Files, now: nat, horizon: nat)
      ensures Indexed(map[], before, [], now, horizon) && Filtered(before, before, [], now, horizon)
    {
    }

    static lemma NothingRemoved(before: Files, now: nat, horizon: nat)
      ensures OpenSteps([], before, now, horizon) == []
    {
    }

    static lemma RemovedNext(before: Files, seen: seq<Bytes>, c: Bytes, now: nat, horizon: nat)
      requires c in before && forall d :: d in seen ==> d in before
      ensures OpenSteps(seen + [c], before, now, horizon) ==
              OpenSteps(seen, before, now, horizon) + if Kept(before[c], now, horizon) then [] else [Remove(c)]
    {
      hide Kept;
      assert (seen + [c])[..|seen|] == seen;
    }

    static lemma AllListed(index: Index, files: Files, before: Files, order: seq<Bytes>, now: nat, horizon: nat)
      requires IsListing(order, before)
      requires Filtered(files, before, order, now, horizon) && Indexed(index, before, order, now, horizon)
      ensures files == OpenFiles(before, now, horizon)
      ensures forall h :: QueueOf(index, h) == Listed(order, before, h, now, horizon)
    {
      hide Kept;
    }

    static lemma FilterNext(files: Files, before: Files, seen: seq<Bytes>, c: Bytes, now: nat, horizon: nat)
      requires Filtered(files, before, seen, now, horizon) && c in before && c !in seen
      ensures c in files && files[c] == before[c]
      ensures Filtered(if Kept(before[c], now, horizon) then files else files - {c}, before, seen + [c], now, horizon)
    {
      hide Kept;
    }

    static lemma IndexNext(index: Index, before: Files, seen: seq<Bytes>, c: Bytes, now: nat, horizon: nat)
      requires Indexed(index, before, seen, now, horizon) && c in before
      ensures Kept(before[c], now, horizon) ==>
        Parse(before[c]).Ok? &&
        var h := HandleOf(before[c]);
        Indexed(index[h := QueueOf(index, h) + [EntryOf(c, before[c])]], before, seen + [c], now, horizon)
      ensures !Kept(before[c], now, horizon) ==> Indexed(index, before, seen + [c], now, horizon)
    {
      hide HandleOf, EntryOf, Parse, Listed, Kept;
      if Kept(before[c], now, horizon) {
        KeptParses(before[c], now, horizon);
      }
      forall h ensures Listed(seen + [c], before, h, now, horizon) ==
        Listed(seen, before, h, now, horizon) + Newly(before, c, h, now, horizon)
      {
        ListedNext(before, seen, c, h, now, horizon);
      }
    }

    static function Newly(before: Files, c: Bytes, h: Bytes, now: nat, horizon: nat): Fifo
      requires c in before
    {
      if Kept(before[c], now, horizon) && HandleOf(before[c]) == h then [EntryOf(c, before[c])] else []
    }

    static lemma ListedNext(before: Files, seen: seq<Bytes>, c: Bytes, h: Bytes, now: nat, horizon: nat)
      requires c in before && forall d :: d in seen ==> d in before
      ensures Listed(seen + [c], before, h, now, horizon) ==
              Listed(seen, before, h, now, horizon) + Newly(before, c, h, now, horizon)
    {
      hide Kept, HandleOf, EntryOf;
      assert (seen + [c])[..|seen|] == seen;
    }

    static lemma KeptParses(raw: Bytes, now: nat, horizon: nat)
      requires Kept(raw, now, horizon)
      ensures Parse(raw).Ok?
    {
    }

    static method SortAll(unsorted: Index) returns (index: Index)
      ensures forall h :: QueueOf(index, h) == Sort(QueueOf(unsorted, h))
    {
      hide Sort;
      index := unsorted;
      var keys := index.Keys;
      while keys != {}
        invariant keys <= index.Keys && index.Keys == unsorted.Keys
        invariant forall h :: h in index ==> index[h] == if h in keys then unsorted[h] else Sort(unsorted[h])
      {
        var h :| h in keys;
        index := index[h := Sort(index[h])];
        keys := keys - {h};
      }
      EmptySort();
    }

    static lemma EmptySort()
      ensures Sort([]) == []
    {
    }

    static lemma Unlisted(order: seq<Bytes>, i: nat)
      requires i < |order| && forall a, b :: 0 <= a < b < |order| ==> order[a] != order[b]
      ensures order[i] !in order[..i]
    {
    }

    /** The registry-wide retain. */
    method SweepTable(now: nat)
      modifies `reg
      ensures reg == Sweep(old(reg), now)
    {
      var keys := reg.Keys;
      ghost var before := reg;
      while keys != {}
        invariant keys <= reg.Keys <= before.Keys
        invariant forall h :: h in before && h !in keys ==> (h in reg <==> before[h].expires > now)
        invariant forall h :: h in reg ==> reg[h] == before[h]
      {
        var h :| h in keys;
        keys := keys - {h};
        if reg[h].expires <= now {
          reg := reg - {h};
        }
      }
    }

    /** The arms of freg after the sweep, spelled out. */
    static lemma RegisterSteps(limits: Limits, s: RegState, f: Registry.Freg, now: nat)
      ensures var t := if now > s.lastSweep then Sweep(s.table, now) else s.table;
              var last := if now > s.lastSweep then now else s.lastSweep;
              GatedFreg(limits, s, f, now) ==
              if f.handle in t && t[f.handle].expires > now && t[f.handle].token != f.prev then
                (RegState(t, last), Err("403 live registration: prev_token required"))
              else if !(f.handle in t && t[f.handle].expires > now) && |t| >= limits.maxRegs then
                (RegState(t, last), Err("503 fabric registry full"))
              else
                (RegState(t[f.handle := Registration(f.token, Expiry(limits, f, now))], last),
                 Ok(Expiry(limits, f, now)))
    {
      hide Sweep, Expiry;
    }

    method Freg(req: Json, now: nat) returns (r: Result<Json>)
      requires Valid()
      modifies `reg, `lastSweep
      ensures Valid() && (State(), r) == RunFreg(cfg, old(State()), req, now)
    {
      hide CheckFreg, FregAnswer, Sweep, WellFormed, Replay, Expiry;
      var checked := CheckFreg(req);
      if checked.Err? {
        return Err(checked.error);
      }
      CheckedShape(req);
      var f := checked.value;
      FregKeepsShape(cfg.limits, RegState(reg, lastSweep), f, now);
      hide GatedFreg, Register;
      RegisterSteps(cfg.limits, RegState(reg, lastSweep), f, now);
      var expires := Expiry(cfg.limits, f, now);
      if now > lastSweep {
        SweepTable(now);
        lastSweep := now;
      }
      if f.handle in reg && reg[f.handle].expires > now {
        var same := CtEq(reg[f.handle].token, f.prev);
        if !same {
          return Err("403 live registration: prev_token required");
        }
      } else if |reg| >= cfg.limits.maxRegs {
        return Err("503 fabric registry full");
      }
      reg := reg[f.handle := Registration(f.token, expires)];
      r := Ok(FregAnswer(f.token, expires));
    }

    /** run_fput: checks, then persist, then the critical section on the queue. */
    method Fput(req: Json, ip: Bytes, tm: PutTimes) returns (r: Result<Json>)
      requires Valid()
      modifies `queues, limiter, hold
      ensures Valid() && (State(), r) == RunFput(cfg, old(State()), req, ip, tm)
      ensures hold.log == old(hold.log) + PutLog(cfg, old(State()), req, ip, tm)
    {
      hide CheckPointer, HexDecode, Touch, Lower, QueuedAnswer, ApplyAll, PutSteps, Stored, WellFormed, Replay,
           RawOf, NewEntry;
      assert hold.log + [] == hold.log;
      WellFormedDecodes(cfg.limits, reg);
      var handle := StrField(req, "handle");
      if handle.None? {
        return Err("400 fput needs handle");
      }
      if |handle.value| != 64 {
        return Err("400 handle must be 32-byte hex");
      }
      var h := Lower(handle.value);
      if h !in reg {
        return Err("404 unknown handle");
      }
      if reg[h].expires <= tm.lease {
        return Err("404 handle lease expired");
      }
      var allowed := limiter.Allow(ip, tm.rate);
      if !allowed {
        return Err("429 fput rate");
      }
      var checked := CheckPointer(req, tm.accept, cfg.horizon);
      if checked.Err? {
        return Err(checked.error);
      }
      StorePointer(Admitted(h, checked.value), tm);
      r := Ok(QueuedAnswer(true));
    }

    /** The part of fput after its checks. */
    method StorePointer(a: Admitted, tm: PutTimes)
      requires Valid() && IsHandle(a.handle)
      modifies `queues, hold
      ensures Valid() && State() == Stored(cfg, old(State()), a, tm)
      ensures hold.log == old(hold.log) + PutSteps(cfg, old(queues), a, tm)
    {
      hide ApplyAll, RawOf, Merge, Excess, Reap, Dead, RemoveSteps, Cids, WellFormed, Replay,
           Superseded, IsHandle, PersistSteps, QueueOf;
      var raw := RawOf(a, tm.receive);
      var e := NewEntry(a, tm.receive);
      Persist(e.cid, raw);
      label persisted:
      var q := QueueOf(queues, a.handle);
      var kept, added := MergeInto(q, e);
      label refreshed:
      ExcessOf(q, e, cfg.maxPerHandle);
      NoSteps(hold.disk);
      if added {
        kept := EvictOldest(kept, cfg.maxPerHandle);
      } else {
        assert hold.log + [] == hold.log;
      }
      label evicted:
      kept := ReapQueue(kept, tm.reap);
      queues := queues[a.handle := kept];
      ghost var d0, d1, d2 := Superseded(q, e), Cids(Merge(q, e)[..Excess(q, e, cfg.maxPerHandle)]),
                             Cids(Dead(Merge(q, e)[Excess(q, e, cfg.maxPerHandle)..], tm.reap));
      Chain4(old(hold.disk), PersistSteps(e.cid, raw), d0, d1, d2);
    }

    /** persist_envelope: a temporary file, then a rename. */
    method Persist(stem: Bytes, raw: Bytes)
      modifies hold
      ensures Did(PersistSteps(stem, raw))
    {
      hide ApplyAll, PersistSteps;
      PersistDone(hold.disk, stem, raw);
      hold.Do(WriteTmp(stem, raw));
      hold.Do(Rename(stem));
    }

    static lemma PersistDone(d: Disk, stem: Bytes, raw: Bytes)
      ensures PersistSteps(stem, raw) == [WriteTmp(stem, raw)] + [Rename(stem)]
      ensures ApplyAll(d, PersistSteps(stem, raw)) == Apply(Apply(d, WriteTmp(stem, raw)), Rename(stem))
    {
      assert PersistSteps(stem, raw)[..1] == [WriteTmp(stem, raw)];
      assert [WriteTmp(stem, raw)][..0] == [];
      assert ApplyAll(d, [WriteTmp(stem, raw)]) == Apply(ApplyAll(d, []), WriteTmp(stem, raw));
    }

    static lemma Chain4(d: Disk, steps: seq<FileStep>, a: seq<Bytes>, b: seq<Bytes>, c: seq<Bytes>)
      ensures steps + RemoveSteps(a + b + c) == steps + RemoveSteps(a) + RemoveSteps(b) + RemoveSteps(c)
      ensures ApplyAll(d, steps + RemoveSteps(a + b + c)) ==
              ApplyAll(ApplyAll(ApplyAll(ApplyAll(d, steps), RemoveSteps(a)), RemoveSteps(b)), RemoveSteps(c))
    {
      hide ApplyAll;
      assert steps + RemoveSteps(a + b + c) == steps + RemoveSteps(a) + RemoveSteps(b) + RemoveSteps(c);
      ApplyConcat(d, steps, RemoveSteps(a));
      ApplyConcat(d, steps + RemoveSteps(a), RemoveSteps(b));
      ApplyConcat(d, steps + RemoveSteps(a) + RemoveSteps(b), RemoveSteps(c));
    }

    /** The dedupe: refresh the first entry of this pointer, or push a new one. */
    method MergeInto(q: Fifo, e: Queued) returns (merged: Fifo, added: bool)
      modifies hold
      ensures merged == Merge(q, e) && added == !Queues(q, e.pointer)
      ensures Did(RemoveSteps(Superseded(q, e)))
    {
      hide ApplyAll;
      var i := 0;
      while i < |q| && q[i].pointer != e.pointer
        invariant i <= |q|
        invariant forall k :: 0 <= k < i ==> q[k].pointer != e.pointer
      {
        i := i + 1;
      }
      assert i == Find(q, e.pointer);
      NoSteps(hold.disk);
      if i < |q| {
        var old' := q[i];
        if old'.cid != e.cid {
          hold.Do(Remove(old'.cid));
          StepApplied(old(hold.disk), [], Remove(old'.cid));
          assert RemoveSteps([old'.cid]) == [] + [Remove(old'.cid)];
        }
        merged, added := q[i := old'.(deadline := e.deadline, cid := e.cid)], false;
      } else {
        merged, added := q + [e], true;
      }
    }

    static lemma NoSteps(d: Disk)
      ensures ApplyAll(d, []) == d && RemoveSteps([]) == []
    {
    }

    /** What the eviction loop has to remove: nothing after a refresh. */
    static lemma ExcessOf(q: Fifo, e: Queued, cap: nat)
      ensures Excess(q, e, cap) == if Queues(q, e.pointer) then 0 else OverCap(Merge(q, e), cap)
      ensures Merge(q, e)[..0] == [] && Cids(Merge(q, e)[..0]) == [] && Merge(q, e)[0..] == Merge(q, e)
    {
    }

    static function OverCap(q: Fifo, cap: nat): (n: nat)
      ensures n <= |q|
    {
      if |q| <= cap then 0 else |q| - cap
    }

    /** The eviction loop: oldest first, while the queue is over its cap. */
    method EvictOldest(q: Fifo, cap: nat) returns (rest: Fifo)
      modifies hold
      ensures rest == q[OverCap(q, cap)..]
      ensures Did(RemoveSteps(Cids(q[..OverCap(q, cap)])))
    {
      hide ApplyAll, RemoveSteps, Cids;
      rest := q;
      NoSteps(hold.disk);
      CidsStart(q);
      ghost var i: nat := 0;
      while |rest| > cap
        invariant i <= OverCap(q, cap) && rest == q[i..]
        invariant Did(RemoveSteps(Cids(q[..i])))
        decreases |rest|
      {
        hold.Do(Remove(rest[0].cid));
        CidsNext(q, i);
        StepApplied(old(hold.disk), RemoveSteps(Cids(q[..i])), Remove(q[i].cid));
        rest := rest[1..];
        i := i + 1;
      }
    }

    static lemma CidsStart(q: Fifo)
      ensures RemoveSteps(Cids(q[..0])) == []
    {
    }

    static lemma CidsNext(q: Fifo, i: nat)
      requires i < |q|
      ensures RemoveSteps(Cids(q[..i + 1])) == RemoveSteps(Cids(q[..i])) + [Remove(q[i].cid)]
      ensures q[i..][1..] == q[i + 1..]
    {
    }

    /** The retain of fput: burned entries go, and their files with them. */
    method ReapQueue(q: Fifo, now: nat) returns (kept: Fifo)
      modifies hold
      ensures kept == Reap(q, now)
      ensures Did(RemoveSteps(Cids(Dead(q, now))))
    {
      hide Reap, Dead, RemoveSteps, Cids;
      kept := [];
      ghost var steps: seq<FileStep> := [];
      ReapStart(q, now);
      for i := 0 to |q|
        invariant Reap(q, now) == kept + Reap(q[i..], now)
        invariant RemoveSteps(Cids(Dead(q, now))) == steps + RemoveSteps(Cids(Dead(q[i..], now)))
        invariant Did(steps)
      {
        ReapNext(q, i, now);
        if q[i].deadline <= now {
          hold.Do(Remove(q[i].cid));
          StepApplied(old(hold.disk), steps, Remove(q[i].cid));
          steps := steps + [Remove(q[i].cid)];
        } else {
          kept := kept + [q[i]];
        }
      }
      assert kept + [] == kept && steps + [] == steps;
    }

    /** Since the start, exactly these file operations took place. */
    twostate predicate Did(steps: seq<FileStep>)
      reads hold
    {
      hold.disk == ApplyAll(old(hold.disk), steps) && hold.log == old(hold.log) + steps
    }

    static lemma ReapStart(q: Fifo, now: nat)
      ensures q[0..] == q && Reap(q[|q|..], now) == [] && RemoveSteps(Cids(Dead(q[|q|..], now))) == []
    {
    }

    static lemma ReapNext(q: Fifo, i: nat, now: nat)
      requires i < |q|
      ensures Reap(q[i..], now) == (if q[i].deadline > now then [q[i]] else []) + Reap(q[i + 1..], now)
      ensures RemoveSteps(Cids(Dead(q[i..], now))) ==
              (if q[i].deadline > now then [] else [Remove(q[i].cid)]) + RemoveSteps(Cids(Dead(q[i + 1..], now)))
    {
      assert q[i..][1..] == q[i + 1..];
      RemoveFirst(q[i], Dead(q[i + 1..], now));
    }

    static lemma RemoveFirst(e: Queued, rest: Fifo)
      ensures RemoveSteps(Cids([e] + rest)) == [Remove(e.cid)] + RemoveSteps(Cids(rest))
    {
    }

    static lemma StepApplied(d: Disk, steps: seq<FileStep>, s: FileStep)
      ensures ApplyAll(d, steps + [s]) == Apply(ApplyAll(d, steps), s)
    {
      assert (steps + [s])[..|steps|] == steps;
    }

    /** run_fpop: checks, then the drain loop. */
    method Fpop(req: Json, ip: Bytes, tm: PopTimes) returns (r: Result<Json>)
      requires Valid()
      modifies `queues, limiter, hold
      ensures Valid() && (State(), r) == RunFpop(cfg, old(State()), req, ip, tm)
      ensures hold.log == old(hold.log) + PopLog(cfg, old(State()), req, ip, tm)
    {
      hide Touch, Lower, PopAnswer, ApplyAll, PopSteps, Drained, Delivered, WellFormed, Replay;
      assert hold.log + [] == hold.log;
      var handle := StrField(req, "handle");
      if handle.None? {
        return Err("400 fpop needs handle");
      }
      if |handle.value| != 64 {
        return Err("400 handle must be 32-byte hex");
      }
      var h := Lower(handle.value);
      var token := StrOrEmpty(req, "token");
      var max := Min(match U64Field(req, "max") case Some(n) => n case None => 8, 64);
      var allowed := limiter.Allow(ip, tm.rate);
      if !allowed {
        return Err("429 fpop rate");
      }
      if h !in reg {
        return Err("404 unknown handle");
      }
      var same := CtEq(reg[h].token, token);
      if reg[h].expires <= tm.lease || !same {
        return Err("403 wrong token");
      }
      var out := DrainQueue(Drain(h, max), tm.drain);
      r := Ok(PopAnswer(out));
    }

    /** The drain loop: remove the head, drop its file, deliver it if it is still live. */
    method DrainQueue(d: Drain, now: nat) returns (out: seq<Pointer>)
      requires Valid()
      modifies `queues, hold
      ensures Valid() && State() == Drained(old(State()), d, now)
      ensures out == Delivered(old(queues), d, now)
      ensures hold.log == old(hold.log) + PopSteps(old(queues), d, now)
    {
      hide ApplyAll, RemoveSteps, Cids, Pointers, Reap, WellFormed, Replay, Taken;
      out := [];
      ghost var q := QueueOf(queues, d.handle);
      DrainNothing(q, d.max, now);
      NoSteps(hold.disk);
      CidsStart(q);
      if d.handle !in queues {
        assert hold.log + [] == hold.log;
        return;
      }
      var rest := queues[d.handle];
      ghost var n: nat := 0;
      while |out| < d.max && rest != []
        invariant queues == old(queues) && n <= |q| && rest == q[n..]
        invariant out == Pointers(Reap(q[..n], now)) && |out| <= d.max
        invariant Taken(q, d.max, now) == n + Taken(rest, d.max - |out|, now)
        invariant Did(RemoveSteps(Cids(q[..n])))
        decreases |rest|
      {
        var item := rest[0];
        hold.Do(Remove(item.cid));
        CidsNext(q, n);
        DrainNext(q, n, d.max - |out|, now);
        StepApplied(old(hold.disk), RemoveSteps(Cids(q[..n])), Remove(q[n].cid));
        rest := rest[1..];
        if item.deadline > now {
          out := out + [item.pointer];
        }
        n := n + 1;
      }
      DrainNothing(rest, d.max - |out|, now);
      queues := queues[d.handle := rest];
    }

    static lemma DrainNothing(q: Fifo, max: nat, now: nat)
      ensures max == 0 || q == [] ==> Taken(q, max, now) == 0
      ensures q[..0] == [] && Reap([], now) == [] && Pointers([]) == []
    {
    }

    static lemma DrainNext(q: Fifo, n: nat, max: nat, now: nat)
      requires n < |q| && max > 0
      ensures Pointers(Reap(q[..n + 1], now)) ==
              Pointers(Reap(q[..n], now)) + if q[n].deadline > now then [q[n].pointer] else []
      ensures Taken(q[n..], max, now) ==
              1 + Taken(q[n + 1..], if q[n].deadline > now then max - 1 else max, now)
    {
      assert q[..n + 1] == q[..n] + [q[n]];
      ReapSnoc(q[..n], q[n], now);
      assert q[n..][1..] == q[n + 1..];
    }

    static lemma {:induction false} ReapSnoc(q: Fifo, e: Queued, now: nat)
      ensures Reap(q + [e], now) == Reap(q, now) + if e.deadline > now then [e] else []
    {
      if q == [] {
        assert [e][1..] == [];
      } else {
        assert (q + [e])[1..] == q[1..] + [e];
        ReapSnoc(q[1..], e, now);
        var head := if q[0].deadline > now then [q[0]] else [];
        var last := if e.deadline > now then [e] else [];
        assert Reap(q + [e], now) == head + (Reap(q[1..], now) + last);
        assert head + (Reap(q[1..], now) + last) == head + Reap(q[1..], now) + last;
      }
    }
  }
}
