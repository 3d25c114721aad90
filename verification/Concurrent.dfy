/**
 * Concurrent runs with kills: between any two pieces, and between any two removals of a piece that holds the
 * queue lock, the process may die. The fputs in flight are then lost, and `open` rebuilds the index from the hold.
 */
module Concurrent {
  import opened Basics
  import opened Envelope
  import opened Registry
  import opened Queue
  import opened QueueFacts
  import opened Hold
  import opened Restart
  import opened Relay
  import opened Coherence
  import opened CoherenceSteps
  import opened Runs
  import opened CrashSafety
  import opened Ledger
  import opened Interleaving

  /** A kill may cut a piece under the lock short after its first `k` removals; opens may be killed themselves. */
  datatype Step =
    | Do(action: Action)
    | Kill(cut: Option<Action>, k: nat, tries: seq<Try>, order: seq<Bytes>, now: nat)

  /** The files that a piece removes, in order. */
  function Removals(cap: nat, st: State, a: Action): seq<Bytes>
    requires Enabled(st, a) && forall id :: id in st.flights ==> IsHandle(st.flights[id].put.handle)
  {
    match a
    case Persist(_, _, _) => []
    case Commit(id, reap) => CommitStep(cap, st, st.flights[id], reap).drops
    case Pop(d, now) =>
      var q := QueueOf(st.queues, d.handle);
      Cids(q[..Taken(q, d.max, now)])
  }

  predicate CanCut(cap: nat, st: State, cut: Option<Action>, k: nat)
    requires forall id :: id in st.flights ==> IsHandle(st.flights[id].put.handle)
  {
    cut.Some? ==> Enabled(st, cut.value) && !cut.value.Persist? && k <= |Removals(cap, st, cut.value)|
  }

  /** What a kill leaves on disk. */
  function Remains(cap: nat, st: State, cut: Option<Action>, k: nat): Files
    requires forall id :: id in st.flights ==> IsHandle(st.flights[id].put.handle)
    requires CanCut(cap, st, cut, k)
  {
    if cut.None? then st.files else st.files - Elements(Removals(cap, st, cut.value)[..k])
  }

  /** A commit cut short leaves what an fput killed after so many of its file operations leaves. */
  lemma CutPut(cfg: Config, s: Relay, flights: map<nat, Flight>, id: nat, a: Admitted, tm: PutTimes, k: nat)
    requires IsHandle(a.handle) && id !in flights && Sane(State(s.queues, s.disk.fenv, flights))
    requires k <= |PutStep(cfg, s.queues, a, tm).drops|
    ensures var st := Act(cfg.maxPerHandle, State(s.queues, s.disk.fenv, flights), Persist(id, a, tm.receive));
            Remains(cfg.maxPerHandle, st, Some(Commit(id, tm.reap)), k) ==
            ApplyAll(s.disk, PutSteps(cfg, s.queues, a, tm)[..k + 2]).fenv
  {
    hide RawOf, Put, IsHandle, ApplyAll, Cid;
    var raw := RawOf(a, tm.receive);
    var drops := PutStep(cfg, s.queues, a, tm).drops;
    assert PutSteps(cfg, s.queues, a, tm)[..k + 2] == PersistSteps(Cid(raw), raw) + RemoveSteps(drops[..k]);
    ApplyConcat(s.disk, PersistSteps(Cid(raw), raw), RemoveSteps(drops[..k]));
    PersistApplied(s.disk, Cid(raw), raw);
    RemovesApplied(ApplyAll(s.disk, PersistSteps(Cid(raw), raw)), drops[..k]);
  }

  /** And a pop cut short, what a killed fpop leaves. */
  lemma CutPop(cap: nat, s: Relay, flights: map<nat, Flight>, d: Drain, now: nat, k: nat)
    requires Sane(State(s.queues, s.disk.fenv, flights)) && k <= |PopSteps(s.queues, d, now)|
    ensures Remains(cap, State(s.queues, s.disk.fenv, flights), Some(Pop(d, now)), k) ==
            ApplyAll(s.disk, PopSteps(s.queues, d, now)[..k]).fenv
  {
    hide Taken, ApplyAll;
    var q := QueueOf(s.queues, d.handle);
    var gone := Cids(q[..Taken(q, d.max, now)]);
    assert PopSteps(s.queues, d, now)[..k] == RemoveSteps(gone[..k]);
    RemovesApplied(s.disk, gone[..k]);
  }

  /** The part of a state that a restart rebuilds; temporary files play no part in it. */
  function AsRelay(st: State): Relay {
    Relay(RegState(map[], 0), map[], st.queues, OnDisk(st.files))
  }

  function OnDisk(files: Files): Disk {
    Disk(files, map[])
  }

  ghost predicate Moves(u: set<Bytes>, cfg: Config, st: State, step: Step, st': State) {
    match step
    case Do(a) => Performs(cfg.maxPerHandle, st, a, st') && Honest(u, a)
    case Kill(cut, k, tries, order, now) =>
      Sane(st) ==>
        && CanCut(cfg.maxPerHandle, st, cut, k) && st'.flights == map[]
        && Restarted(cfg, OnDisk(Remains(cfg.maxPerHandle, st, cut, k)), tries, order, now, AsRelay(st'))
  }

  ghost predicate IsRun(u: set<Bytes>, cfg: Config, states: seq<State>, steps: seq<Step>) {
    && |states| == |steps| + 1
    && forall i :: 0 <= i < |steps| ==> Moves(u, cfg, states[i], steps[i], states[i + 1])
  }

  // --- No orphans ---

  /** What every state of a run satisfies: no orphan, and every entry, flight and file is one of the run's. */
  ghost predicate Sound(u: set<Bytes>, st: State) {
    Unorphaned(st) && Genuine(u, st) && Addressed(u, st.files)
  }

  lemma SoundSane(u: set<Bytes>, st: State)
    requires Sound(u, st)
    ensures Sane(st)
  {
  }

  lemma RemainsPart(cap: nat, st: State, cut: Option<Action>, k: nat)
    requires Sane(st) && CanCut(cap, st, cut, k)
    ensures Part(Remains(cap, st, cut, k), st.files)
  {
    hide Removals, IsHandle;
  }

  /** Whatever was killed, `open` indexes every file that it keeps. */
  lemma KillSound(u: set<Bytes>, cfg: Config, st: State, step: Step, st': State)
    requires Addressed(u, st.files) && Sane(st) && step.Kill? && Moves(u, cfg, st, step, st')
    ensures NoOrphans(u, st'.queues, st'.files) && Backed(st'.queues, st'.files) && Sound(u, st')
    ensures st'.flights == map[] && forall h :: DistinctCids(QueueOf(st'.queues, h))
  {
    hide Removals, IsHandle, Addressed, Reopened, CanCut, Kept, DistinctCids, Remains;
    var files := Remains(cfg.maxPerHandle, st, step.cut, step.k);
    RemainsPart(cfg.maxPerHandle, st, step.cut, step.k);
    RestartFinds(cfg, OnDisk(files), step.tries, step.order, step.now, AsRelay(st'));
    var found := Found(cfg, OnDisk(files), step.tries);
    OpenPart(found.fenv, step.now, cfg.horizon);
    PartGood(u, files, st.files, 0);
    PartGood(u, found.fenv, files, 0);
    PartGood(u, OpenFiles(found.fenv, step.now, cfg.horizon), found.fenv, 0);
    OpenedNoOrphans(u, cfg, found, step.order, step.now, AsRelay(st'));
    IndexedIsUnorphaned(u, st');
  }

  lemma IndexedIsUnorphaned(u: set<Bytes>, st: State)
    requires NoOrphans(u, st.queues, st.files) && st.flights == map[]
    ensures Sound(u, st)
  {
    hide Parse, HandleOf, Faithful;
    forall c | c in st.files ensures Referenced(st.queues, c) {
      InOwnQueue(st.queues, st.files, c);
    }
  }

  lemma PersistGenuine(u: set<Bytes>, cap: nat, st: State, a: Action)
    requires a.Persist? && Enabled(st, a) && Sane(st) && Honest(u, a) && Genuine(u, st) && Addressed(u, st.files)
    ensures Genuine(u, Act(cap, st, a)) && Addressed(u, Act(cap, st, a).files)
  {
    hide RawOf, IsHandle, Parse, HandleOf, Faithful;
  }

  lemma CommitGenuine(u: set<Bytes>, cap: nat, st: State, id: nat, reap: nat)
    requires Sane(st) && id in st.flights && Genuine(u, st) && Addressed(u, st.files)
    ensures var st' := Act(cap, st, Commit(id, reap)); Genuine(u, st') && Addressed(u, st'.files)
  {
    hide Put, RawOf, IsHandle, Parse, Names, Writes, Cid, QueueOf, Deadline, Faithful;
    var f := st.flights[id];
    var q, e := QueueOf(st.queues, f.put.handle), FlightEntry(f);
    var step := CommitStep(cap, st, f, reap);
    WrittenNames(u, f.put, f.receive);
    OneQueue(u, st.queues, f.put.handle);
    forall x | x in step.queue ensures Names(u, x.cid, f.put.handle, x.pointer) && x.deadline == Deadline(x.pointer) {
      PutMembers(q, e, cap, reap, x);
    }
    FaithfulUpdate(u, st.queues, f.put.handle, step.queue);
  }

  lemma PopGenuine(u: set<Bytes>, cap: nat, st: State, d: Drain, now: nat)
    requires Sane(st) && Genuine(u, st) && Addressed(u, st.files)
    ensures var st' := Act(cap, st, Pop(d, now)); Genuine(u, st') && Addressed(u, st'.files)
  {
    hide Taken, IsHandle, Parse, Names, Writes, Faithful, Deadline;
    if d.handle in st.queues {
      var q := st.queues[d.handle];
      OneQueue(u, st.queues, d.handle);
      FaithfulUpdate(u, st.queues, d.handle, q[Taken(q, d.max, now)..]);
    }
  }

  lemma MoveKeepsSound(u: set<Bytes>, cfg: Config, st: State, step: Step, st': State)
    requires Sound(u, st) && Moves(u, cfg, st, step, st')
    ensures Sound(u, st')
  {
    hide Unorphaned, Genuine, Addressed, Honest, Restarted, Act, IsHandle, CanCut, Remains;
    SoundSane(u, st);
    match step
    case Do(a) =>
      var cap := cfg.maxPerHandle;
      ActKeepsUnorphaned(cap, st, a);
      if a.Persist? {
        PersistGenuine(u, cap, st, a);
      } else if a.Commit? {
        CommitGenuine(u, cap, st, a.id, a.reap);
      } else {
        PopGenuine(u, cap, st, a.drain, a.now);
      }
    case Kill(_, _, _, _, _) => KillSound(u, cfg, st, step, st');
  }

  /** In every interleaving, with kills anywhere and opens killed themselves, no file is ever orphaned. */
  lemma {:induction false} KilledRunsLeaveNoOrphans(u: set<Bytes>, cfg: Config, states: seq<State>, steps: seq<Step>,
                                                    i: nat)
    requires IsRun(u, cfg, states, steps) && Sound(u, states[0]) && i <= |steps|
    ensures Sound(u, states[i])
  {
    hide Moves, Sound;
    if i > 0 {
      KilledRunsLeaveNoOrphans(u, cfg, states, steps, i - 1);
      MoveKeepsSound(u, cfg, states[i - 1], steps[i - 1], states[i]);
    }
  }

  // --- A file behind every entry ---

  /** After a restart, every entry has its file, and no two entries share one. */
  lemma KillIsPrivate(u: set<Bytes>, cfg: Config, st: State, step: Step, st': State)
    requires NoCollision(u) && Sound(u, st) && step.Kill? && Moves(u, cfg, st, step, st')
    ensures Private(st')
  {
    hide NoCollision, Moves, Names, DistinctCids, Addressed, Unorphaned, Genuine;
    SoundSane(u, st);
    KillSound(u, cfg, st, step, st');
    forall h, k, c | h != k && c in Cids(QueueOf(st'.queues, h)) ensures c !in Cids(QueueOf(st'.queues, k)) {
      if c in Cids(QueueOf(st'.queues, k)) {
        var i := CidAt(QueueOf(st'.queues, h), c);
        var j := CidAt(QueueOf(st'.queues, k), c);
        EntryNames(u, st'.queues, h, QueueOf(st'.queues, h)[i]);
        EntryNames(u, st'.queues, k, QueueOf(st'.queues, k)[j]);
        NamesUnique(u, c, h, QueueOf(st'.queues, h)[i].pointer, k, QueueOf(st'.queues, k)[j].pointer);
        assert false;
      }
    }
    forall h, c | c in Cids(QueueOf(st'.queues, h)) ensures c in st'.files {
      var i := CidAt(QueueOf(st'.queues, h), c);
      assert BackedQueue(QueueOf(st'.queues, h), st'.files);
    }
  }

  /**
   * From a private state on, or after any restart: as long as fputs persist names that are not on disk, every
   * entry and every flight has a file of its own, whatever is killed.
   */
  lemma {:induction false} KilledRunsStayPrivate(u: set<Bytes>, cfg: Config, states: seq<State>, steps: seq<Step>,
                                                 i: nat)
    requires NoCollision(u) && IsRun(u, cfg, states, steps) && Sound(u, states[0]) && i <= |steps|
    requires Private(states[0])
    requires forall j :: 0 <= j < i && steps[j].Do? ==> NewName(states[j], steps[j].action)
    ensures Private(states[i])
  {
    hide Sound, NoCollision, PrivateBut, NewName, Act, Enabled, Spent, Honest;
    if i > 0 {
      KilledRunsStayPrivate(u, cfg, states, steps, i - 1);
      KilledRunsLeaveNoOrphans(u, cfg, states, steps, i - 1);
      assert Moves(u, cfg, states[i - 1], steps[i - 1], states[i]);
      if steps[i - 1].Do? {
        PrivateSane(states[i - 1], {});
        NothingSpent(states[i - 1]);
        ActKeepsPrivate(cfg.maxPerHandle, states[i - 1], steps[i - 1].action, {}, [], 0);
      } else {
        KillIsPrivate(u, cfg, states[i - 1], steps[i - 1], states[i]);
      }
    }
  }

  // --- What a kill leaves queued ---

  function Waiting(st: State, h: Bytes, p: Pointer): nat {
    multiset(Pointers(QueueOf(st.queues, h)))[p]
  }

  /** The fputs of the pointer in flight: their files are on disk. */
  function InFlight(st: State, h: Bytes, p: Pointer): set<nat> {
    Holders(st.flights, Admitted(h, p))
  }

  function Holders(flights: map<nat, Flight>, a: Admitted): set<nat> {
    set id | id in flights && flights[id].put == a
  }

  function Copies(st: State, h: Bytes, p: Pointer): nat {
    Waiting(st, h, p) + |InFlight(st, h, p)|
  }

  /**
   * After a restart a pointer is queued exactly when the kill left a file of it, in the window, that no killed open
   * removed.
   */
  lemma KillKeepsFiled(u: set<Bytes>, cfg: Config, st: State, step: Step, st': State, h: Bytes, p: Pointer)
    requires NoCollision(u) && Sound(u, st) && Sane(st) && step.Kill? && Moves(u, cfg, st, step, st')
    ensures var files := Remains(cfg.maxPerHandle, st, step.cut, step.k);
            p in Pointers(QueueOf(st'.queues, h)) <==>
            && Filed(files, h, p) && !Outside(p, step.now, cfg.horizon)
            && !OpensRemove(cfg.horizon, OnDisk(files), step.tries, h, p)
  {
    hide NoCollision, Pointers, IsHandle, QueueOf, Restarted, CanCut, Remains, Filed, Outside, OpensRemove, NoOrphans;
    KillSound(u, cfg, st, step, st');
    var files := Remains(cfg.maxPerHandle, st, step.cut, step.k);
    RestartedExactly(cfg, OnDisk(files), step.tries, step.order, step.now, AsRelay(st'), h, p);
    QueuedIsFiled(u, st'.queues, st'.files, h, p);
  }

  /** `c` names an entry or a flight of the pointer. */
  ghost predicate CopyAt(st: State, h: Bytes, p: Pointer, c: Bytes)
    requires Sane(st)
  {
    (exists e :: e in QueueOf(st.queues, h) && e.pointer == p && e.cid == c)
    || c in FlightNames(st, InFlight(st, h, p))
  }

  /** The names that a kill got as far as removing. */
  function CutNames(cap: nat, st: State, cut: Option<Action>, k: nat): set<Bytes>
    requires (forall id :: id in st.flights ==> IsHandle(st.flights[id].put.handle)) && CanCut(cap, st, cut, k)
  {
    if cut.None? then {} else Elements(Removals(cap, st, cut.value)[..k])
  }

  lemma CopyHasFile(u: set<Bytes>, st: State, h: Bytes, p: Pointer, c: Bytes)
    requires NoCollision(u) && Sound(u, st) && Sane(st) && Private(st) && CopyAt(st, h, p, c)
    ensures c in st.files && Stores(st.files[c], h, p)
  {
    hide NoCollision, IsHandle, RawOf, Parse, HandleOf, Writes, Deadline, Faithful, Unorphaned, DistinctCids;
    if c in FlightNames(st, InFlight(st, h, p)) {
      var id :| id in InFlight(st, h, p) && FlightEntry(st.flights[id]).cid == c;
      WrittenNames(u, st.flights[id].put, st.flights[id].receive);
    } else {
      var e :| e in QueueOf(st.queues, h) && e.pointer == p && e.cid == c;
      CidIn(QueueOf(st.queues, h), e);
      EntryNames(u, st.queues, h, e);
    }
    NamedFile(u, st, c, h, p);
  }

  lemma NamedFile(u: set<Bytes>, st: State, c: Bytes, h: Bytes, p: Pointer)
    requires NoCollision(u) && Sound(u, st) && Names(u, c, h, p) && c in st.files
    ensures Stores(st.files[c], h, p)
  {
    hide NoCollision, HandleOf, Genuine, Unorphaned;
    var raw := st.files[c];
    assert Stores(raw, HandleOf(raw), Parse(raw).value.pointer);
    assert Names(u, c, HandleOf(raw), Parse(raw).value.pointer);
    NamesUnique(u, c, h, p, HandleOf(raw), Parse(raw).value.pointer);
  }

  /** Of the files of a pointer, a kill leaves those of the copies whose names it did not get to. */
  lemma RemainsExactly(u: set<Bytes>, cap: nat, st: State, cut: Option<Action>, k: nat, h: Bytes, p: Pointer)
    requires NoCollision(u) && Sound(u, st) && Sane(st) && Private(st) && CanCut(cap, st, cut, k)
    ensures Filed(Remains(cap, st, cut, k), h, p) <==>
            exists c :: CopyAt(st, h, p, c) && c !in CutNames(cap, st, cut, k)
  {
    hide NoCollision, Sound, PrivateBut, Removals, Stores, InFlight, FlightNames, QueueOf, IsHandle;
    HoldersFly(st, h, p);
    var files, gone := Remains(cap, st, cut, k), CutNames(cap, st, cut, k);
    if Filed(files, h, p) {
      var c :| c in files && Stores(files[c], h, p);
      if c !in FlightNames(st, InFlight(st, h, p)) {
        FileHasCopy(u, st, h, p, c);
      }
      assert CopyAt(st, h, p, c) && c !in gone;
    }
    if exists c :: CopyAt(st, h, p, c) && c !in gone {
      var c :| CopyAt(st, h, p, c) && c !in gone;
      CopyHasFile(u, st, h, p, c);
      assert c in files && files[c] == st.files[c];
    }
  }

  /** The kill did not get to every copy of the pointer, which is in the window, and the killed opens left a file. */
  ghost predicate Spares(cfg: Config, st: State, step: Step, h: Bytes, p: Pointer)
    requires step.Kill?
  {
    && Sane(st) && CanCut(cfg.maxPerHandle, st, step.cut, step.k)
    && (exists c :: CopyAt(st, h, p, c) && c !in CutNames(cfg.maxPerHandle, st, step.cut, step.k))
    && !Outside(p, step.now, cfg.horizon)
    && !OpensRemove(cfg.horizon, OnDisk(Remains(cfg.maxPerHandle, st, step.cut, step.k)), step.tries, h, p)
  }

  /**
   * What a kill loses, exactly, in any run whose fputs persist names that are not on disk: a pointer is queued
   * afterwards if and only if the kill did not get to the file of one of its copies, queued or in flight, the
   * pointer is in the window, and no killed open removed that file.
   */
  lemma KilledRunsLoseExactly(u: set<Bytes>, cfg: Config, states: seq<State>, steps: seq<Step>, i: nat, h: Bytes,
                              p: Pointer)
    requires NoCollision(u) && IsRun(u, cfg, states, steps) && Sound(u, states[0]) && Private(states[0])
    requires i < |steps| && steps[i].Kill?
    requires forall j :: 0 <= j < i && steps[j].Do? ==> NewName(states[j], steps[j].action)
    ensures p in Pointers(QueueOf(states[i + 1].queues, h)) <==> Spares(cfg, states[i], steps[i], h, p)
  {
    KilledRunsStayPrivate(u, cfg, states, steps, i);
    KilledRunsLeaveNoOrphans(u, cfg, states, steps, i);
    SoundSane(u, states[i]);
    assert Moves(u, cfg, states[i], steps[i], states[i + 1]);
    hide Sound, NoCollision, PrivateBut, NewName, Pointers, QueueOf, CopyAt, Filed, IsHandle, CanCut, Restarted,
         Remains, CutNames, Outside, OpensRemove, Sane, Addressed;
    KillKeepsFiled(u, cfg, states[i], steps[i], states[i + 1], h, p);
    RemainsExactly(u, cfg.maxPerHandle, states[i], steps[i].cut, steps[i].k, h, p);
  }

  /** In particular, a kill between pieces, opens not killed, loses only what is outside the window. */
  lemma KilledRunsLoseNothing(u: set<Bytes>, cfg: Config, states: seq<State>, steps: seq<Step>, i: nat, h: Bytes,
                              p: Pointer)
    requires NoCollision(u) && IsRun(u, cfg, states, steps) && Sound(u, states[0]) && Private(states[0])
    requires i < |steps| && steps[i].Kill? && steps[i].cut.None? && steps[i].tries == []
    requires forall j :: 0 <= j < i && steps[j].Do? ==> NewName(states[j], steps[j].action)
    ensures p in Pointers(QueueOf(states[i + 1].queues, h)) <==>
            (p in Pointers(QueueOf(states[i].queues, h)) || InFlight(states[i], h, p) != {})
            && !Outside(p, steps[i].now, cfg.horizon)
  {
    hide Moves, Sound, NoCollision, PrivateBut, NewName, Pointers, QueueOf, InFlight, OpensRemove, IsHandle, Outside,
         CopyAt;
    KilledRunsLeaveNoOrphans(u, cfg, states, steps, i);
    SoundSane(u, states[i]);
    KilledRunsLoseExactly(u, cfg, states, steps, i, h, p);
    SomeCopy(states[i], h, p);
    NothingRemoved(cfg.horizon, OnDisk(states[i].files), h, p);
  }

  lemma SomeCopy(st: State, h: Bytes, p: Pointer)
    requires Sane(st)
    ensures (exists c :: CopyAt(st, h, p, c)) <==> p in Pointers(QueueOf(st.queues, h)) || InFlight(st, h, p) != {}
  {
    hide IsHandle, FlightEntry, QueueOf, InFlight;
    var q := QueueOf(st.queues, h);
    if p in Pointers(q) {
      var i := PointerAt(q, p);
      assert CopyAt(st, h, p, q[i].cid);
    }
    if InFlight(st, h, p) != {} {
      HoldersFly(st, h, p);
      var id :| id in InFlight(st, h, p);
      assert FlightEntry(st.flights[id]).cid in FlightNames(st, InFlight(st, h, p));
      assert CopyAt(st, h, p, FlightEntry(st.flights[id]).cid);
    }
    if exists c :: CopyAt(st, h, p, c) {
      var c :| CopyAt(st, h, p, c);
      if e: Queued :| e in q && e.pointer == p && e.cid == c {
        PointerIn(q, e);
      }
    }
  }

  lemma HoldersFly(st: State, h: Bytes, p: Pointer)
    ensures InFlight(st, h, p) <= st.flights.Keys
  {
  }

  // --- At most once ---

  /** Copies of `p` that a step hands out: a pop that was cut short answers nobody. */
  function Handed(st: State, step: Step, h: Bytes, p: Pointer): nat {
    if step.Do? && step.action.Pop? && step.action.drain.handle == h
    then multiset(Delivered(st.queues, step.action.drain, step.action.now))[p]
    else 0
  }

  function Persisted(step: Step, h: Bytes, p: Pointer): nat {
    if step.Do? && step.action.Persist? && step.action.put == Admitted(h, p) then 1 else 0
  }

  lemma PersistCounts(cap: nat, st: State, a: Action, h: Bytes, p: Pointer)
    requires a.Persist? && Enabled(st, a) && Sane(st)
    ensures Copies(Act(cap, st, a), h, p) == Copies(st, h, p) + Persisted(Do(a), h, p)
  {
    hide RawOf, IsHandle, Waiting, Holders;
    OneMoreFlight(st.flights, a.id, Flight(a.put, a.receive), Admitted(h, p));
    SameQueues(st, Act(cap, st, a), h, p);
  }

  lemma SameQueues(st: State, st': State, h: Bytes, p: Pointer)
    requires st'.queues == st.queues
    ensures Waiting(st', h, p) == Waiting(st, h, p)
  {
  }

  lemma OneMoreFlight(flights: map<nat, Flight>, id: nat, f: Flight, a: Admitted)
    requires id !in flights
    ensures |Holders(flights[id := f], a)| == |Holders(flights, a)| + if f.put == a then 1 else 0
  {
    if f.put == a {
      assert Holders(flights[id := f], a) == Holders(flights, a) + {id};
    } else {
      assert Holders(flights[id := f], a) == Holders(flights, a);
    }
  }

  lemma CommitCounts(cap: nat, st: State, id: nat, reap: nat, h: Bytes, p: Pointer)
    requires Sane(st) && id in st.flights
    ensures Copies(Act(cap, st, Commit(id, reap)), h, p) <= Copies(st, h, p)
  {
    hide Put, RawOf, IsHandle, Pointers;
    var f, st' := st.flights[id], Act(cap, st, Commit(id, reap));
    PutAddsOne(QueueOf(st.queues, f.put.handle), FlightEntry(f), cap, reap, p);
    if f.put == Admitted(h, p) {
      assert InFlight(st', h, p) == InFlight(st, h, p) - {id};
    } else {
      assert InFlight(st', h, p) == InFlight(st, h, p);
    }
  }

  /** An fput adds one copy of its own pointer at most. */
  lemma PutAddsOne(q: Fifo, e: Queued, cap: nat, now: nat, p: Pointer)
    ensures multiset(Pointers(Put(q, e, cap, now).queue))[p]
            <= multiset(Pointers(q))[p] + if p == e.pointer then 1 else 0
  {
    hide Put, Merge, Excess, Dead, Pointers;
    PutConserves(q, e, cap, now);
    var m, n := Merge(q, e), Excess(q, e, cap);
    var more: Bag := if Queues(q, e.pointer) then multiset{} else multiset{e.pointer};
    assert (multiset(Pointers(q)) + more)[p] ==
           (multiset(Pointers(Put(q, e, cap, now).queue)) + multiset(Pointers(m[..n]))
              + multiset(Pointers(Dead(m[n..], now))))[p];
  }

  lemma PopCounts(cap: nat, st: State, d: Drain, now: nat, h: Bytes, p: Pointer)
    requires Sane(st)
    ensures Copies(Act(cap, st, Pop(d, now)), h, p) + Handed(st, Do(Pop(d, now)), h, p) <= Copies(st, h, p)
  {
    hide Taken, IsHandle, Pointers, Reap, Dead;
    var q, n := QueueOf(st.queues, d.handle), DrainCount(st.queues, d, now);
    DrainConserves(q, n, now);
    assert multiset(Pointers(q))[p] ==
           (multiset(Pointers(q[n..])) + multiset(Pointers(Reap(q[..n], now)))
              + multiset(Pointers(Dead(q[..n], now))))[p];
    assert InFlight(Act(cap, st, Pop(d, now)), h, p) == InFlight(st, h, p);
  }

  /** The names that the flights of a pointer own. */
  function FlightNames(st: State, ids: set<nat>): set<Bytes>
    requires forall id :: id in st.flights ==> IsHandle(st.flights[id].put.handle)
    requires ids <= st.flights.Keys
  {
    set id | id in ids :: FlightEntry(st.flights[id]).cid
  }

  lemma {:induction false} NamesCount(st: State, ids: set<nat>)
    requires Sane(st) && ids <= st.flights.Keys
    ensures |FlightNames(st, ids)| <= |ids|
  {
    hide IsHandle, FlightEntry;
    if ids != {} {
      var id :| id in ids;
      NamesCount(st, ids - {id});
      assert FlightNames(st, ids) == FlightNames(st, ids - {id}) + {FlightEntry(st.flights[id]).cid};
    }
  }

  /** A file for a pointer is the file of an entry for it, or of a flight. */
  lemma FileHasCopy(u: set<Bytes>, st: State, h: Bytes, p: Pointer, c: Bytes)
    requires NoCollision(u) && Sound(u, st) && Sane(st) && c in FilesFor(st.files, h, p)
    requires c !in FlightNames(st, InFlight(st, h, p))
    ensures exists e :: e in QueueOf(st.queues, h) && e.cid == c && e.pointer == p
  {
    hide NoCollision, IsHandle, RawOf, Parse, HandleOf, Writes, Deadline, Faithful, Referenced;
    assert Names(u, c, h, p);
    if Referenced(st.queues, c) {
      var k := Referrer(st.queues, c);
      var i := CidAt(QueueOf(st.queues, k), c);
      var e := QueueOf(st.queues, k)[i];
      EntryNames(u, st.queues, k, e);
      NamesUnique(u, c, k, e.pointer, h, p);
      assert e in QueueOf(st.queues, h);
    } else {
      var id :| id in st.flights && FlightEntry(st.flights[id]).cid == c;
      var f := st.flights[id];
      WrittenNames(u, f.put, f.receive);
      NamesUnique(u, c, f.put.handle, f.put.pointer, h, p);
      assert false;
    }
  }

  /** Never more files of a pointer than copies of it, queued or in flight. */
  lemma FilesAreCopies(u: set<Bytes>, st: State, h: Bytes, p: Pointer)
    requires NoCollision(u) && Sound(u, st)
    ensures |FilesFor(st.files, h, p)| <= Copies(st, h, p)
  {
    SoundSane(u, st);
    hide NoCollision, Sound, Pointers, FilesFor, IsHandle, FlightEntry, QueueOf;
    var files, names := FilesFor(st.files, h, p), FlightNames(st, InFlight(st, h, p));
    forall c | c in files - names ensures exists e :: e in QueueOf(st.queues, h) && e.cid == c && e.pointer == p {
      FileHasCopy(u, st, h, p, c);
    }
    CountAtLeast(QueueOf(st.queues, h), files - names, p);
    NamesCount(st, InFlight(st, h, p));
    SubsetSize(files, (files - names) + names);
    assert |(files - names) + names| == |files - names| + |names|;
  }

  /** A kill leaves no more queued copies than there were copies, queued or in flight. */
  lemma KillCounts(u: set<Bytes>, cfg: Config, st: State, step: Step, st': State, h: Bytes, p: Pointer)
    requires NoCollision(u) && Sound(u, st) && step.Kill? && Moves(u, cfg, st, step, st')
    ensures Copies(st', h, p) <= Copies(st, h, p)
  {
    SoundSane(u, st);
    hide NoCollision, Sound, Pointers, IsHandle, QueueOf, Restarted, CanCut, Remains, Stores;
    var files := Remains(cfg.maxPerHandle, st, step.cut, step.k);
    RemainsPart(cfg.maxPerHandle, st, step.cut, step.k);
    RestartedBounded(cfg, OnDisk(files), step.tries, step.order, step.now, AsRelay(st'), h, p);
    SubsetSize(FilesFor(files, h, p), FilesFor(st.files, h, p));
    FilesAreCopies(u, st, h, p);
    assert InFlight(st', h, p) == {};
  }

  /** Any step: what is handed out and what is left of a pointer grow by the persists of it at most. */
  lemma MoveCounts(u: set<Bytes>, cfg: Config, st: State, step: Step, st': State, h: Bytes, p: Pointer)
    requires NoCollision(u) && Sound(u, st) && Moves(u, cfg, st, step, st')
    ensures Copies(st', h, p) + Handed(st, step, h, p) <= Copies(st, h, p) + Persisted(step, h, p)
  {
    SoundSane(u, st);
    hide NoCollision, Sound, Copies, Act, Restarted, IsHandle, CanCut, Remains, Honest, Delivered;
    match step
    case Do(a) =>
      if a.Persist? {
        PersistCounts(cfg.maxPerHandle, st, a, h, p);
      } else if a.Commit? {
        CommitCounts(cfg.maxPerHandle, st, a.id, a.reap, h, p);
      } else {
        PopCounts(cfg.maxPerHandle, st, a.drain, a.now, h, p);
      }
    case Kill(_, _, _, _, _) => KillCounts(u, cfg, st, step, st', h, p);
  }

  function TotalHanded(states: seq<State>, steps: seq<Step>, h: Bytes, p: Pointer, i: nat): nat
    requires i <= |steps| && |states| == |steps| + 1
  {
    if i == 0 then 0 else TotalHanded(states, steps, h, p, i - 1) + Handed(states[i - 1], steps[i - 1], h, p)
  }

  function TotalPersisted(steps: seq<Step>, h: Bytes, p: Pointer, i: nat): nat
    requires i <= |steps|
  {
    if i == 0 then 0 else TotalPersisted(steps, h, p, i - 1) + Persisted(steps[i - 1], h, p)
  }

  /**
   * At most once, whatever runs at the same time and whatever is killed: what was handed out of a pointer and what
   * is left of it, queued or in flight, never exceed what there was at the start plus the fputs that wrote it.
   */
  lemma {:induction false} KilledRunsHandOnce(u: set<Bytes>, cfg: Config, states: seq<State>, steps: seq<Step>,
                                              h: Bytes, p: Pointer, i: nat)
    requires NoCollision(u) && IsRun(u, cfg, states, steps) && Sound(u, states[0]) && i <= |steps|
    ensures TotalHanded(states, steps, h, p, i) + Copies(states[i], h, p)
            <= Copies(states[0], h, p) + TotalPersisted(steps, h, p, i)
  {
    hide NoCollision, Moves, Sound, Copies, Handed, Persisted;
    if i > 0 {
      KilledRunsHandOnce(u, cfg, states, steps, h, p, i - 1);
      KilledRunsLeaveNoOrphans(u, cfg, states, steps, i - 1);
      MoveCounts(u, cfg, states[i - 1], steps[i - 1], states[i], h, p);
    }
  }
}
