/**
 * Concurrent verbs: persist_envelope runs before the queue lock is taken, so any number of fput
 * calls may have written their files while other fputs and fpops hold the lock.
 */
module Interleaving {
  import opened Basics
  import opened Envelope
  import opened Registry
  import opened Queue
  import opened QueueFacts
  import opened Hold
  import opened Restart
  import opened Relay
  import opened Coherence

  /** An fput past its persist and before its critical section. */
  datatype Flight = Flight(put: Admitted, receive: nat)

  datatype State = State(queues: Index, files: Files, flights: map<nat, Flight>)

  /** What one thread does in one atomic piece. */
  datatype Action =
    | Persist(id: nat, put: Admitted, receive: nat)
    | Commit(id: nat, reap: nat)
    | Pop(drain: Drain, now: nat)

  predicate Enabled(st: State, a: Action) {
    match a
    case Persist(id, put, _) => id !in st.flights && IsHandle(put.handle)
    case Commit(id, _) => id in st.flights
    case Pop(_, _) => true
  }

  ghost predicate Sane(st: State) {
    forall id :: id in st.flights ==> IsHandle(st.flights[id].put.handle)
  }

  function FlightEntry(f: Flight): Queued
    requires IsHandle(f.put.handle)
  {
    NewEntry(f.put, f.receive)
  }

  function CommitStep(cap: nat, st: State, f: Flight, reap: nat): Step
    requires IsHandle(f.put.handle)
  {
    Put(QueueOf(st.queues, f.put.handle), FlightEntry(f), cap, reap)
  }

  function Act(cap: nat, st: State, a: Action): State
    requires Enabled(st, a) && forall id :: id in st.flights ==> IsHandle(st.flights[id].put.handle)
  {
    match a
    case Persist(id, put, receive) =>
      var raw := RawOf(put, receive);
      st.(files := st.files[Cid(raw) := raw], flights := st.flights[id := Flight(put, receive)])
    case Commit(id, reap) =>
      var f := st.flights[id];
      var step := CommitStep(cap, st, f, reap);
      State(st.queues[f.put.handle := step.queue], st.files - Elements(step.drops), st.flights - {id})
    case Pop(d, now) =>
      if d.handle !in st.queues then st else
      var q := st.queues[d.handle];
      var n := Taken(q, d.max, now);
      st.(queues := st.queues[d.handle := q[n..]], files := st.files - Elements(Cids(q[..n])))
  }

  // --- Pieces in a row are the verbs ---

  /** A persist and its commit, with nothing in between, do to queues and files what the whole fput does. */
  lemma UninterruptedPut(cfg: Config, s: Relay, flights: map<nat, Flight>, id: nat, a: Admitted, tm: PutTimes)
    requires IsHandle(a.handle) && id !in flights && Sane(State(s.queues, s.disk.fenv, flights))
    ensures var st := State(s.queues, s.disk.fenv, flights);
            var mid := Act(cfg.maxPerHandle, st, Persist(id, a, tm.receive));
            var st' := Act(cfg.maxPerHandle, mid, Commit(id, tm.reap));
            && st'.queues == Stored(cfg, s, a, tm).queues && st'.flights == flights
            && st'.files == Stored(cfg, s, a, tm).disk.fenv
  {
    hide RawOf, Put, IsHandle, ApplyAll, PersistSteps, Cid;
    var raw := RawOf(a, tm.receive);
    var drops := PutStep(cfg, s.queues, a, tm).drops;
    ApplyConcat(s.disk, PersistSteps(Cid(raw), raw), RemoveSteps(drops));
    PersistApplied(s.disk, Cid(raw), raw);
    RemovesApplied(ApplyAll(s.disk, PersistSteps(Cid(raw), raw)), drops);
    assert flights[id := Flight(a, tm.receive)] - {id} == flights;
  }

  /** A pop is the drain of fpop. */
  lemma WholePop(cap: nat, s: Relay, flights: map<nat, Flight>, d: Drain, now: nat)
    requires Sane(State(s.queues, s.disk.fenv, flights))
    ensures Act(cap, State(s.queues, s.disk.fenv, flights), Pop(d, now)) ==
            State(Drained(s, d, now).queues, Drained(s, d, now).disk.fenv, flights)
  {
    hide Taken, ApplyAll;
    if d.handle in s.queues {
      RemovesApplied(s.disk, Cids(s.queues[d.handle][..Taken(s.queues[d.handle], d.max, now)]));
    }
  }

  // --- No orphans ---

  ghost predicate Referenced(queues: Index, c: Bytes) {
    exists h :: c in Cids(QueueOf(queues, h))
  }

  ghost predicate Owned(st: State, c: Bytes)
    requires Sane(st)
  {
    exists id :: id in st.flights && FlightEntry(st.flights[id]).cid == c
  }

  /** Every file is referenced by an index entry, or owned by an fput in flight. */
  ghost predicate Unorphaned(st: State) {
    Sane(st) && forall c :: c in st.files ==> Referenced(st.queues, c) || Owned(st, c)
  }

  lemma StillReferenced(queues: Index, h: Bytes, q: Fifo, c: Bytes)
    requires Referenced(queues, c) && (c in Cids(QueueOf(queues, h)) ==> c in Cids(q))
    ensures Referenced(queues[h := q], c)
  {
    var k :| c in Cids(QueueOf(queues, k));
    assert c in Cids(QueueOf(queues[h := q], k));
  }

  lemma NowReferenced(queues: Index, h: Bytes, q: Fifo, c: Bytes)
    requires c in Cids(q)
    ensures Referenced(queues[h := q], c)
  {
    assert QueueOf(queues[h := q], h) == q;
  }

  lemma ActKeepsUnorphaned(cap: nat, st: State, a: Action)
    requires Enabled(st, a) && Unorphaned(st)
    ensures Unorphaned(Act(cap, st, a))
  {
    hide Put, RawOf, Taken, IsHandle, Referenced;
    var st' := Act(cap, st, a);
    assert Sane(st');
    forall c | c in st'.files ensures Referenced(st'.queues, c) || Owned(st', c) {
      match a
      case Persist(id, put, receive) =>
        if c == Cid(RawOf(put, receive)) {
          assert st'.flights[id] == Flight(put, receive);
        } else if !Referenced(st.queues, c) {
          var other :| other in st.flights && FlightEntry(st.flights[other]).cid == c;
          assert other in st'.flights && st'.flights[other] == st.flights[other];
        }
      case Commit(id, reap) => CommitKeeps(cap, st, id, reap, c);
      case Pop(d, now) =>
        if d.handle in st.queues {
          if Referenced(st.queues, c) {
            var q, n := st.queues[d.handle], Taken(st.queues[d.handle], d.max, now);
            TailName(q, n, c);
            StillReferenced(st.queues, d.handle, q[n..], c);
          }
        }
    }
  }

  lemma TailName(q: Fifo, n: nat, c: Bytes)
    requires n <= |q| && c !in Cids(q[..n])
    ensures c in Cids(q) ==> c in Cids(q[n..])
  {
    if c in Cids(q) {
      var k := CidAt(q, c);
      if k < n {
        CidIn(q[..n], q[..n][k]);
      } else {
        CidIn(q[n..], q[n..][k - n]);
      }
    }
  }

  lemma CommitKeeps(cap: nat, st: State, id: nat, reap: nat, c: Bytes)
    requires Unorphaned(st) && id in st.flights
    requires var st' := Act(cap, st, Commit(id, reap)); c in st'.files && Sane(st')
    ensures var st' := Act(cap, st, Commit(id, reap)); Referenced(st'.queues, c) || Owned(st', c)
  {
    hide Put, RawOf, IsHandle, Referenced;
    var f := st.flights[id];
    var q, e := QueueOf(st.queues, f.put.handle), FlightEntry(f);
    var step := CommitStep(cap, st, f, reap);
    if c in Cids(q) || c == e.cid {
      PutKeepsOrDrops(q, e, cap, reap, c);
      NowReferenced(st.queues, f.put.handle, step.queue, c);
    } else if Referenced(st.queues, c) {
      StillReferenced(st.queues, f.put.handle, step.queue, c);
    } else {
      var other :| other in st.flights && FlightEntry(st.flights[other]).cid == c;
      var st' := Act(cap, st, Commit(id, reap));
      assert other in st'.flights && st'.flights[other] == st.flights[other];
    }
  }

  // --- Schedules ---

  ghost predicate IsSchedule(cap: nat, states: seq<State>, actions: seq<Action>) {
    && |states| == |actions| + 1
    && forall i :: 0 <= i < |actions| ==> Performs(cap, states[i], actions[i], states[i + 1])
  }

  ghost predicate Performs(cap: nat, st: State, a: Action, st': State) {
    Enabled(st, a) && (Sane(st) ==> st' == Act(cap, st, a))
  }

  /** In every interleaving, no file is ever orphaned: unconditionally, whatever the digests. */
  lemma {:induction false} SchedulesLeaveNoOrphans(cap: nat, states: seq<State>, actions: seq<Action>, i: nat)
    requires IsSchedule(cap, states, actions) && Unorphaned(states[0]) && i <= |actions|
    ensures Unorphaned(states[i])
  {
    hide Act, Enabled;
    if i > 0 {
      SchedulesLeaveNoOrphans(cap, states, actions, i - 1);
      assert Performs(cap, states[i - 1], actions[i - 1], states[i]);
      ActKeepsUnorphaned(cap, states[i - 1], actions[i - 1]);
    }
  }

  // --- The other direction ---

  /** Two fputs of one pointer in one second share a file: a drain between their commits strands the second entry. */
  lemma SharedNameStrands(put: Admitted, t: nat)
    requires IsHandle(put.handle) && t < Deadline(put.pointer)
    ensures var st0 := State(map[], map[], map[]);
            var st1 := Act(1, st0, Persist(1, put, t));
            var st2 := Act(1, st1, Persist(2, put, t));
            var st3 := Act(1, st2, Commit(1, t));
            var st4 := Act(1, st3, Pop(Drain(put.handle, 1), t));
            var st5 := Act(1, st4, Commit(2, t));
            st5.queues[put.handle] == [NewEntry(put, t)] && NewEntry(put, t).cid !in st5.files
  {
    hide RawOf, Deadline, Cid, IsHandle;
    var st0 := State(map[], map[], map[]);
    var st2 := Act(1, Act(1, st0, Persist(1, put, t)), Persist(2, put, t));
    OnePut(NewEntry(put, t), t);
    var st3 := Act(1, st2, Commit(1, t));
    assert st3.queues == map[put.handle := [NewEntry(put, t)]];
    DrainThenCommit(st3, put, t);
  }

  lemma DrainThenCommit(st: State, put: Admitted, t: nat)
    requires Sane(st) && IsHandle(put.handle) && t < Deadline(put.pointer)
    requires st.queues == map[put.handle := [NewEntry(put, t)]] && 2 in st.flights && st.flights[2] == Flight(put, t)
    ensures var st1 := Act(1, st, Pop(Drain(put.handle, 1), t));
            var st2 := Act(1, st1, Commit(2, t));
            st2.queues[put.handle] == [NewEntry(put, t)] && NewEntry(put, t).cid !in st2.files
  {
    hide RawOf, Deadline, Cid, IsHandle, Put;
    var e := NewEntry(put, t);
    var one := [e];
    assert one[1..] == [] && one[..1] == one && Cids(one) == [e.cid];
    assert Taken(one, 1, t) == 1;
    OnePut(e, t);
    var st1 := Act(1, st, Pop(Drain(put.handle, 1), t));
    assert st1.queues[put.handle] == [] && e.cid !in st1.files;
  }

  lemma OnePut(e: Queued, t: nat)
    requires t < e.deadline
    ensures Put([], e, 1, t) == Step([e], [])
  {
    var one := [e];
    assert one[0..] == one && one[..0] == [] && one[1..] == [];
    assert Merge([], e) == one && Excess([], e, 1) == 0 && Superseded([], e) == [];
    assert Reap(one, t) == one + Reap([], t) && Dead(one, t) == [] + Dead([], t);
    assert Cids([]) == [];
  }

  /** Names in the index and in flight are all different, and every one of them has its file; but for `dead` names. */
  ghost predicate PrivateBut(st: State, dead: set<Bytes>) {
    && Sane(st)
    && (forall h :: DistinctCids(QueueOf(st.queues, h)))
    && (forall h, k, c :: h != k && c in Cids(QueueOf(st.queues, h)) ==> c !in Cids(QueueOf(st.queues, k)))
    && (forall id, h :: id in st.flights && FlightEntry(st.flights[id]).cid in Cids(QueueOf(st.queues, h)) ==>
          FlightEntry(st.flights[id]).cid in dead)
    && (forall id, jd :: id in st.flights && jd in st.flights && id != jd ==>
          FlightEntry(st.flights[id]).cid in dead
          || FlightEntry(st.flights[id]).cid != FlightEntry(st.flights[jd]).cid)
    && (forall h, c :: c in Cids(QueueOf(st.queues, h)) ==> c in st.files)
    && (forall id :: id in st.flights && FlightEntry(st.flights[id]).cid !in dead ==>
          FlightEntry(st.flights[id]).cid in st.files)
  }

  ghost predicate Private(st: State) {
    PrivateBut(st, {})
  }

  /** The dead names belong to pointers of handle `h` that have burned by `clock`. */
  ghost predicate Spent(st: State, dead: set<Bytes>, h: Bytes, clock: nat)
    requires Sane(st)
  {
    && (forall id :: id in st.flights && FlightEntry(st.flights[id]).cid in dead ==>
          st.flights[id].put.handle == h && FlightEntry(st.flights[id]).deadline <= clock)
    && (forall k, e :: e in QueueOf(st.queues, k) && e.cid in dead ==> k == h && e.deadline <= clock)
  }

  /** The name being persisted is not on disk yet. */
  predicate NewName(st: State, a: Action) {
    a.Persist? && IsHandle(a.put.handle) ==> Cid(RawOf(a.put, a.receive)) !in st.files
  }

  /** As long as fputs persist names that are not on disk, every interleaving keeps a file behind every entry. */
  lemma {:induction false} PrivateSchedulesAgree(cap: nat, states: seq<State>, actions: seq<Action>, i: nat)
    requires IsSchedule(cap, states, actions) && Private(states[0]) && i <= |actions|
    requires forall j :: 0 <= j < i ==> NewName(states[j], actions[j])
    ensures Private(states[i])
  {
    hide Act, Enabled, PrivateBut, NewName, Spent;
    if i > 0 {
      PrivateSchedulesAgree(cap, states, actions, i - 1);
      assert Performs(cap, states[i - 1], actions[i - 1], states[i]);
      PrivateSane(states[i - 1], {});
      NothingSpent(states[i - 1]);
      ActKeepsPrivate(cap, states[i - 1], actions[i - 1], {}, [], 0);
    }
  }

  lemma PrivateSane(st: State, dead: set<Bytes>)
    requires PrivateBut(st, dead)
    ensures Sane(st)
  {
  }

  lemma NothingSpent(st: State)
    requires Sane(st)
    ensures Spent(st, {}, [], 0)
  {
  }

  // --- When a persist is safe ---

  // From here on time is honest. `at` holds the moment of each piece. A commit reads the clock while it holds
  // the queue lock; a pop reads it before taking the lock, and an fput before it writes its file.

  /** The piece runs at moment `now`, with the readings the code can have taken by then, and drains at most 64. */
  predicate OnTime(a: Action, now: nat) {
    match a
    case Persist(_, _, receive) => receive <= now
    case Commit(_, reap) => reap == now
    case Pop(d, read) => read <= now && d.max <= 64
  }

  /** A persist of an envelope of the run, for its own handle and pointer. */
  ghost predicate Writes(u: set<Bytes>, put: Admitted, receive: nat) {
    IsHandle(put.handle) && RawOf(put, receive) in u && Stores(RawOf(put, receive), put.handle, put.pointer)
  }

  ghost predicate Genuine(u: set<Bytes>, st: State) {
    Faithful(u, st.queues) && forall id :: id in st.flights ==> Writes(u, st.flights[id].put, st.flights[id].receive)
  }

  ghost predicate Honest(u: set<Bytes>, a: Action) {
    a.Persist? ==> Writes(u, a.put, a.receive)
  }

  /** No entry without its file. */
  ghost predicate AllBacked(st: State) {
    forall h, c :: c in Cids(QueueOf(st.queues, h)) ==> c in st.files
  }

  /** A schedule from `st` and moment `clock` on whose persists use names that are not on disk. */
  ghost predicate Continues(u: set<Bytes>, cap: nat, st: State, clock: nat, states: seq<State>, actions: seq<Action>,
                            at: seq<nat>)
  {
    && |states| == |actions| + 1 && states[0] == st && |at| == |actions|
    && (forall j :: 0 <= j < |actions| ==> Piece(u, cap, states[j], actions[j], states[j + 1], at[j], clock))
    && (forall i, j :: 0 <= i < j < |at| ==> at[i] <= at[j])
  }

  /** One piece, at the moment `now`, no earlier than `clock`. */
  ghost predicate Piece(u: set<Bytes>, cap: nat, st: State, a: Action, st': State, now: nat, clock: nat) {
    Performs(cap, st, a, st') && NewName(st, a) && Honest(u, a) && OnTime(a, now) && clock <= now
  }

  lemma ContinuesMeans(u: set<Bytes>, cap: nat, st: State, clock: nat, states: seq<State>, actions: seq<Action>,
                       at: seq<nat>)
    requires Continues(u, cap, st, clock, states, actions, at)
    ensures IsSchedule(cap, states, actions) && forall j :: 0 <= j < |actions| ==> NewName(states[j], actions[j])
  {
    hide Performs, NewName, Honest, OnTime;
    forall j | 0 <= j < |actions| ensures Performs(cap, states[j], actions[j], states[j + 1])
                                          && NewName(states[j], actions[j])
    {
      assert Piece(u, cap, states[j], actions[j], states[j + 1], at[j], clock);
    }
  }

  /** Every such schedule keeps a file behind every entry. */
  ghost predicate SafeFrom(u: set<Bytes>, cap: nat, st: State, clock: nat) {
    forall states, actions, at :: Continues(u, cap, st, clock, states, actions, at) ==> AllBacked(states[|actions|])
  }

  /**
   * When two-way agreement survives: whatever runs after the moment `clock`, a persist is harmless if and only if
   * the name it writes is not on disk, or its pointer has burned by then, as an fput that was slow to write may
   * find. (A cap of at least one; the digests of the run's envelopes do not collide.)
   */
  lemma PersistIsSafeExactly(u: set<Bytes>, cap: nat, st: State, id: nat, put: Admitted, t: nat, clock: nat)
    requires cap >= 1 && NoCollision(u) && Genuine(u, st) && Private(st) && Unorphaned(st)
    requires Enabled(st, Persist(id, put, t)) && Writes(u, put, t) && t <= clock
    ensures SafeFrom(u, cap, Act(cap, st, Persist(id, put, t)), clock)
            <==> Cid(RawOf(put, t)) !in st.files || Deadline(put.pointer) <= clock
  {
    PrivateSane(st, {});
    hide NoCollision, Genuine, Writes, PrivateBut, Unorphaned, RawOf, Deadline, Act, SafeFrom, IsHandle;
    if Cid(RawOf(put, t)) !in st.files {
      NewNameIsSafe(u, cap, st, id, put, t, clock);
    } else if Deadline(put.pointer) <= clock {
      BurnedIsSafe(u, cap, st, id, put, t, clock);
    } else {
      UsedNameIsUnsafe(u, cap, st, id, put, t, clock);
    }
  }

  lemma NewNameIsSafe(u: set<Bytes>, cap: nat, st: State, id: nat, put: Admitted, t: nat, clock: nat)
    requires Private(st) && Enabled(st, Persist(id, put, t)) && Sane(st) && Cid(RawOf(put, t)) !in st.files
    ensures SafeFrom(u, cap, Act(cap, st, Persist(id, put, t)), clock)
  {
    hide PrivateBut, RawOf, IsHandle, Act, Spent, OnTime, Honest, AllBacked;
    var st' := Act(cap, st, Persist(id, put, t));
    NothingSpent(st);
    ActKeepsPrivate(cap, st, Persist(id, put, t), {}, [], 0);
    forall states, actions, at | Continues(u, cap, st', clock, states, actions, at)
      ensures AllBacked(states[|actions|])
    {
      ContinuesMeans(u, cap, st', clock, states, actions, at);
      PrivateSchedulesAgree(cap, states, actions, |actions|);
      PrivateBacked(states[|actions|], {});
    }
  }

  lemma PrivateBacked(st: State, dead: set<Bytes>)
    requires PrivateBut(st, dead)
    ensures AllBacked(st)
  {
  }

  // --- A burned pointer ---

  /** Every commit from now on reaps the entries of the used name, its own among them. */
  lemma BurnedIsSafe(u: set<Bytes>, cap: nat, st: State, id: nat, put: Admitted, t: nat, clock: nat)
    requires NoCollision(u) && Genuine(u, st) && Private(st) && Sane(st) && Enabled(st, Persist(id, put, t))
    requires Writes(u, put, t) && Cid(RawOf(put, t)) in st.files && Deadline(put.pointer) <= clock
    ensures SafeFrom(u, cap, Act(cap, st, Persist(id, put, t)), clock)
  {
    hide PrivateBut, RawOf, IsHandle, Act, Spent, OnTime, Honest, AllBacked, NoCollision, Genuine, Writes, Deadline,
         SpentName;
    var c := Cid(RawOf(put, t));
    var st' := Act(cap, st, Persist(id, put, t));
    NamesItsOwn(u, put, t, clock);
    AgainPersisted(cap, st, id, put, t);
    SpentFrom(u, cap, st, id, put, t, clock);
    forall states, actions, at | Continues(u, cap, st', clock, states, actions, at)
      ensures AllBacked(states[|actions|])
    {
      SpentSchedules(u, cap, states, actions, at, c, put.handle, clock, |actions|);
      PrivateBacked(states[|actions|], {c});
    }
  }

  /** In the run, the name `c` stands for one pointer of handle `h`, burned by `clock`. */
  ghost predicate SpentName(u: set<Bytes>, c: Bytes, h: Bytes, clock: nat) {
    forall k, p :: Names(u, c, k, p) ==> k == h && Deadline(p) <= clock
  }

  lemma NamesItsOwn(u: set<Bytes>, put: Admitted, t: nat, clock: nat)
    requires NoCollision(u) && Writes(u, put, t) && Deadline(put.pointer) <= clock
    ensures SpentName(u, Cid(RawOf(put, t)), put.handle, clock)
  {
    hide NoCollision, Names, Deadline, Cid, IsHandle;
    var c := Cid(RawOf(put, t));
    WrittenNames(u, put, t);
    forall k, p | Names(u, c, k, p) ensures k == put.handle && Deadline(p) <= clock {
      NamesUnique(u, c, k, p, put.handle, put.pointer);
    }
  }

  lemma WrittenNames(u: set<Bytes>, put: Admitted, t: nat)
    requires Writes(u, put, t)
    ensures IsHandle(put.handle) && Names(u, Cid(RawOf(put, t)), put.handle, put.pointer)
  {
    hide RawOf, Stores, IsHandle;
  }

  /** Writing a used name again changes no file name, and adds a flight under it. */
  lemma AgainPersisted(cap: nat, st: State, id: nat, put: Admitted, t: nat)
    requires Private(st) && Sane(st) && Enabled(st, Persist(id, put, t)) && Cid(RawOf(put, t)) in st.files
    ensures PrivateBut(Act(cap, st, Persist(id, put, t)), {Cid(RawOf(put, t))})
  {
    hide RawOf, IsHandle, DistinctCids, Cids, Deadline, Cid;
  }

  lemma SpentFrom(u: set<Bytes>, cap: nat, st: State, id: nat, put: Admitted, t: nat, clock: nat)
    requires Genuine(u, st) && Sane(st) && Enabled(st, Persist(id, put, t)) && Writes(u, put, t)
    requires SpentName(u, Cid(RawOf(put, t)), put.handle, clock)
    ensures var st' := Act(cap, st, Persist(id, put, t));
            Sane(st') && Spent(st', {Cid(RawOf(put, t))}, put.handle, clock)
  {
    hide RawOf, IsHandle, Writes, Names, Deadline, Cid, QueueOf;
    var c := Cid(RawOf(put, t));
    var st' := Act(cap, st, Persist(id, put, t));
    WrittenNames(u, put, t);
    forall jd | jd in st'.flights && FlightEntry(st'.flights[jd]).cid == c
      ensures st'.flights[jd].put.handle == put.handle && FlightEntry(st'.flights[jd]).deadline <= clock
    {
      WrittenNames(u, st'.flights[jd].put, st'.flights[jd].receive);
    }
    forall k, e | e in QueueOf(st'.queues, k) && e.cid == c ensures k == put.handle && e.deadline <= clock {
      assert FaithfulQueue(u, k, QueueOf(st.queues, k));
    }
  }

  lemma {:induction false} SpentSchedules(
    u: set<Bytes>, cap: nat, states: seq<State>, actions: seq<Action>, at: seq<nat>, c: Bytes, h: Bytes, clock: nat,
    i: nat)
    requires |states| > 0 && Continues(u, cap, states[0], clock, states, actions, at) && i <= |actions|
    requires SpentName(u, c, h, clock)
    requires PrivateBut(states[0], {c}) && Sane(states[0]) && Spent(states[0], {c}, h, clock)
    ensures PrivateBut(states[i], {c}) && Sane(states[i]) && Spent(states[i], {c}, h, clock)
  {
    hide Act, Enabled, PrivateBut, NewName, Spent, Sane, SpentName, OnTime, Honest;
    if i > 0 {
      SpentSchedules(u, cap, states, actions, at, c, h, clock, i - 1);
      var st, a := states[i - 1], actions[i - 1];
      assert Piece(u, cap, st, a, states[i], at[i - 1], clock);
      AllowedNext(u, a, at[i - 1], c, h, clock);
      ActKeepsPrivate(cap, st, a, {c}, h, clock);
    }
  }

  lemma AllowedNext(u: set<Bytes>, a: Action, now: nat, c: Bytes, h: Bytes, clock: nat)
    requires SpentName(u, c, h, clock) && Honest(u, a) && OnTime(a, now) && clock <= now
    ensures Allowed(a, {c}, h, clock)
  {
    hide IsHandle, RawOf, Names, Deadline, Cid, Writes;
    if a.Persist? {
      WrittenNames(u, a.put, a.receive);
    }
  }

  // --- A used name ---

  /** A commit or a pop at this very moment that leads to an unsafe state makes the state before it unsafe. */
  lemma UnsafeBefore(u: set<Bytes>, cap: nat, st: State, a: Action, clock: nat)
    requires Sane(st) && Enabled(st, a) && !a.Persist? && OnTime(a, clock)
    requires !SafeFrom(u, cap, Act(cap, st, a), clock)
    ensures !SafeFrom(u, cap, st, clock)
  {
    hide Act, Enabled, OnTime, AllBacked, Performs;
    var st1 := Act(cap, st, a);
    var states, actions, at :| Continues(u, cap, st1, clock, states, actions, at) && !AllBacked(states[|actions|]);
    Prepended(u, cap, st, a, clock, states, actions, at);
    var states', actions' := [st] + states, [a] + actions;
    assert states'[|actions'|] == states[|actions|];
    assert Continues(u, cap, st, clock, states', actions', [clock] + at);
  }

  lemma Prepended(u: set<Bytes>, cap: nat, st: State, a: Action, clock: nat, states: seq<State>, actions: seq<Action>,
                  at: seq<nat>)
    requires Sane(st) && Enabled(st, a) && !a.Persist? && OnTime(a, clock)
    requires Continues(u, cap, Act(cap, st, a), clock, states, actions, at)
    ensures Continues(u, cap, st, clock, [st] + states, [a] + actions, [clock] + at)
  {
    FirstPiece(u, cap, st, a, clock);
    hide Act, Enabled, OnTime, Sane, Piece;
    var states', actions', at' := [st] + states, [a] + actions, [clock] + at;
    forall j | 0 <= j < |actions'|
      ensures Piece(u, cap, states'[j], actions'[j], states'[j + 1], at'[j], clock)
    {
      if j > 0 {
        assert Piece(u, cap, states[j - 1], actions[j - 1], states[j], at[j - 1], clock);
      }
    }
    forall j | 0 <= j < |at| ensures clock <= at[j] {
      LaterPiece(u, cap, states[j], actions[j], states[j + 1], at[j], clock);
    }
  }

  lemma LaterPiece(u: set<Bytes>, cap: nat, st: State, a: Action, st': State, now: nat, clock: nat)
    requires Piece(u, cap, st, a, st', now, clock)
    ensures clock <= now
  {
    hide Performs, NewName, Honest, OnTime;
  }

  lemma FirstPiece(u: set<Bytes>, cap: nat, st: State, a: Action, clock: nat)
    requires Sane(st) && Enabled(st, a) && !a.Persist? && OnTime(a, clock)
    ensures Piece(u, cap, st, a, Act(cap, st, a), clock, clock)
  {
    hide Act;
  }

  lemma UnsafeNow(u: set<Bytes>, cap: nat, st: State, clock: nat)
    requires !AllBacked(st)
    ensures !SafeFrom(u, cap, st, clock)
  {
    hide AllBacked;
    var states, actions: seq<Action> := [st], [];
    assert Continues(u, cap, st, clock, states, actions, []) && states[|actions|] == st;
  }

  /** The file of a used name can be drained, or evicted and drained, before this fput commits. */
  lemma UsedNameIsUnsafe(u: set<Bytes>, cap: nat, st: State, id: nat, put: Admitted, t: nat, clock: nat)
    requires cap >= 1 && Unorphaned(st) && Enabled(st, Persist(id, put, t)) && clock < Deadline(put.pointer)
    requires Cid(RawOf(put, t)) in st.files
    ensures !SafeFrom(u, cap, Act(cap, st, Persist(id, put, t)), clock)
  {
    var c := Cid(RawOf(put, t));
    PersistKeeps(cap, st, id, put, t);
    hide RawOf, Deadline, Act, IsHandle, Cid, SafeFrom, Referenced;
    var st0 := Act(cap, st, Persist(id, put, t));
    if Referenced(st.queues, c) {
      var h := Referrer(st.queues, c);
      DrainStrands(u, cap, st0, id, h, c, clock);
    } else {
      var owner :| owner in st.flights && FlightEntry(st.flights[owner]).cid == c;
      OwnerStrands(u, cap, st0, owner, id, c, clock);
    }
  }

  lemma Referrer(queues: Index, c: Bytes) returns (h: Bytes)
    requires Referenced(queues, c)
    ensures c in Cids(QueueOf(queues, h))
  {
    h :| c in Cids(QueueOf(queues, h));
  }

  lemma PersistKeeps(cap: nat, st: State, id: nat, put: Admitted, t: nat)
    requires Sane(st) && Enabled(st, Persist(id, put, t))
    ensures var st' := Act(cap, st, Persist(id, put, t));
            && Sane(st') && st'.queues == st.queues && id in st'.flights && st'.flights[id] == Flight(put, t)
            && (forall k :: k in st.flights ==> k != id && k in st'.flights && st'.flights[k] == st.flights[k])
  {
    hide RawOf, Cid, IsHandle;
  }

  /** An fput in flight with a live pointer, past its persist, under the name `c`. */
  ghost predicate Pending(st: State, id: nat, c: Bytes, clock: nat) {
    Sane(st) && id in st.flights && FlightEntry(st.flights[id]).cid == c && clock < Deadline(st.flights[id].put.pointer)
  }

  /** The bad end: the file is gone, and then the fput commits its entry, which one place is enough to keep. */
  lemma CommitStrands(u: set<Bytes>, cap: nat, st: State, id: nat, c: Bytes, clock: nat)
    requires cap >= 1 && Pending(st, id, c, clock) && c !in st.files
    ensures !SafeFrom(u, cap, st, clock)
  {
    hide RawOf, IsHandle, Deadline, Cid, Put, Cids, SafeFrom;
    var f := st.flights[id];
    NewStays(QueueOf(st.queues, f.put.handle), FlightEntry(f), cap, clock);
    var st' := Act(cap, st, Commit(id, clock));
    assert c in Cids(QueueOf(st'.queues, f.put.handle)) && c !in st'.files;
    UnsafeNow(u, cap, st', clock);
    UnsafeBefore(u, cap, st, Commit(id, clock), clock);
  }

  lemma NewStays(q: Fifo, e: Queued, cap: nat, now: nat)
    requires cap >= 1 && now < e.deadline
    ensures e.cid in Cids(Put(q, e, cap, now).queue)
  {
    hide Reap, Dead, Find;
    var m, n, k := Merge(q, e), Excess(q, e, cap), Find(q, e.pointer);
    assert n <= k < |m| && m[k].cid == e.cid && m[k].deadline == e.deadline;
    assert m[n..][k - n] == m[k];
    ReapMembers(m[n..], now, m[k]);
    CidIn(Reap(m[n..], now), m[k]);
  }

  /** A pop of the next 64: the name goes, or the rest of the queue still has it. */
  lemma PopTakes(cap: nat, st: State, h: Bytes, c: Bytes, now: nat)
    requires Sane(st) && c in Cids(QueueOf(st.queues, h))
    ensures var st' := Act(cap, st, Pop(Drain(h, 64), now));
            && Sane(st') && st'.flights == st.flights && |QueueOf(st'.queues, h)| < |QueueOf(st.queues, h)|
            && (c in Cids(QueueOf(st'.queues, h)) || c !in st'.files)
  {
    hide Cids, IsHandle;
    var q := QueueOf(st.queues, h);
    var n := Taken(q, 64, now);
    assert n >= 1;
    hide Taken;
    if c !in Cids(q[..n]) {
      TailName(q, n, c);
    }
  }

  /** A queue refers to the name: drain it, 64 at a time, until the file is gone, then commit. */
  lemma {:induction false} DrainStrands(u: set<Bytes>, cap: nat, st: State, id: nat, h: Bytes, c: Bytes, clock: nat)
    requires cap >= 1 && Pending(st, id, c, clock) && c in Cids(QueueOf(st.queues, h))
    ensures !SafeFrom(u, cap, st, clock)
    decreases |QueueOf(st.queues, h)|
  {
    hide RawOf, IsHandle, Deadline, Cid, Act, Cids, SafeFrom, FlightEntry;
    PopTakes(cap, st, h, c, clock);
    var st1 := Act(cap, st, Pop(Drain(h, 64), clock));
    if c in Cids(QueueOf(st1.queues, h)) {
      DrainStrands(u, cap, st1, id, h, c, clock);
    } else {
      CommitStrands(u, cap, st1, id, c, clock);
    }
    UnsafeBefore(u, cap, st, Pop(Drain(h, 64), clock), clock);
  }

  /** Another fput in flight owns the name: let it commit, drain its queue, then commit. */
  lemma OwnerStrands(u: set<Bytes>, cap: nat, st: State, owner: nat, id: nat, c: Bytes, clock: nat)
    requires cap >= 1 && Pending(st, id, c, clock)
    requires owner in st.flights && owner != id && FlightEntry(st.flights[owner]).cid == c
    ensures !SafeFrom(u, cap, st, clock)
  {
    hide RawOf, IsHandle, Deadline, Cid, Act, Cids, SafeFrom, FlightEntry;
    var h := st.flights[owner].put.handle;
    OwnerCommits(cap, st, owner, c, clock);
    var st1 := Act(cap, st, Commit(owner, clock));
    if c in Cids(QueueOf(st1.queues, h)) {
      DrainStrands(u, cap, st1, id, h, c, clock);
    } else {
      CommitStrands(u, cap, st1, id, c, clock);
    }
    UnsafeBefore(u, cap, st, Commit(owner, clock), clock);
  }

  /** After its owner's commit a name is queued or its file is gone. */
  lemma OwnerCommits(cap: nat, st: State, owner: nat, c: Bytes, now: nat)
    requires Sane(st) && owner in st.flights && FlightEntry(st.flights[owner]).cid == c
    ensures var st1 := Act(cap, st, Commit(owner, now));
            && Sane(st1) && st1.flights == st.flights - {owner}
            && (c in Cids(QueueOf(st1.queues, st.flights[owner].put.handle)) || c !in st1.files)
  {
    hide RawOf, IsHandle, Deadline, Cid, Put, Cids;
    var f := st.flights[owner];
    PutKeepsOrDrops(QueueOf(st.queues, f.put.handle), FlightEntry(f), cap, now, c);
  }

  // --- Each piece keeps names private ---

  /** Commits reap whatever has burned by `clock`, and a dead name is only persisted for a burned pointer of `h`. */
  ghost predicate Allowed(a: Action, dead: set<Bytes>, h: Bytes, clock: nat) {
    && (a.Commit? && dead != {} ==> clock <= a.reap)
    && (a.Persist? && IsHandle(a.put.handle) && Cid(RawOf(a.put, a.receive)) in dead ==>
          a.put.handle == h && Deadline(a.put.pointer) <= clock)
  }

  lemma ActKeepsPrivate(cap: nat, st: State, a: Action, dead: set<Bytes>, h: Bytes, clock: nat)
    requires Enabled(st, a) && PrivateBut(st, dead) && Sane(st) && Spent(st, dead, h, clock)
    requires NewName(st, a) && Allowed(a, dead, h, clock)
    ensures var st' := Act(cap, st, a); PrivateBut(st', dead) && Sane(st') && Spent(st', dead, h, clock)
  {
    hide Put, RawOf, Taken, IsHandle, DistinctCids, Cids, PrivateBut, Spent, Act;
    match a
    case Persist(id, put, receive) => PersistKeepsPrivate(cap, st, a, dead, h, clock);
    case Commit(id, reap) => CommitKeepsPrivate(cap, st, id, reap, dead, h, clock);
    case Pop(d, now) => PopKeepsPrivate(cap, st, d, now, dead, h, clock);
  }

  lemma PersistKeepsPrivate(cap: nat, st: State, a: Action, dead: set<Bytes>, h: Bytes, clock: nat)
    requires a.Persist? && Enabled(st, a) && PrivateBut(st, dead) && Sane(st) && Spent(st, dead, h, clock)
    requires NewName(st, a) && Allowed(a, dead, h, clock)
    ensures var st' := Act(cap, st, a); PrivateBut(st', dead) && Sane(st') && Spent(st', dead, h, clock)
  {
    hide RawOf, IsHandle, Deadline, Cid;
    PersistPrivate(st, Act(cap, st, a), a.id, dead);
  }

  lemma PersistPrivate(st: State, st': State, id: nat, dead: set<Bytes>)
    requires PrivateBut(st, dead) && Sane(st') && id !in st.flights && st'.flights.Keys == st.flights.Keys + {id}
    requires forall k :: k in st.flights ==> st'.flights[k] == st.flights[k]
    requires st'.queues == st.queues && FlightEntry(st'.flights[id]).cid !in st.files
    requires forall c :: c in st'.files <==> c in st.files || c == FlightEntry(st'.flights[id]).cid
    ensures PrivateBut(st', dead)
  {
    hide FlightEntry, IsHandle, DistinctCids, Cids, QueueOf;
  }

  ghost predicate MayHold(st: State, committed: bool, id: nat, h: Bytes, c: Bytes)
    requires Sane(st) && (committed ==> id in st.flights)
  {
    c in Cids(QueueOf(st.queues, h))
    || (committed && h == st.flights[id].put.handle && c == FlightEntry(st.flights[id]).cid)
  }

  /** Names only leave, except that the flight `id`, when committed, may enter its own queue. */
  ghost predicate Passes(st: State, st': State, committed: bool, id: nat, dead: set<Bytes>)
    requires Sane(st)
  {
    && (committed ==> id in st.flights && id !in st'.flights)
    && (forall k :: k in st'.flights ==> k in st.flights && st'.flights[k] == st.flights[k])
    && (forall h :: DistinctCids(QueueOf(st'.queues, h)))
    && (forall h, c :: c in Cids(QueueOf(st'.queues, h)) ==> c in st'.files && MayHold(st, committed, id, h, c))
    && (forall h, e :: e in QueueOf(st'.queues, h) && e.cid in dead ==> e in QueueOf(st.queues, h))
    && (forall k :: k in st'.flights && FlightEntry(st.flights[k]).cid !in dead ==>
          FlightEntry(st.flights[k]).cid in st'.files)
  }

  lemma PrivateAfter(st: State, st': State, committed: bool, id: nat, dead: set<Bytes>, h: Bytes, clock: nat)
    requires PrivateBut(st, dead) && Sane(st) && Spent(st, dead, h, clock) && Passes(st, st', committed, id, dead)
    ensures PrivateBut(st', dead) && Sane(st') && Spent(st', dead, h, clock)
  {
    hide DistinctCids, RawOf, IsHandle, FlightEntry, Cids, QueueOf;
    forall k, l, c | k != l && c in Cids(QueueOf(st'.queues, k)) ensures c !in Cids(QueueOf(st'.queues, l)) {
      assert MayHold(st, committed, id, k, c);
      if c in Cids(QueueOf(st'.queues, l)) {
        assert MayHold(st, committed, id, l, c);
        OneHome(st, committed, id, dead, h, clock, k, l, c);
        assert false;
      }
    }
    forall jd, k | jd in st'.flights && FlightEntry(st'.flights[jd]).cid in Cids(QueueOf(st'.queues, k))
      ensures FlightEntry(st'.flights[jd]).cid in dead
    {
      FlightApart(st, committed, id, dead, jd, k);
    }
  }

  lemma FlightApart(st: State, committed: bool, id: nat, dead: set<Bytes>, jd: nat, k: Bytes)
    requires PrivateBut(st, dead) && jd in st.flights && (committed ==> id in st.flights && id != jd)
    requires MayHold(st, committed, id, k, FlightEntry(st.flights[jd]).cid)
    ensures FlightEntry(st.flights[jd]).cid in dead
  {
    hide DistinctCids, IsHandle, FlightEntry, Cids, QueueOf;
  }

  lemma OneHome(st: State, committed: bool, id: nat, dead: set<Bytes>, h: Bytes, clock: nat, k: Bytes, l: Bytes,
                c: Bytes)
    requires PrivateBut(st, dead) && Sane(st) && Spent(st, dead, h, clock) && (committed ==> id in st.flights)
    requires MayHold(st, committed, id, k, c) && MayHold(st, committed, id, l, c)
    ensures k == l
  {
    assert k != l && c in Cids(QueueOf(st.queues, k)) ==> c !in Cids(QueueOf(st.queues, l));
    hide PrivateBut, Spent, Sane, RawOf, IsHandle, FlightEntry, Cids, QueueOf;
    if c in Cids(QueueOf(st.queues, k)) {
      SpentAtHome(st, id, dead, h, clock, k, c);
    }
    if c in Cids(QueueOf(st.queues, l)) {
      SpentAtHome(st, id, dead, h, clock, l, c);
    }
  }

  /** A flight's name in a queue is in the flight's own. */
  lemma SpentAtHome(st: State, id: nat, dead: set<Bytes>, h: Bytes, clock: nat, k: Bytes, c: Bytes)
    requires PrivateBut(st, dead) && Sane(st) && Spent(st, dead, h, clock) && c in Cids(QueueOf(st.queues, k))
    ensures id in st.flights && FlightEntry(st.flights[id]).cid == c ==> k == st.flights[id].put.handle
  {
    hide DistinctCids, RawOf, IsHandle;
    var i := CidAt(QueueOf(st.queues, k), c);
    assert QueueOf(st.queues, k)[i] in QueueOf(st.queues, k);
  }

  lemma PopKeepsPrivate(cap: nat, st: State, d: Drain, now: nat, dead: set<Bytes>, h: Bytes, clock: nat)
    requires PrivateBut(st, dead) && Sane(st) && Spent(st, dead, h, clock)
    ensures var st' := Act(cap, st, Pop(d, now)); PrivateBut(st', dead) && Sane(st') && Spent(st', dead, h, clock)
  {
    hide Put, RawOf, Taken, IsHandle, Cids, DistinctCids, FlightEntry, Spent;
    if d.handle in st.queues {
      var q, n := st.queues[d.handle], Taken(st.queues[d.handle], d.max, now);
      var st' := Act(cap, st, Pop(d, now));
      assert q == QueueOf(st.queues, d.handle);
      PrefixTail(q, n);
      forall k ensures DistinctCids(QueueOf(st'.queues, k)) {
        assert DistinctCids(QueueOf(st.queues, k));
      }
      forall k, c | c in Cids(QueueOf(st'.queues, k)) ensures c in Cids(QueueOf(st.queues, k)) && c in st'.files {
        assert c in Cids(QueueOf(st.queues, k));
      }
      forall k | k in st.flights && FlightEntry(st.flights[k]).cid !in dead
        ensures FlightEntry(st.flights[k]).cid in st'.files
      {
        assert FlightEntry(st.flights[k]).cid !in Cids(q);
      }
      PrivateAfter(st, st', false, 0, dead, h, clock);
    }
  }

  lemma PrefixTail(q: Fifo, n: nat)
    requires n <= |q| && DistinctCids(q)
    ensures DistinctCids(q[n..])
    ensures forall c :: c in Cids(q[..n]) ==> c in Cids(q) && c !in Cids(q[n..])
    ensures forall c :: c in Cids(q[n..]) ==> c in Cids(q)
  {
    forall c | c in Cids(q[..n]) ensures c in Cids(q) && c !in Cids(q[n..]) {
      var k := CidAt(q[..n], c);
      assert q[k].cid == c && Cids(q)[k] == c;
    }
    forall c | c in Cids(q[n..]) ensures c in Cids(q) {
      var k := CidAt(q[n..], c);
      assert q[n + k].cid == c && Cids(q)[n + k] == c;
    }
  }

  lemma CommitKeepsPrivate(cap: nat, st: State, id: nat, reap: nat, dead: set<Bytes>, h: Bytes, clock: nat)
    requires PrivateBut(st, dead) && Sane(st) && Spent(st, dead, h, clock) && id in st.flights
    requires dead != {} ==> clock <= reap
    ensures var st' := Act(cap, st, Commit(id, reap));
            PrivateBut(st', dead) && Sane(st') && Spent(st', dead, h, clock)
  {
    var f := st.flights[id];
    CommitPasses(cap, st, id, reap, dead, h, clock);
    hide PrivateBut, Spent, Passes, Act, IsHandle;
    PrivateAfter(st, Act(cap, st, Commit(id, reap)), true, id, dead, h, clock);
  }

  lemma CommitPasses(cap: nat, st: State, id: nat, reap: nat, dead: set<Bytes>, h: Bytes, clock: nat)
    requires PrivateBut(st, dead) && Sane(st) && Spent(st, dead, h, clock) && id in st.flights
    requires dead != {} ==> clock <= reap
    ensures Passes(st, Act(cap, st, Commit(id, reap)), true, id, dead)
  {
    hide IsHandle, FlightEntry, Spent, QueueOf, PrivateBut, Settling, MayHold, Act, CommitStep, Cids, DistinctCids;
    var f := st.flights[id];
    var step := CommitStep(cap, st, f, reap);
    CommitSettles(cap, st, id, reap, dead, h, clock);
    CommitActs(cap, st, id, reap);
    var st' := Act(cap, st, Commit(id, reap));
    forall k ensures DistinctCids(QueueOf(st'.queues, k)) {
      StaysDistinct(st, id, dead, step, k);
    }
    forall k, c | c in Cids(QueueOf(st'.queues, k)) ensures c in st'.files && MayHold(st, true, id, k, c) {
      StaysBacked(st, id, dead, h, clock, step, k, c);
    }
    forall k, x | x in QueueOf(st'.queues, k) && x.cid in dead ensures x in QueueOf(st.queues, k) {
      if k == f.put.handle {
        NoneDead(st, id, step, dead, x);
      }
    }
    forall jd | jd in st'.flights && FlightEntry(st.flights[jd]).cid !in dead
      ensures FlightEntry(st.flights[jd]).cid in st'.files
    {
      FlightStays(st, id, dead, step, jd);
    }
  }

  lemma CommitSettles(cap: nat, st: State, id: nat, reap: nat, dead: set<Bytes>, h: Bytes, clock: nat)
    requires PrivateBut(st, dead) && Sane(st) && Spent(st, dead, h, clock) && id in st.flights
    requires dead != {} ==> clock <= reap
    ensures Settling(st, id, dead, CommitStep(cap, st, st.flights[id], reap))
  {
    BurnedByReap(st, id, reap, dead, h, clock);
    hide IsHandle, Put, Cids, DistinctCids, FlightEntry, Spent, QueueOf, Settles, BurnedNames;
    CommitNames(QueueOf(st.queues, st.flights[id].put.handle), FlightEntry(st.flights[id]), cap, reap, dead);
  }

  /** A commit's queue: distinct names, none of them dead, all of them old or the new one, and none dropped. */
  ghost predicate Settles(q: Fifo, e: Queued, step: Step, dead: set<Bytes>) {
    && DistinctCids(step.queue)
    && (forall c :: c in Cids(step.queue) ==> (c in Cids(q) || c == e.cid) && c !in step.drops && c !in dead)
    && (forall c :: c in step.drops ==> c in Cids(q) || c == e.cid)
  }

  ghost predicate Settling(st: State, id: nat, dead: set<Bytes>, step: Step) {
    && PrivateBut(st, dead) && Sane(st) && id in st.flights
    && Settles(QueueOf(st.queues, st.flights[id].put.handle), FlightEntry(st.flights[id]), step, dead)
  }

  lemma StaysDistinct(st: State, id: nat, dead: set<Bytes>, step: Step, k: Bytes)
    requires Settling(st, id, dead, step)
    ensures DistinctCids(if k == st.flights[id].put.handle then step.queue else QueueOf(st.queues, k))
  {
    hide DistinctCids, Cids, FlightEntry, IsHandle, QueueOf;
  }

  lemma StaysBacked(st: State, id: nat, dead: set<Bytes>, h: Bytes, clock: nat, step: Step, k: Bytes, c: Bytes)
    requires Settling(st, id, dead, step) && Spent(st, dead, h, clock)
    requires c in Cids(if k == st.flights[id].put.handle then step.queue else QueueOf(st.queues, k))
    ensures c in st.files && c !in step.drops && MayHold(st, true, id, k, c)
  {
    hide DistinctCids, Cids, FlightEntry, IsHandle, QueueOf, Spent;
    var f := st.flights[id];
    if k != f.put.handle {
      SpentAtHome(st, id, dead, h, clock, k, c);
      assert c !in Cids(QueueOf(st.queues, f.put.handle)) && c != FlightEntry(f).cid;
    }
  }

  lemma NoneDead(st: State, id: nat, step: Step, dead: set<Bytes>, x: Queued)
    requires Settling(st, id, dead, step) && x in step.queue
    ensures x.cid !in dead
  {
    hide PrivateBut, FlightEntry, IsHandle, QueueOf;
    CidIn(step.queue, x);
  }

  lemma FlightStays(st: State, id: nat, dead: set<Bytes>, step: Step, jd: nat)
    requires Settling(st, id, dead, step) && jd in st.flights && jd != id && FlightEntry(st.flights[jd]).cid !in dead
    ensures FlightEntry(st.flights[jd]).cid in st.files && FlightEntry(st.flights[jd]).cid !in step.drops
  {
    hide DistinctCids, Cids, FlightEntry, IsHandle, QueueOf;
    var c := FlightEntry(st.flights[jd]).cid;
    assert c !in Cids(QueueOf(st.queues, st.flights[id].put.handle)) && c != FlightEntry(st.flights[id]).cid;
  }

  lemma BurnedByReap(st: State, id: nat, reap: nat, dead: set<Bytes>, h: Bytes, clock: nat)
    requires Sane(st) && Spent(st, dead, h, clock) && id in st.flights && (dead != {} ==> clock <= reap)
    ensures BurnedNames(QueueOf(st.queues, st.flights[id].put.handle), dead, reap)
    ensures BurnedNames([FlightEntry(st.flights[id])], dead, reap)
  {
    hide FlightEntry, IsHandle, QueueOf;
  }

  predicate BurnedNames(q: Fifo, dead: set<Bytes>, now: nat) {
    forall x :: x in q && x.cid in dead ==> x.deadline <= now
  }

  /** What a commit changes. */
  lemma CommitActs(cap: nat, st: State, id: nat, reap: nat)
    requires Sane(st) && id in st.flights
    ensures var st', f := Act(cap, st, Commit(id, reap)), st.flights[id];
            var step := CommitStep(cap, st, f, reap);
            && (forall k :: QueueOf(st'.queues, k) == if k == f.put.handle then step.queue else QueueOf(st.queues, k))
            && (forall c :: c in st'.files <==> c in st.files && c !in step.drops)
            && st'.flights == st.flights - {id}
  {
    hide CommitStep, IsHandle;
  }

  /**
   * A commit of an unused or burned name: what stays in its queue has distinct names, none of them dead, that
   * come from the queue or are the new one, and keep their files.
   */
  lemma CommitNames(q: Fifo, e: Queued, cap: nat, now: nat, dead: set<Bytes>)
    requires DistinctCids(q) && (e.cid in Cids(q) ==> e.cid in dead)
    requires BurnedNames(q, dead, now) && BurnedNames([e], dead, now)
    ensures Settles(q, e, Put(q, e, cap, now), dead)
  {
    hide Put, Merge, DistinctCids, Cids, Alone;
    var step := Put(q, e, cap, now);
    UnusedMerge(q, e, dead);
    forall c | c in Cids(step.queue) ensures (c in Cids(q) || c == e.cid) && c !in step.drops && c !in dead {
      var k := CidAt(step.queue, c);
      var x := step.queue[k];
      PutMembers(q, e, cap, now, x);
      PutLives(q, e, cap, now, x);
      if x in q {
        CidIn(q, x);
      } else {
        assert e in [e];
      }
      forall d | d in step.drops ensures d != c {
        PutKeepsFiles(q, e, cap, now, x, d);
      }
    }
    forall c | c in step.drops ensures c in Cids(q) || c == e.cid {
      PutDropsKnown(q, e, cap, now, c);
    }
    PutDistinctCids(q, e, cap, now, dead);
  }

  lemma PutLives(q: Fifo, e: Queued, cap: nat, now: nat, x: Queued)
    requires x in Put(q, e, cap, now).queue
    ensures now < x.deadline
  {
    hide Merge, Excess, Reap, Dead;
    ReapMembers(Merge(q, e)[Excess(q, e, cap)..], now, x);
  }

  /** After the merge, only a dead name can be there twice. */
  lemma UnusedMerge(q: Fifo, e: Queued, dead: set<Bytes>)
    requires DistinctCids(q) && (e.cid in Cids(q) ==> e.cid in dead)
    ensures forall c :: c !in dead ==> Alone(Merge(q, e), c)
  {
    hide Find;
    var i, m := Find(q, e.pointer), Merge(q, e);
    forall k | 0 <= k < |q| && q[k].cid == e.cid ensures e.cid in dead {
      CidIn(q, q[k]);
    }
    assert forall k :: 0 <= k < |m| && k != i ==> m[k] == q[k];
    assert i < |m| && m[i].cid == e.cid;
  }

  lemma PutDistinctCids(q: Fifo, e: Queued, cap: nat, now: nat, dead: set<Bytes>)
    requires forall c :: c !in dead ==> Alone(Merge(q, e), c)
    requires forall c :: c in Cids(Put(q, e, cap, now).queue) ==> c !in dead
    ensures DistinctCids(Put(q, e, cap, now).queue)
  {
    hide Merge, Excess, Reap, Dead;
    var r := Put(q, e, cap, now).queue;
    forall i, j | 0 <= i < j < |r| ensures r[i].cid != r[j].cid {
      CidIn(r, r[i]);
      ReapAlone(Merge(q, e)[Excess(q, e, cap)..], now, r[i].cid);
    }
  }

  lemma {:induction false} ReapAlone(q: Fifo, now: nat, c: Bytes)
    requires Alone(q, c)
    ensures Alone(Reap(q, now), c)
  {
    if q != [] {
      ReapAlone(q[1..], now, c);
      ReapFirst(q, now);
      hide Reap;
      var r := Reap(q[1..], now);
      forall j | 0 <= j < |r| && q[0].cid == c ensures r[j].cid != c {
        var k := ReapedFrom(q, now, j);
      }
    }
  }
}
