/** The in-memory index and the hold agree: what every verb, crash and restart keeps. */
module Coherence {
  import opened Basics
  import opened Text
  import opened Envelope
  import opened Registry
  import opened Queue
  import opened QueueFacts
  import opened Hold
  import opened Restart
  import opened Relay

  // In the lemmas here and in the modules above, `u` holds the bytes of every envelope that is on
  // disk at the start or written during a run; its members are told apart by their digests.

  predicate Stores(raw: Bytes, h: Bytes, p: Pointer) {
    Parse(raw).Ok? && HandleOf(raw) == h && Parse(raw).value.pointer == p
  }

  /** `c` is the name of an envelope in `u` for pointer `p` of handle `h`. */
  ghost predicate Names(u: set<Bytes>, c: Bytes, h: Bytes, p: Pointer) {
    exists raw :: raw in u && Cid(raw) == c && Stores(raw, h, p)
  }

  lemma NamesUnique(u: set<Bytes>, c: Bytes, h: Bytes, p: Pointer, h': Bytes, p': Pointer)
    requires NoCollision(u) && Names(u, c, h, p) && Names(u, c, h', p')
    ensures h == h' && p == p'
  {
    hide Parse, HandleOf;
    var a :| a in u && Cid(a) == c && Stores(a, h, p);
    var b :| b in u && Cid(b) == c && Stores(b, h', p');
    HexEncodeInjective(Sha256(a), Sha256(b));
  }

  // --- The invariants ---

  /** Every file is well formed and named by its digest. */
  ghost predicate Addressed(u: set<Bytes>, files: Files) {
    forall c :: c in files ==> files[c] in u && Parse(files[c]).Ok? && c == Cid(files[c])
  }

  /** No orphan: every file is indexed in the queue of its own handle. */
  ghost predicate Indexed(queues: Index, files: Files)
    requires forall c :: c in files ==> Parse(files[c]).Ok?
  {
    forall c :: c in files ==> c in Cids(QueueOf(queues, HandleOf(files[c])))
  }

  /** Every entry carries the name of an envelope for its handle and pointer, and that pointer's deadline. */
  ghost predicate FaithfulQueue(u: set<Bytes>, h: Bytes, q: Fifo) {
    forall e :: e in q ==> Names(u, e.cid, h, e.pointer) && e.deadline == Deadline(e.pointer)
  }

  ghost predicate Faithful(u: set<Bytes>, queues: Index) {
    forall h :: FaithfulQueue(u, h, QueueOf(queues, h))
  }

  /** What holds in every run, with crashes at any file operation. */
  ghost predicate NoOrphans(u: set<Bytes>, queues: Index, files: Files) {
    Addressed(u, files) && Indexed(queues, files) && Faithful(u, queues)
  }

  lemma NoOrphansParts(u: set<Bytes>, queues: Index, files: Files)
    requires NoOrphans(u, queues, files)
    ensures Addressed(u, files) && Indexed(queues, files) && Faithful(u, queues)
  {
  }

  /** No entry is without its file. */
  ghost predicate BackedQueue(q: Fifo, files: Files) {
    forall e :: e in q ==> e.cid in files
  }

  ghost predicate Backed(queues: Index, files: Files) {
    forall h :: BackedQueue(QueueOf(queues, h), files)
  }

  ghost predicate Distinct(queues: Index) {
    forall h :: DistinctCids(QueueOf(queues, h)) && DistinctPointers(QueueOf(queues, h))
  }

  ghost predicate WithinCap(queues: Index, cap: nat) {
    forall h :: |QueueOf(queues, h)| <= cap
  }

  /** What holds in every crash-free run: index and disk agree both ways. */
  ghost predicate Coherent(u: set<Bytes>, queues: Index, files: Files) {
    NoOrphans(u, queues, files) && Backed(queues, files) && Distinct(queues)
  }

  /** Coherence spelled out: the file names are exactly the indexed names, each occurring once. */
  lemma CoherentMeans(u: set<Bytes>, queues: Index, files: Files)
    requires NoCollision(u) && Coherent(u, queues, files)
    ensures forall c :: c in files <==> exists h :: c in Cids(QueueOf(queues, h))
    ensures forall h, h', i: nat, j: nat ::
              (i < |QueueOf(queues, h)| && j < |QueueOf(queues, h')|
               && QueueOf(queues, h)[i].cid == QueueOf(queues, h')[j].cid) ==> (h == h' && i == j)
    ensures forall h, e :: e in QueueOf(queues, h) ==> Stores(files[e.cid], h, e.pointer)
  {
    hide Parse, HandleOf, Stores, NoCollision;
    forall h, e | e in QueueOf(queues, h) ensures e.cid in files && Stores(files[e.cid], h, e.pointer) {
      assert BackedQueue(QueueOf(queues, h), files);
      FileOfEntry(u, queues, files, h, e);
    }
    forall h, e | e in QueueOf(queues, h) ensures Names(u, e.cid, h, e.pointer) {
      assert FaithfulQueue(u, h, QueueOf(queues, h));
    }
    forall h, h', i: nat, j: nat | i < |QueueOf(queues, h)| && j < |QueueOf(queues, h')|
        && QueueOf(queues, h)[i].cid == QueueOf(queues, h')[j].cid
      ensures h == h' && i == j
    {
      var a, b := QueueOf(queues, h)[i], QueueOf(queues, h')[j];
      NamesUnique(u, a.cid, h, a.pointer, h', b.pointer);
    }
    forall c | exists h :: c in Cids(QueueOf(queues, h)) ensures c in files {
      var h :| c in Cids(QueueOf(queues, h));
      var i :| 0 <= i < |QueueOf(queues, h)| && Cids(QueueOf(queues, h))[i] == c;
      assert QueueOf(queues, h)[i] in QueueOf(queues, h);
      assert BackedQueue(QueueOf(queues, h), files);
    }
  }

  /** The file under an entry's name is an envelope for that entry. */
  lemma FileOfEntry(u: set<Bytes>, queues: Index, files: Files, h: Bytes, e: Queued)
    requires NoCollision(u) && NoOrphans(u, queues, files) && e in QueueOf(queues, h) && e.cid in files
    ensures Stores(files[e.cid], h, e.pointer)
  {
    hide HandleOf;
    var raw := files[e.cid];
    assert FaithfulQueue(u, h, QueueOf(queues, h));
    assert Names(u, e.cid, HandleOf(raw), Parse(raw).value.pointer) by {
      assert Stores(raw, HandleOf(raw), Parse(raw).value.pointer);
    }
    NamesUnique(u, e.cid, h, e.pointer, HandleOf(raw), Parse(raw).value.pointer);
  }

  // --- Changing one queue ---

  lemma FaithfulUpdate(u: set<Bytes>, queues: Index, h: Bytes, q: Fifo)
    requires Faithful(u, queues) && FaithfulQueue(u, h, q)
    ensures Faithful(u, queues[h := q])
  {
    hide FaithfulQueue;
    var queues' := queues[h := q];
    forall k ensures FaithfulQueue(u, k, QueueOf(queues', k)) {
      assert FaithfulQueue(u, k, QueueOf(queues, k));
    }
  }

  lemma IndexedUpdate(queues: Index, files: Files, h: Bytes, q: Fifo, files': Files)
    requires forall c :: c in files ==> Parse(files[c]).Ok?
    requires forall c :: c in files' ==> Parse(files'[c]).Ok?
    requires Indexed(queues, files)
    requires forall c :: c in files' && HandleOf(files'[c]) == h ==> c in Cids(q)
    requires forall c :: c in files' && HandleOf(files'[c]) != h ==> c in files && files[c] == files'[c]
    ensures Indexed(queues[h := q], files')
  {
    hide Parse, HandleOf;
  }

  lemma BackedUpdate(queues: Index, files: Files, h: Bytes, q: Fifo, files': Files)
    requires Backed(queues, files) && BackedQueue(q, files')
    requires forall k, e :: k != h && e in QueueOf(queues, k) && e.cid in files ==> e.cid in files'
    ensures Backed(queues[h := q], files')
  {
    var queues' := queues[h := q];
    forall k ensures BackedQueue(QueueOf(queues', k), files') {
      assert BackedQueue(QueueOf(queues, k), files);
    }
  }

  lemma DistinctUpdate(queues: Index, h: Bytes, q: Fifo)
    requires Distinct(queues) && DistinctCids(q) && DistinctPointers(q)
    ensures Distinct(queues[h := q])
  {
    hide DistinctCids, DistinctPointers;
    var queues' := queues[h := q];
    forall k ensures DistinctCids(QueueOf(queues', k)) && DistinctPointers(QueueOf(queues', k)) {
      assert DistinctCids(QueueOf(queues, k)) && DistinctPointers(QueueOf(queues, k));
    }
  }

  // --- What the verbs do to the files ---

  lemma StoredFiles(cfg: Config, s: Relay, a: Admitted, tm: PutTimes)
    requires IsHandle(a.handle)
    ensures var raw := RawOf(a, tm.receive);
            Stored(cfg, s, a, tm).disk.fenv ==
            s.disk.fenv[Cid(raw) := raw] - Elements(PutStep(cfg, s.queues, a, tm).drops)
  {
    hide ApplyAll, PutStep, RawOf, Cid, PersistSteps, RemoveSteps;
    var raw, drops := RawOf(a, tm.receive), PutStep(cfg, s.queues, a, tm).drops;
    ApplyConcat(s.disk, PersistSteps(Cid(raw), raw), RemoveSteps(drops));
    PersistApplied(s.disk, Cid(raw), raw);
    RemovesApplied(ApplyAll(s.disk, PersistSteps(Cid(raw), raw)), drops);
  }

  lemma DrainedFiles(s: Relay, d: Drain, now: nat)
    ensures Drained(s, d, now).disk.fenv ==
            s.disk.fenv - Elements(Cids(QueueOf(s.queues, d.handle)[..DrainCount(s.queues, d, now)]))
  {
    hide ApplyAll, RemoveSteps;
    var gone := Cids(QueueOf(s.queues, d.handle)[..DrainCount(s.queues, d, now)]);
    RemovesApplied(s.disk, gone);
    if d.handle !in s.queues {
      assert gone == [];
      assert s.disk.fenv - Elements([]) == s.disk.fenv;
    }
  }

  /** The new envelope parses to its own handle and pointer. */
  lemma NewRaw(a: Admitted, receive: nat)
    requires IsHandle(a.handle) && HexEncode(HexDecode(a.handle).value) == a.handle
    requires PointerHeader(a.pointer) && receive < TWO_64
    ensures Stores(RawOf(a, receive), a.handle, a.pointer)
    ensures Parse(RawOf(a, receive)).value.receivedAt == receive
  {
    hide Marshal, Parse, HexEncode, HexDecode, PointerHeader;
    ParseUndoesMarshal(Envelope(HexDecode(a.handle).value, a.pointer, receive));
  }
}
