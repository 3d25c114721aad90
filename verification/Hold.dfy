/** The hold directory as the relay uses it: envelope files, temporary files, and the restart rebuild. */
module Hold {
  import opened Basics
  import opened Text
  import opened Envelope
  import opened Queue

  type Files = map<Bytes, Bytes>

  /** `<stem>.fenv` and `<stem>.tmp` files, by stem. */
  datatype Disk = Disk(fenv: Files, tmp: Files)

  /** File operations; each is atomic and lasts once done. */
  datatype FileStep = WriteTmp(stem: Bytes, raw: Bytes) | Rename(stem: Bytes) | Remove(stem: Bytes)

  function Apply(d: Disk, s: FileStep): Disk {
    match s
    case WriteTmp(c, raw) => d.(tmp := d.tmp[c := raw])
    case Rename(c) => if c in d.tmp then Disk(d.fenv[c := d.tmp[c]], d.tmp - {c}) else d
    case Remove(c) => d.(fenv := d.fenv - {c})
  }

  function ApplyAll(d: Disk, steps: seq<FileStep>): Disk {
    if steps == [] then d else Apply(ApplyAll(d, steps[..|steps| - 1]), steps[|steps| - 1])
  }

  /** persist_envelope: write the temporary file, then rename it. */
  function PersistSteps(stem: Bytes, raw: Bytes): seq<FileStep> {
    [WriteTmp(stem, raw), Rename(stem)]
  }

  function RemoveSteps(stems: seq<Bytes>): (r: seq<FileStep>)
    ensures |r| == |stems|
  {
    seq(|stems|, i requires 0 <= i < |stems| => Remove(stems[i]))
  }

  /** The name an envelope file is stored under: the hex digest of its bytes. */
  function Cid(raw: Bytes): Bytes {
    HexEncode(Sha256(raw))
  }

  function Elements(s: seq<Bytes>): (r: set<Bytes>)
    ensures forall x :: x in r <==> x in s
  {
    set x | x in s
  }

  lemma {:induction false} ApplyConcat(d: Disk, a: seq<FileStep>, b: seq<FileStep>)
    ensures ApplyAll(d, a + b) == ApplyAll(ApplyAll(d, a), b)
    decreases |b|
  {
    if b == [] {
      assert a + b == a;
    } else {
      ApplyConcat(d, a, b[..|b| - 1]);
      assert (a + b)[..|a + b| - 1] == a + b[..|b| - 1];
    }
  }

  lemma PersistApplied(d: Disk, stem: Bytes, raw: Bytes)
    ensures ApplyAll(d, PersistSteps(stem, raw)).fenv == d.fenv[stem := raw]
    ensures ApplyAll(d, PersistSteps(stem, raw)).tmp == d.tmp - {stem}
    ensures ApplyAll(d, PersistSteps(stem, raw)[..1]).fenv == d.fenv
  {
    var steps := PersistSteps(stem, raw);
    assert steps[..1] == [WriteTmp(stem, raw)];
    assert steps[..1][..0] == [];
    assert ApplyAll(d, steps[..1]) == Apply(ApplyAll(d, []), steps[0]);
  }

  lemma {:induction false} RemovesApplied(d: Disk, stems: seq<Bytes>)
    ensures ApplyAll(d, RemoveSteps(stems)) == d.(fenv := d.fenv - Elements(stems))
    decreases |stems|
  {
    if stems == [] {
      assert d.fenv - Elements(stems) == d.fenv;
    } else {
      var k := |stems| - 1;
      RemovesApplied(d, stems[..k]);
      assert RemoveSteps(stems)[..k] == RemoveSteps(stems[..k]);
      assert Elements(stems) == Elements(stems[..k]) + {stems[k]};
      assert d.fenv - Elements(stems[..k]) - {stems[k]} == d.fenv - Elements(stems);
    }
  }

  // --- Rebuilding the index (FabricState::open) ---

  /** A file that `open` keeps: a well-formed envelope with its deadline in (now, now + horizon]. */
  predicate Kept(raw: Bytes, now: nat, horizon: nat) {
    Parse(raw).Ok? && now < Deadline(Parse(raw).value.pointer) <= now + horizon
  }

  function OpenFiles(files: Files, now: nat, horizon: nat): Files {
    map c | c in files && Kept(files[c], now, horizon) :: files[c]
  }

  /** The files that `open` removes, in the order it comes to them. */
  function Unkept(order: seq<Bytes>, files: Files, now: nat, horizon: nat): seq<Bytes>
    requires forall c :: c in order ==> c in files
  {
    if order == [] then [] else
    var c := order[|order| - 1];
    Unkept(order[..|order| - 1], files, now, horizon) + if Kept(files[c], now, horizon) then [] else [c]
  }

  /** All file operations of `open`, in order. */
  function OpenSteps(order: seq<Bytes>, files: Files, now: nat, horizon: nat): seq<FileStep>
    requires forall c :: c in order ==> c in files
  {
    RemoveSteps(Unkept(order, files, now, horizon))
  }

  lemma {:induction false} UnkeptMembers(order: seq<Bytes>, files: Files, now: nat, horizon: nat, c: Bytes)
    requires forall d :: d in order ==> d in files
    ensures c in Unkept(order, files, now, horizon) <==> c in order && !Kept(files[c], now, horizon)
  {
    hide Kept;
    if order != [] {
      var k := |order| - 1;
      UnkeptMembers(order[..k], files, now, horizon, c);
      assert order == order[..k] + [order[k]];
    }
  }

  /** Its operations, all of them, leave exactly the kept files. */
  lemma OpenApplied(d: Disk, order: seq<Bytes>, now: nat, horizon: nat)
    requires IsListing(order, d.fenv)
    ensures ApplyAll(d, OpenSteps(order, d.fenv, now, horizon)) == d.(fenv := OpenFiles(d.fenv, now, horizon))
  {
    hide Kept, ApplyAll, Unkept;
    var gone := Unkept(order, d.fenv, now, horizon);
    RemovesApplied(d, gone);
    forall c ensures c in gone <==> c in order && !Kept(d.fenv[c], now, horizon) {
      UnkeptMembers(order, d.fenv, now, horizon, c);
    }
    assert d.fenv - Elements(gone) == OpenFiles(d.fenv, now, horizon);
  }

  /** Some of the files, unchanged. */
  ghost predicate Part(some: Files, files: Files) {
    forall c :: c in some ==> c in files && some[c] == files[c]
  }

  function HandleOf(raw: Bytes): Bytes
    requires Parse(raw).Ok?
  {
    HexEncode(Parse(raw).value.handle)
  }

  function EntryOf(stem: Bytes, raw: Bytes): Queued
    requires Parse(raw).Ok?
  {
    var e := Parse(raw).value;
    Queued(e.pointer, stem, Deadline(e.pointer), e.receivedAt)
  }

  /** The entries of one handle, in the order the directory lists its files. */
  function Listed(order: seq<Bytes>, files: Files, h: Bytes, now: nat, horizon: nat): (q: Fifo)
    requires forall c :: c in order ==> c in files
  {
    if order == [] then [] else
    var c := order[|order| - 1];
    Listed(order[..|order| - 1], files, h, now, horizon)
      + if Kept(files[c], now, horizon) && HandleOf(files[c]) == h then [EntryOf(c, files[c])] else []
  }

  /** The sort key: receive time, then file name. */
  predicate Before(a: Queued, b: Queued) {
    a.receivedAt < b.receivedAt || (a.receivedAt == b.receivedAt && Less(a.cid, b.cid))
  }

  function Place(e: Queued, q: Fifo): (r: Fifo)
    ensures |r| == |q| + 1
  {
    if q == [] || !Before(q[0], e) then [e] + q else [q[0]] + Place(e, q[1..])
  }

  function Sort(q: Fifo): (r: Fifo)
    ensures |r| == |q|
  {
    if q == [] then [] else Place(q[|q| - 1], Sort(q[..|q| - 1]))
  }

  /** A directory listing: every file once, in any order. */
  ghost predicate IsListing(order: seq<Bytes>, files: Files) {
    (forall c :: c in order <==> c in files)
    && forall i, j :: 0 <= i < j < |order| ==> order[i] != order[j]
  }

  type Index = map<Bytes, Fifo>

  function QueueOf(queues: Index, h: Bytes): Fifo {
    if h in queues then queues[h] else []
  }

  /** `queues` is what `open` builds from a listing. */
  ghost predicate IsRebuilt(queues: Index, order: seq<Bytes>, files: Files, now: nat, horizon: nat)
    requires forall c :: c in order ==> c in files
  {
    forall h :: QueueOf(queues, h) == Sort(Listed(order, files, h, now, horizon))
  }
}
