/** The decoder does a linear amount of work, and builds a linear amount of data, on any input. */
module CborWork {
  import opened Basics
  import opened Json
  import opened Cbor

  /** Calls of decode_value, the outer one included, that a decode at this depth makes. */
  function CallsAt(depth: nat): Bytes -> nat
    decreases LevelsLeft(depth)
  {
    if depth > MAX_DEPTH then (b: Bytes) => 1
    else
      var child, cost := DecoderAt(depth + 1), CallsAt(depth + 1);
      (b: Bytes) => 1 + CallsOfChildren(child, cost, b)
  }

  function Calls(buf: Bytes, depth: nat): nat {
    CallsAt(depth)(buf)
  }

  lemma CallsStep(buf: Bytes, depth: nat)
    ensures Calls(buf, depth) ==
            if depth > MAX_DEPTH then 1 else 1 + CallsOfChildren(DecoderAt(depth + 1), CallsAt(depth + 1), buf)
  {
  }

  /** Calls for the children of the item at `buf`, when a child at `b` takes `cost(b)`. */
  function CallsOfChildren(child: ItemDecoder, cost: Bytes -> nat, buf: Bytes): nat {
    match ReadHead(buf)
    case None => 0
    case Some(h) =>
      if h.major == 4 then CallsOfItems(child, cost, buf[h.pos..], h.n)
      else if h.major == 5 then CallsOfItems(child, cost, buf[h.pos..], 2 * h.n)
      else 0
  }

  function CallsOfItems(dec: ItemDecoder, cost: Bytes -> nat, buf: Bytes, n: nat): nat
    decreases n
  {
    if n == 0 then 0 else
    match dec(buf)
    case None => cost(buf)
    case Some(d) => cost(buf) + CallsOfItems(dec, cost, buf[d.used..], n - 1)
  }

  /** One call per used byte on success, at most one per byte plus one on failure. */
  ghost predicate Linear(dec: ItemDecoder, cost: Bytes -> nat) {
    forall b :: cost(b) <= match dec(b) case Some(d) => d.used case None => |b| + 1
  }

  ghost predicate IsCostLevel(outer: Bytes -> nat, child: ItemDecoder, cost: Bytes -> nat) {
    forall b :: outer(b) == 1 + CallsOfChildren(child, cost, b)
  }

  lemma CostLevelAt(depth: nat)
    requires depth <= MAX_DEPTH
    ensures IsCostLevel(CallsAt(depth), DecoderAt(depth + 1), CallsAt(depth + 1))
  {
  }

  lemma LinearLift(dec: ItemDecoder, outer: Bytes -> nat, child: ItemDecoder, cost: Bytes -> nat)
    requires Linear(child, cost) && IsLevel(dec, child)
    requires IsCostLevel(outer, child, cost)
    ensures Linear(dec, outer)
  {
    forall b ensures outer(b) <= match dec(b) case Some(d) => d.used case None => |b| + 1 {
      assert dec(b) == DecodeWith(child, b);
      if ReadHead(b).Some? {
        var h := ReadHead(b).value;
        if h.major == 4 {
          ItemsCallsBound(child, cost, b[h.pos..], h.n);
        } else if h.major == 5 {
          ItemsCallsBound(child, cost, b[h.pos..], 2 * h.n);
        }
      }
    }
  }

  lemma LinearBeyondCap(depth: nat)
    requires depth > MAX_DEPTH
    ensures Linear(DecoderAt(depth), CallsAt(depth))
  {
    var dec, cost := DecoderAt(depth), CallsAt(depth);
    forall b ensures cost(b) <= match dec(b) case Some(d) => d.used case None => |b| + 1 {
      assert dec(b) == None && cost(b) == 1;
    }
  }

  lemma {:induction false} DecoderLinear(depth: nat)
    ensures Linear(DecoderAt(depth), CallsAt(depth))
    decreases MAX_DEPTH + 1 - depth
  {
    if depth <= MAX_DEPTH {
      DecoderLinear(depth + 1);
      LevelAt(depth);
      CostLevelAt(depth);
      LinearLift(DecoderAt(depth), CallsAt(depth), DecoderAt(depth + 1), CallsAt(depth + 1));
    } else {
      LinearBeyondCap(depth);
    }
  }

  /** The bound holds however many items the heads declare. */
  lemma CallsBound(buf: Bytes, depth: nat)
    ensures Calls(buf, depth) <= match DecodeValue(buf, depth) case Some(d) => d.used case None => |buf| + 1
  {
    DecoderLinear(depth);
  }

  lemma {:induction false} ItemsCallsBound(dec: ItemDecoder, cost: Bytes -> nat, buf: Bytes, n: nat)
    requires Linear(dec, cost)
    ensures CallsOfItems(dec, cost, buf, n)
            <= match DecodeItems(dec, buf, n) case Some((_, used)) => used case None => |buf| + 1
    decreases n
  {
    if n > 0 && dec(buf).Some? {
      ItemsCallsBound(dec, cost, buf[dec(buf).value.used..], n - 1);
    }
  }

  // --- Size of the result ---

  /** Nodes of a value plus the bytes of all its texts, keys included. */
  function Size(v: Json): nat {
    match v
    case Str(t) => 1 + |t|
    case Arr(items) => 1 + SizeOfItems(items)
    case Obj(fields) => 1 + SizeOfFields(fields)
    case _ => 1
  }

  function SizeOfItems(items: seq<Json>): nat {
    if items == [] then 0 else Size(items[0]) + SizeOfItems(items[1..])
  }

  function SizeOfFields(fs: Fields): nat {
    if fs.Empty? then 0 else |fs.key| + Size(fs.value) + SizeOfFields(fs.rest)
  }

  lemma {:induction false} InsertSize(fs: Fields, k: Bytes, v: Json)
    ensures SizeOfFields(Insert(fs, k, v)) <= SizeOfFields(fs) + |k| + Size(v)
  {
    if fs.Entry? {
      InsertSize(fs.rest, k, v);
    }
  }

  /** Results are at most twice as large as the bytes they came from. */
  ghost predicate Compact(dec: ItemDecoder) {
    forall b :: dec(b).Some? ==> Size(dec(b).value.value) <= 2 * dec(b).value.used
  }

  lemma CompactLift(dec: ItemDecoder, child: ItemDecoder)
    requires Compact(child) && IsLevel(dec, child)
    ensures Compact(dec)
  {
    hide Compact, DecodeWith, Size;
    forall b | dec(b).Some?
      ensures Size(dec(b).value.value) <= 2 * dec(b).value.used
    {
      assert dec(b) == DecodeWith(child, b);
      OneCompact(child, b);
    }
    AllCompact(dec);
  }

  lemma AllCompact(dec: ItemDecoder)
    requires forall b :: dec(b).Some? ==> Size(dec(b).value.value) <= 2 * dec(b).value.used
    ensures Compact(dec)
  {
    hide Size;
  }

  lemma OneCompact(child: ItemDecoder, b: Bytes)
    requires Compact(child) && DecodeWith(child, b).Some?
    ensures var d := DecodeWith(child, b).value; Size(d.value) <= 2 * d.used
  {
    hide Compact, DecodeItems, ReadHead, Collect;
    var h := ReadHead(b).value;
    if h.major == 4 {
      ItemsSizeBound(child, b[h.pos..], h.n);
    } else if h.major == 5 {
      ItemsSizeBound(child, b[h.pos..], 2 * h.n);
      CollectSize(Empty, DecodeItems(child, b[h.pos..], 2 * h.n).value.0);
    }
  }

  lemma CompactBeyondCap(depth: nat)
    requires depth > MAX_DEPTH
    ensures Compact(DecoderAt(depth))
  {
    forall b ensures DecoderAt(depth)(b).None? {
      NothingBeyondCap(depth);
    }
  }

  lemma {:induction false} DecoderCompact(depth: nat)
    ensures Compact(DecoderAt(depth))
    decreases MAX_DEPTH + 1 - depth
  {
    if depth <= MAX_DEPTH {
      DecoderCompact(depth + 1);
      LevelAt(depth);
      CompactLift(DecoderAt(depth), DecoderAt(depth + 1));
    } else {
      CompactBeyondCap(depth);
    }
  }

  /** A decoded value is at most twice as large as its encoding. */
  lemma SizeBound(buf: Bytes, depth: nat)
    requires DecodeValue(buf, depth).Some?
    ensures Size(DecodeValue(buf, depth).value.value) <= 2 * DecodeValue(buf, depth).value.used
  {
    DecoderCompact(depth);
  }

  lemma {:induction false} ItemsSizeBound(dec: ItemDecoder, buf: Bytes, n: nat)
    requires Compact(dec) && DecodeItems(dec, buf, n).Some?
    ensures SizeOfItems(DecodeItems(dec, buf, n).value.0) <= 2 * DecodeItems(dec, buf, n).value.1
    decreases n
  {
    if n > 0 {
      var d := dec(buf).value;
      ItemsSizeBound(dec, buf[d.used..], n - 1);
      var items := DecodeItems(dec, buf, n).value.0;
      assert items[1..] == DecodeItems(dec, buf[d.used..], n - 1).value.0;
    }
  }

  lemma {:induction false} CollectSize(m: Fields, items: seq<Json>)
    ensures SizeOfFields(Collect(m, items)) <= SizeOfFields(m) + SizeOfItems(items)
    decreases |items|
  {
    if |items| >= 2 {
      var k, v := items[0], items[1];
      if k.Str? {
        InsertSize(m, k.text, v);
      }
      CollectSize(InsertPair(m, k, v), items[2..]);
      assert items[1..][1..] == items[2..];
    }
  }
}
