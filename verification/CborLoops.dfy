/** The loops of the codec as the program runs them, proved against the functions that specify them. */
module CborLoops {
  import opened Basics
  import opened Text
  import opened Json
  import opened Cbor
  import opened CborReads
  import opened CborRoundTrip
  import opened CborWork

  /** The same pair `match` arms give: the loop's own result and the next piece of the rest. */
  function Prepend(items: seq<Json>, used: nat, r: Option<(seq<Json>, nat)>): Option<(seq<Json>, nat)> {
    match r
    case None => None
    case Some((rest, more)) => Some((items + rest, used + more))
  }

  lemma Start(dec: ItemDecoder, cost: Bytes -> nat, body: Bytes, n: nat)
    ensures DecodeItems(dec, body, n) == Prepend([], 0, DecodeItems(dec, body[0..], n))
    ensures CallsOfItems(dec, cost, body, n) == CallsOfItems(dec, cost, body[0..], n)
  {
    assert body[0..] == body;
    var r := DecodeItems(dec, body, n);
    if r.Some? {
      assert [] + r.value.0 == r.value.0;
    }
  }

  lemma Finish(dec: ItemDecoder, cost: Bytes -> nat, body: Bytes, items: seq<Json>, at: nat)
    ensures Prepend(items, at, DecodeItems(dec, body, 0)) == Some((items, at))
    ensures CallsOfItems(dec, cost, body, 0) == 0
  {
    assert items + [] == items;
  }

  /** One item of `n`: what is left to decode after it. */
  lemma NextItem(dec: ItemDecoder, body: Bytes, at: nat, items: seq<Json>, n: nat)
    requires at <= |body| && n > 0
    ensures Prepend(items, at, DecodeItems(dec, body[at..], n)) ==
            match dec(body[at..])
            case None => None
            case Some(d) => Prepend(items + [d.value], at + d.used, DecodeItems(dec, body[at + d.used..], n - 1))
  {
    hide Prepend;
    var d := dec(body[at..]);
    if d.Some? {
      assert body[at..][d.value.used..] == body[at + d.value.used..];
      PrependOne(items, at, d.value, DecodeItems(dec, body[at + d.value.used..], n - 1));
    }
    PrependNone(items, at);
  }

  lemma PrependOne(items: seq<Json>, at: nat, d: Decoded, r: Option<(seq<Json>, nat)>)
    ensures Prepend(items, at, if r.None? then None else Some(([d.value] + r.value.0, d.used + r.value.1))) ==
            Prepend(items + [d.value], at + d.used, r)
  {
    if r.Some? {
      assert items + ([d.value] + r.value.0) == items + [d.value] + r.value.0;
    }
  }

  lemma PrependNone(items: seq<Json>, at: nat)
    ensures Prepend(items, at, None) == None
  {
  }

  lemma NextCost(dec: ItemDecoder, cost: Bytes -> nat, body: Bytes, at: nat, n: nat)
    requires at <= |body| && n > 0
    ensures CallsOfItems(dec, cost, body[at..], n) ==
            cost(body[at..]) +
            match dec(body[at..])
            case None => 0
            case Some(d) => CallsOfItems(dec, cost, body[at + d.used..], n - 1)
  {
    var d := dec(body[at..]);
    if d.Some? {
      assert body[at..][d.value.used..] == body[at + d.value.used..];
    }
  }

  /**
   * decode_value with its array and map loops. `calls` counts the calls it makes.
   * The `used == 0` exits of the program are shown to be dead.
   */
  method DecodeValueLoop(buf: Bytes, depth: nat) returns (r: Option<Decoded>, ghost calls: nat)
    ensures r == DecodeValue(buf, depth)
    ensures calls == Calls(buf, depth)
    decreases LevelsLeft(depth), 0
  {
    DecodeValueStep(buf, depth);
    CallsStep(buf, depth);
    hide DecodeValue, DecoderAt, DecodeItems, DecodeScalar, Calls, CallsAt, CallsOfItems, ReadHead;
    calls := 1;
    if depth > MAX_DEPTH {
      return None, calls;
    }
    var head := ReadHead(buf);
    match head
    case None =>
      return None, calls;
    case Some(h) =>
      if h.major == 4 {
        var items, used;
        items, used, calls := ItemsLoop(buf[h.pos..], depth + 1, h.n);
        calls := calls + 1;
        if items.None? {
          return None, calls;
        }
        return Some(Decoded(Arr(items.value), h.pos + used)), calls;
      } else if h.major == 5 {
        var fields, used;
        fields, used, calls := PairsLoop(buf[h.pos..], depth + 1, h.n);
        calls := calls + 1;
        if fields.None? {
          return None, calls;
        }
        return Some(Decoded(Obj(fields.value), h.pos + used)), calls;
      } else {
        return DecodeScalar(buf, h), calls;
      }
  }

  /** What a loop has done, and has left to do: `left` items of `n`, at offset `at`, for `calls` calls so far. */
  ghost predicate Midway(depth: nat, body: Bytes, n: nat, items: seq<Json>, at: nat, left: nat, calls: nat) {
    at <= |body|
    && DecodeItems(DecoderAt(depth), body, n) == Prepend(items, at, DecodeItems(DecoderAt(depth), body[at..], left))
    && CallsOfItems(DecoderAt(depth), CallsAt(depth), body, n) ==
       calls + CallsOfItems(DecoderAt(depth), CallsAt(depth), body[at..], left)
  }

  lemma MidwayStarts(depth: nat, body: Bytes, n: nat)
    ensures Midway(depth, body, n, [], 0, n, 0)
  {
    hide DecoderAt, DecodeItems, CallsAt, CallsOfItems, Prepend;
    Start(DecoderAt(depth), CallsAt(depth), body, n);
  }

  /** One more item, decoded or refused. */
  lemma MidwayNext(depth: nat, body: Bytes, n: nat, items: seq<Json>, at: nat, left: nat, calls: nat)
    requires Midway(depth, body, n, items, at, left, calls) && left > 0
    ensures at <= |body|
    ensures var d, calls' := DecoderAt(depth)(body[at..]), calls + CallsAt(depth)(body[at..]);
            if d.None? then DecodeItems(DecoderAt(depth), body, n) == None
                            && CallsOfItems(DecoderAt(depth), CallsAt(depth), body, n) == calls'
            else d.value.used >= 1
                 && Midway(depth, body, n, items + [d.value.value], at + d.value.used, left - 1, calls')
  {
    hide DecoderAt, DecodeItems, CallsAt, CallsOfItems, Prepend;
    NextItem(DecoderAt(depth), body, at, items, left);
    NextCost(DecoderAt(depth), CallsAt(depth), body, at, left);
  }

  lemma MidwayEnds(depth: nat, body: Bytes, n: nat, items: seq<Json>, at: nat, calls: nat)
    requires Midway(depth, body, n, items, at, 0, calls)
    ensures DecodeItems(DecoderAt(depth), body, n) == Some((items, at))
    ensures CallsOfItems(DecoderAt(depth), CallsAt(depth), body, n) == calls
  {
    hide DecoderAt, DecodeItems, CallsAt, CallsOfItems, Prepend;
    Finish(DecoderAt(depth), CallsAt(depth), body[at..], items, at);
  }

  /** The array arm: `n` items pushed into a vector. */
  method ItemsLoop(body: Bytes, depth: nat, n: nat)
    returns (out: Option<seq<Json>>, at: nat, ghost calls: nat)
    ensures DecodeItems(DecoderAt(depth), body, n) ==
            if out.None? then None else Some((out.value, at))
    ensures calls == CallsOfItems(DecoderAt(depth), CallsAt(depth), body, n)
    decreases LevelsLeft(depth), 1
  {
    hide DecoderAt, DecodeItems, CallsAt, CallsOfItems, Midway;
    var items: seq<Json> := [];
    var i := 0;
    at, calls := 0, 0;
    MidwayStarts(depth, body, n);
    while i < n
      invariant 0 <= i <= n
      invariant Midway(depth, body, n, items, at, n - i, calls)
    {
      MidwayNext(depth, body, n, items, at, n - i, calls);
      var d, more := DecodeValueLoop(body[at..], depth);
      calls := calls + more;
      if d.None? {
        return None, at, calls;
      }
      if d.value.used == 0 {
        assert false;
      }
      at := at + d.value.used;
      items := items + [d.value.value];
      i := i + 1;
    }
    MidwayEnds(depth, body, n, items, at, calls);
    out := Some(items);
  }

  lemma PairInserted(items: seq<Json>, k: Json, v: Json)
    requires |items| % 2 == 0
    ensures Collect(Empty, items + [k] + [v]) ==
            if k.Str? then Insert(Collect(Empty, items), k.text, v) else Collect(Empty, items)
  {
    hide Collect, Insert;
    CollectSnoc(Empty, items, k, v);
  }

  lemma NothingCollected()
    ensures Collect(Empty, []) == Empty
  {
  }

  /** The map arm: `n` pairs inserted into a map. */
  method PairsLoop(body: Bytes, depth: nat, n: nat)
    returns (out: Option<Fields>, at: nat, ghost calls: nat)
    ensures match DecodeItems(DecoderAt(depth), body, 2 * n)
      case None => out == None
      case Some((items, used)) => out == Some(Collect(Empty, items)) && at == used
    ensures calls == CallsOfItems(DecoderAt(depth), CallsAt(depth), body, 2 * n)
    decreases LevelsLeft(depth), 1
  {
    hide DecoderAt, DecodeItems, CallsAt, CallsOfItems, Midway, Collect, Insert;
    ghost var items: seq<Json> := [];
    var m := Empty;
    var i := 0;
    at, calls := 0, 0;
    MidwayStarts(depth, body, 2 * n);
    NothingCollected();
    while i < n
      invariant 0 <= i <= n && |items| == 2 * i && m == Collect(Empty, items)
      invariant Midway(depth, body, 2 * n, items, at, 2 * (n - i), calls)
    {
      MidwayNext(depth, body, 2 * n, items, at, 2 * (n - i), calls);
      var k, more := DecodeValueLoop(body[at..], depth);
      calls := calls + more;
      if k.None? {
        return None, at, calls;
      }
      if k.value.used == 0 {
        assert false;
      }
      at := at + k.value.used;
      MidwayNext(depth, body, 2 * n, items + [k.value.value], at, 2 * (n - i) - 1, calls);
      var v;
      v, more := DecodeValueLoop(body[at..], depth);
      calls := calls + more;
      if v.None? {
        return None, at, calls;
      }
      if v.value.used == 0 {
        assert false;
      }
      at := at + v.value.used;
      PairInserted(items, k.value.value, v.value.value);
      items := items + [k.value.value] + [v.value.value];
      if k.value.value.Str? {
        m := Insert(m, k.value.value.text, v.value.value);
      }
      i := i + 1;
    }
    MidwayEnds(depth, body, 2 * n, items, at, calls);
    out := Some(m);
  }

  lemma {:induction false} CollectSnoc(m: Fields, items: seq<Json>, k: Json, v: Json)
    requires |items| % 2 == 0
    ensures Collect(m, items + [k] + [v]) == InsertPair(Collect(m, items), k, v)
    decreases |items|
  {
    var all := items + [k] + [v];
    if items == [] {
      assert all == [k, v];
    } else {
      CollectSnoc(InsertPair(m, items[0], items[1]), items[2..], k, v);
      assert all[2..] == items[2..] + [k] + [v];
    }
  }

  // --- json_to_cbor ---

  lemma ConcatCons(e: Bytes, es: seq<Bytes>)
    ensures Concat([e] + es) == e + Concat(es)
  {
    assert ([e] + es)[1..] == es;
  }

  lemma FieldsConcat(fs: Fields)
    requires FieldsValid(fs) && fs.Entry?
    ensures Concat(FieldPieces(fs)) == TextItem(fs.key) + ToCbor(fs.value) + Concat(FieldPieces(fs.rest))
  {
    hide ToCbor, TextItem, ValidUtf8, Valid, Concat;
    var rest := FieldPieces(fs.rest);
    PairConcat(TextItem(fs.key), ToCbor(fs.value), rest);
  }

  lemma PairConcat(a: Bytes, b: Bytes, es: seq<Bytes>)
    ensures Concat([a, b] + es) == a + b + Concat(es)
  {
    hide Concat;
    ConcatCons(b, es);
    ConcatCons(a, [b] + es);
    assert [a, b] + es == [a] + ([b] + es);
    assert a + (b + Concat(es)) == a + b + Concat(es);
  }

  lemma ItemsConcat(items: seq<Json>, i: nat)
    requires i < |items| && AllValid(items[i..])
    ensures Valid(items[i]) && AllValid(items[i + 1..])
    ensures Concat(ItemPieces(items[i..])) == ToCbor(items[i]) + Concat(ItemPieces(items[i + 1..]))
  {
    hide ToCbor, Valid, Concat;
    assert items[i..][1..] == items[i + 1..];
    ConcatCons(ToCbor(items[i]), ItemPieces(items[i + 1..]));
  }

  /** json_to_cbor: pieces appended one by one. */
  method JsonToCbor(v: Json) returns (out: Bytes)
    requires Valid(v)
    ensures out == ToCbor(v)
    decreases v
  {
    hide Head, Concat, ItemPieces, FieldPieces, AllValid;
    match v {
      case Null => out := Head(7, 22);
      case Bool(flag) => out := if flag then Head(7, 20) else Head(7, 19);
      case UInt(n) => out := UintItem(n);
      case Neg(_) => out := UintItem(0);
      case Str(t) => out := TextItem(t);
      case Arr(items) => out := ArrayToCbor(items);
      case Obj(fields) => out := ObjectToCbor(fields);
    }
  }

  method ArrayToCbor(items: seq<Json>) returns (out: Bytes)
    requires |items| < TWO_63 && AllValid(items)
    ensures out == Head(4, |items|) + Concat(ItemPieces(items))
    decreases items
  {
    hide Head, ToCbor, AllValid, Valid;
    out := Head(4, |items|);
    assert items[0..] == items;
    for i := 0 to |items|
      invariant AllValid(items[i..])
      invariant out + Concat(ItemPieces(items[i..])) == Head(4, |items|) + Concat(ItemPieces(items))
    {
      ItemsConcat(items, i);
      var item := JsonToCbor(items[i]);
      assert out + (item + Concat(ItemPieces(items[i + 1..]))) == out + item + Concat(ItemPieces(items[i + 1..]));
      out := out + item;
    }
    assert out + [] == out;
  }

  method ObjectToCbor(fields: Fields) returns (out: Bytes)
    requires Count(fields) < TWO_63 && FieldsValid(fields)
    ensures out == Head(5, Count(fields)) + Concat(FieldPieces(fields))
    decreases fields
  {
    hide Head, ToCbor, Valid, ValidUtf8, TextItem;
    out := Head(5, Count(fields));
    var rest := fields;
    while rest.Entry?
      invariant rest == fields || (fields decreases to rest)
      invariant FieldsValid(rest)
      invariant out + Concat(FieldPieces(rest)) == Head(5, Count(fields)) + Concat(FieldPieces(fields))
      decreases rest
    {
      FieldsConcat(rest);
      var item := JsonToCbor(rest.value);
      ghost var more := Concat(FieldPieces(rest.rest));
      assert out + (TextItem(rest.key) + item + more) == out + (TextItem(rest.key) + item) + more;
      out := out + (TextItem(rest.key) + item);
      rest := rest.rest;
    }
    assert out + [] == out;
  }
}
