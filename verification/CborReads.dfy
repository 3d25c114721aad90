/** Composable facts about encodings: what a decoder reads from an encoding, whatever follows it. */
module CborReads {
  import opened Basics
  import opened Text
  import opened Json
  import opened Cbor

  /** `e`, followed by any bytes, decodes to `o` and uses all of `e`; None when it is refused. */
  ghost predicate Reads(dec: ItemDecoder, e: Bytes, o: Option<Json>) {
    forall t: Bytes {:trigger dec(e + t)} :: dec(e + t) == Outcome(o, |e|)
  }

  function Outcome(o: Option<Json>, used: nat): Option<Decoded> {
    if o.None? then None else Some(Decoded(o.value, used))
  }

  // --- Heads ---

  function HeadInfo(major: nat, n: nat): (h: ItemHead)
    requires major < 8 && n < TWO_64
    ensures h.pos == |Head(major, n)|
  {
    ItemHead(major, Head(major, n)[0] % 32, n, |Head(major, n)|)
  }

  lemma WideHeadReads(major: nat, info: nat, width: nat, n: nat, t: Bytes)
    requires major < 8 && 24 <= info <= 27
    requires width == if info == 24 then 1 else if info == 25 then 2 else if info == 26 then 4 else 8
    requires n < Pow256(width)
    ensures ReadHead([32 * major + info] + BigEndian(n, width) + t) ==
            Some(ItemHead(major, info, n, 1 + width))
  {
    var buf := [32 * major + info] + BigEndian(n, width) + t;
    assert buf[1..1 + width] == BigEndian(n, width);
    BigEndianRoundTrip(n, width);
    assert buf[0] == 32 * major + info;
  }

  /** `e` is the head `h`, whatever follows it. */
  ghost predicate IsHead(e: Bytes, h: ItemHead) {
    h.major < 8 && h.pos == |e| && h.pos >= 1
    && forall t: Bytes {:trigger ReadHead(e + t)} :: ReadHead(e + t) == Some(h)
  }

  lemma SmallHeadReads(major: nat, n: nat, t: Bytes)
    requires major < 8 && n < 24
    ensures ReadHead([32 * major + n] + t) == Some(ItemHead(major, n, n, 1))
  {
    assert ([32 * major + n] + t)[0] == 32 * major + n;
  }

  /** Each width of a head, before anything at all. */
  lemma HeadReadsBefore(major: nat, n: nat, t: Bytes)
    requires major < 8 && n < TWO_64
    ensures ReadHead(Head(major, n) + t) == Some(HeadInfo(major, n))
  {
    hide ReadHead, Pow256, BigEndian;
    PowValues();
    if n < 24 {
      SmallHeadReads(major, n, t);
    } else if n <= 0xff {
      WideHeadReads(major, 24, 1, n, t);
    } else if n <= 0xffff {
      WideHeadReads(major, 25, 2, n, t);
    } else if n <= 0xffff_ffff {
      WideHeadReads(major, 26, 4, n, t);
    } else {
      WideHeadReads(major, 27, 8, n, t);
    }
  }

  lemma HeadReads(major: nat, n: nat)
    requires major < 8 && n < TWO_64
    ensures IsHead(Head(major, n), HeadInfo(major, n))
  {
    hide ReadHead, Head;
    forall t: Bytes ensures ReadHead(Head(major, n) + t) == Some(HeadInfo(major, n)) {
      HeadReadsBefore(major, n, t);
    }
  }

  /** A level reads the head, then the body under that head. */
  lemma LevelReads(dec: ItemDecoder, child: ItemDecoder, e: Bytes, h: ItemHead, t: Bytes)
    requires IsLevel(dec, child) && IsHead(e, h)
    ensures h.pos == |e| && 1 <= h.pos && dec(e + t) == DecodeBody(child, e + t, h)
  {
    assert ReadHead(e + t) == Some(h);
    assert dec(e + t) == DecodeWith(child, e + t);
  }

  // --- Scalars ---

  lemma UintReads(dec: ItemDecoder, child: ItemDecoder, n: nat)
    requires IsLevel(dec, child) && n < TWO_64
    ensures Reads(dec, UintItem(n), Some(UInt(n)))
  {
    HeadReads(0, n);
    forall t: Bytes ensures dec(UintItem(n) + t) == Outcome(Some(UInt(n)), |UintItem(n)|) {
      LevelReads(dec, child, Head(0, n), HeadInfo(0, n), t);
    }
  }

  function SimpleValue(n: nat): Json {
    if n == 20 then Bool(false) else if n == 21 then Bool(true) else Null
  }

  lemma SimpleReads(dec: ItemDecoder, child: ItemDecoder, n: nat)
    requires IsLevel(dec, child) && n < 24
    ensures Reads(dec, Head(7, n), Some(SimpleValue(n)))
  {
    HeadReads(7, n);
    forall t: Bytes ensures dec(Head(7, n) + t) == Outcome(Some(SimpleValue(n)), |Head(7, n)|) {
      LevelReads(dec, child, Head(7, n), HeadInfo(7, n), t);
    }
  }

  lemma TextReads(dec: ItemDecoder, child: ItemDecoder, s: Bytes)
    requires IsLevel(dec, child) && |s| < TWO_64 && ValidUtf8(s)
    ensures Reads(dec, TextItem(s), Some(Str(s)))
  {
    HeadReads(3, |s|);
    StringReads(dec, child, Head(3, |s|), HeadInfo(3, |s|), s);
  }

  /** Byte strings come back as their lower-case hex text. */
  lemma BytesReads(dec: ItemDecoder, child: ItemDecoder, s: Bytes)
    requires IsLevel(dec, child) && |s| < TWO_64
    ensures Reads(dec, BytesItem(s), Some(Str(HexEncode(s))))
  {
    HeadReads(2, |s|);
    StringReads(dec, child, Head(2, |s|), HeadInfo(2, |s|), s);
  }

  function StringText(major: nat, s: Bytes): Bytes {
    if major == 2 then HexEncode(s) else s
  }

  lemma StringReads(dec: ItemDecoder, child: ItemDecoder, e: Bytes, h: ItemHead, s: Bytes)
    requires IsLevel(dec, child) && IsHead(e, h) && h.n == |s|
    requires h.major == 2 || (h.major == 3 && ValidUtf8(s))
    ensures Reads(dec, e + s, Some(Str(StringText(h.major, s))))
  {
    hide DecodeBody, HexEncode, ValidUtf8, IsLevel;
    forall t: Bytes ensures dec(e + s + t) == Outcome(Some(Str(StringText(h.major, s))), |e + s|) {
      Middle(e, s, t);
      LevelReads(dec, child, e, h, s + t);
      StringBody(child, e + s + t, h, s);
    }
  }

  lemma StringBody(child: ItemDecoder, buf: Bytes, h: ItemHead, s: Bytes)
    requires 1 <= h.pos && h.n == |s| && h.pos + h.n <= |buf| && buf[h.pos..h.pos + h.n] == s
    requires h.major == 2 || (h.major == 3 && ValidUtf8(s))
    ensures DecodeBody(child, buf, h) == Some(Decoded(Str(StringText(h.major, s)), h.pos + |s|))
  {
  }

  lemma Middle(a: Bytes, b: Bytes, c: Bytes)
    ensures a + b + c == a + (b + c)
    ensures (a + b + c)[|a|..|a| + |b|] == b
    ensures (a + b + c)[|a|..] == b + c
  {
  }

  // --- Containers ---

  function Concat(es: seq<Bytes>): Bytes {
    if es == [] then [] else es[0] + Concat(es[1..])
  }

  /** All outcomes, or None as soon as one item is refused. */
  function Sequence(os: seq<Option<Json>>): Option<seq<Json>> {
    if os == [] then Some([]) else
    match (os[0], Sequence(os[1..]))
    case (Some(v), Some(rest)) => Some([v] + rest)
    case _ => None
  }

  ghost predicate AllRead(dec: ItemDecoder, es: seq<Bytes>, os: seq<Option<Json>>) {
    |es| == |os| && forall i :: 0 <= i < |es| ==> Reads(dec, es[i], os[i])
  }

  lemma AllReadCons(dec: ItemDecoder, e: Bytes, o: Option<Json>, es: seq<Bytes>, os: seq<Option<Json>>)
    requires Reads(dec, e, o) && AllRead(dec, es, os)
    ensures AllRead(dec, [e] + es, [o] + os)
  {
  }

  lemma FirstItem(dec: ItemDecoder, e: Bytes, v: Json, t: Bytes, n: nat)
    requires dec(e + t) == Some(Decoded(v, |e|))
    ensures DecodeItems(dec, e + t, n + 1) ==
            if DecodeItems(dec, t, n).None? then None
            else Some(([v] + DecodeItems(dec, t, n).value.0, |e| + DecodeItems(dec, t, n).value.1))
  {
    assert (e + t)[|e|..] == t;
  }

  lemma NoFirstItem(dec: ItemDecoder, buf: Bytes, n: nat)
    requires dec(buf) == None
    ensures DecodeItems(dec, buf, n + 1) == None
  {
  }

  lemma FirstPiece(es: seq<Bytes>, t: Bytes)
    requires es != []
    ensures Concat(es) + t == es[0] + (Concat(es[1..]) + t)
    ensures |Concat(es)| == |es[0]| + |Concat(es[1..])|
  {
    hide Concat;
    assert Concat(es) == es[0] + Concat(es[1..]) by {
      ConcatStep(es);
    }
  }

  lemma ConcatStep(es: seq<Bytes>)
    requires es != []
    ensures Concat(es) == es[0] + Concat(es[1..])
  {
  }

  /** What a sequence of items decodes to, given what each of them decodes to. */
  function ItemsOutcome(os: seq<Option<Json>>, used: nat): Option<(seq<Json>, nat)> {
    match Sequence(os)
    case None => None
    case Some(vs) => Some((vs, used))
  }

  lemma OutcomeStep(os: seq<Option<Json>>, used: nat, more: nat)
    requires os != []
    ensures ItemsOutcome(os, used + more) ==
            if os[0].None? || ItemsOutcome(os[1..], more).None? then None
            else Some(([os[0].value] + ItemsOutcome(os[1..], more).value.0,
                       used + ItemsOutcome(os[1..], more).value.1))
  {
    hide Sequence;
    SequenceStep(os);
  }

  lemma SequenceStep(os: seq<Option<Json>>)
    requires os != []
    ensures Sequence(os) ==
            if os[0].None? || Sequence(os[1..]).None? then None else Some([os[0].value] + Sequence(os[1..]).value)
  {
  }

  lemma FirstRead(dec: ItemDecoder, es: seq<Bytes>, os: seq<Option<Json>>, t: Bytes)
    requires AllRead(dec, es, os) && es != []
    ensures |es| == |os| && dec(es[0] + t) == Outcome(os[0], |es[0]|) && AllRead(dec, es[1..], os[1..])
  {
    assert Reads(dec, es[0], os[0]);
  }

  lemma {:induction false} ItemsRead(dec: ItemDecoder, es: seq<Bytes>, os: seq<Option<Json>>, t: Bytes)
    requires AllRead(dec, es, os)
    ensures DecodeItems(dec, Concat(es) + t, |es|) == ItemsOutcome(os, |Concat(es)|)
    decreases |es|
  {
    hide DecodeItems, Concat, Sequence, AllRead, ItemsOutcome;
    if es == [] {
      NothingRead(dec, os, t);
    } else {
      FirstPiece(es, t);
      FirstRead(dec, es, os, Concat(es[1..]) + t);
      ItemsRead(dec, es[1..], os[1..], t);
      ConsRead(dec, es[0], os, Concat(es[1..]) + t, |es| - 1, |Concat(es[1..])|);
    }
  }

  lemma NothingRead(dec: ItemDecoder, os: seq<Option<Json>>, t: Bytes)
    requires AllRead(dec, [], os)
    ensures DecodeItems(dec, Concat([]) + t, 0) == ItemsOutcome(os, |Concat([])|)
  {
  }

  lemma ConsRead(dec: ItemDecoder, e: Bytes, os: seq<Option<Json>>, rest: Bytes, n: nat, used: nat)
    requires os != [] && dec(e + rest) == Outcome(os[0], |e|)
    requires DecodeItems(dec, rest, n) == ItemsOutcome(os[1..], used)
    ensures DecodeItems(dec, e + rest, n + 1) == ItemsOutcome(os, |e| + used)
  {
    hide DecodeItems, Sequence, ItemsOutcome;
    OutcomeStep(os, |e|, used);
    if os[0].None? {
      NoFirstItem(dec, e + rest, n);
    } else {
      FirstItem(dec, e, os[0].value, rest, n);
    }
  }

  /** The outcome of a container whose items have the outcomes `os`. */
  function Container(major: nat, os: seq<Option<Json>>): Option<Json> {
    match Sequence(os)
    case None => None
    case Some(vs) => Some(if major == 4 then Arr(vs) else Obj(Collect(Empty, vs)))
  }

  lemma BodyReads(child: ItemDecoder, e: Bytes, h: ItemHead, es: seq<Bytes>, os: seq<Option<Json>>, t: Bytes)
    requires AllRead(child, es, os) && h.pos == |e| && 1 <= h.pos
    requires (h.major == 4 && |es| == h.n) || (h.major == 5 && |es| == 2 * h.n)
    ensures DecodeBody(child, e + Concat(es) + t, h) == Outcome(Container(h.major, os), |e + Concat(es)|)
  {
    hide Concat, AllRead, Sequence, DecodeItems, Collect;
    var buf := e + Concat(es) + t;
    assert buf[h.pos..] == Concat(es) + t by { Middle(e, Concat(es), t); }
    ItemsRead(child, es, os, t);
  }

  lemma UnderHeadReads(dec: ItemDecoder, child: ItemDecoder, e: Bytes, h: ItemHead, es: seq<Bytes>,
                       os: seq<Option<Json>>)
    requires IsLevel(dec, child) && IsHead(e, h) && AllRead(child, es, os)
    requires (h.major == 4 && |es| == h.n) || (h.major == 5 && |es| == 2 * h.n)
    ensures Reads(dec, e + Concat(es), Container(h.major, os))
  {
    hide IsLevel, IsHead, AllRead, Concat, Container, DecodeBody;
    forall t: Bytes ensures dec(e + Concat(es) + t) == Outcome(Container(h.major, os), |e + Concat(es)|) {
      Middle(e, Concat(es), t);
      LevelReads(dec, child, e, h, Concat(es) + t);
      BodyReads(child, e, h, es, os, t);
    }
  }

  /** Arrays of `n` items, and maps of `n` keys and values in turn. */
  lemma ContainerReads(dec: ItemDecoder, child: ItemDecoder, major: nat, n: nat, es: seq<Bytes>, os: seq<Option<Json>>)
    requires IsLevel(dec, child) && AllRead(child, es, os) && n < TWO_64
    requires (major == 4 && |es| == n) || (major == 5 && |es| == 2 * n)
    ensures Reads(dec, Head(major, n) + Concat(es), Container(major, os))
  {
    hide ReadHead, Head, IsLevel, AllRead, Sequence;
    HeadReads(major, n);
    UnderHeadReads(dec, child, Head(major, n), HeadInfo(major, n), es, os);
  }
}
