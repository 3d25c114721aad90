/** The stored envelope of src/fabric.rs: version, handle, pointer and receive time in 115 bytes. */
module Envelope {
  import opened Basics

  const POINTER_LEN: nat := 74
  const ENVELOPE_LEN: nat := 115

  type Pointer = p: Bytes | |p| == 74 witness seq(74, _ => 0)

  datatype Envelope = Envelope(handle: Digest, pointer: Pointer, receivedAt: nat)

  predicate PointerHeader(p: Pointer) {
    p[0] == 1 && p[1] == 0
  }

  /** The burn deadline inside the pointer. */
  function Deadline(p: Pointer): (d: nat)
    ensures d < TWO_64
  {
    FromLittleEndianRoundTrip(p[66..74]);
    PowValues();
    FromLittleEndian(p[66..74])
  }

  function Marshal(e: Envelope): (b: Bytes)
    ensures |b| == ENVELOPE_LEN
  {
    [1] + e.handle + e.pointer + LittleEndian(e.receivedAt, 8)
  }

  /** Shape only: length, version, pointer header. */
  function Parse(b: Bytes): (r: Result<Envelope>)
    ensures r.Ok? ==> PointerHeader(r.value.pointer) && r.value.receivedAt < TWO_64
  {
    if |b| != ENVELOPE_LEN then Err("400 bad envelope length")
    else if b[0] != 1 then Err("400 bad envelope version")
    else
      var p: Pointer := b[33..107];
      if !PointerHeader(p) then Err("400 bad pointer payload header")
      else
        FromLittleEndianRoundTrip(b[107..]);
        PowValues();
        Ok(Envelope(b[1..33], p, FromLittleEndian(b[107..])))
  }

  lemma Sections(e: Envelope)
    ensures Marshal(e)[0] == 1 && Marshal(e)[1..33] == e.handle && Marshal(e)[33..107] == e.pointer
    ensures Marshal(e)[107..] == LittleEndian(e.receivedAt, 8)
  {
  }

  /** Parsing a marshalled envelope gives it back exactly when its pointer header is well formed. */
  lemma ParseUndoesMarshal(e: Envelope)
    requires e.receivedAt < TWO_64
    ensures Parse(Marshal(e)) == Ok(e) <==> PointerHeader(e.pointer)
  {
    hide LittleEndian, FromLittleEndian, Pow256;
    Sections(e);
    PowValues();
    LittleEndianRoundTrip(e.receivedAt, 8);
  }

  /** What is wrong with a file, in the order of the checks. */
  lemma ParseRefuses(b: Bytes)
    ensures Parse(b).Err? <==> |b| != 115 || b[0] != 1 || b[33] != 1 || b[34] != 0
    ensures |b| != 115 ==> Parse(b) == Err("400 bad envelope length")
    ensures |b| == 115 && b[0] != 1 ==> Parse(b) == Err("400 bad envelope version")
    ensures |b| == 115 && b[0] == 1 && Parse(b).Err? ==> Parse(b) == Err("400 bad pointer payload header")
  {
  }

  /** Every accepted file is the marshalled form of what it parses to. */
  lemma MarshalUndoesParse(b: Bytes)
    requires Parse(b).Ok?
    ensures Marshal(Parse(b).value) == b
  {
    hide LittleEndian, FromLittleEndian, Pow256;
    FromLittleEndianRoundTrip(b[107..]);
    assert b == [1] + b[1..33] + b[33..107] + b[107..];
  }

  lemma MarshalInjective(a: Envelope, b: Envelope)
    requires a.receivedAt < TWO_64 && b.receivedAt < TWO_64 && Marshal(a) == Marshal(b)
    ensures a == b
  {
    hide LittleEndian, FromLittleEndian, Pow256, Marshal;
    Sections(a);
    Sections(b);
    PowValues();
    LittleEndianRoundTrip(a.receivedAt, 8);
    LittleEndianRoundTrip(b.receivedAt, 8);
  }

  /** marshal_envelope: the buffer is filled section by section. */
  method MarshalInto(e: Envelope) returns (out: array<Byte>)
    ensures fresh(out) && out[..] == Marshal(e)
  {
    out := new Byte[115](_ => 0);
    out[0] := 1;
    forall i | 0 <= i < 32 {
      out[1 + i] := e.handle[i];
    }
    forall i | 0 <= i < 74 {
      out[33 + i] := e.pointer[i];
    }
    var le := LittleEndian(e.receivedAt, 8);
    forall i | 0 <= i < 8 {
      out[107 + i] := le[i];
    }
    assert out[..] == [1] + e.handle + e.pointer + le;
  }
}
