/** write_frame and read_frame on byte streams: 4-byte little-endian length, then the payload. */
module Frames {
  import opened Basics

  /** 192 MiB. */
  const MAX_FRAME: nat := 201326592

  /** The length goes through `as u32`: only its low 32 bits are written. */
  function WriteFrame(payload: Bytes): Bytes {
    LittleEndian(|payload|, 4) + payload
  }

  /** A payload and the rest of the stream; None on a bad length or a short stream. */
  function ReadFrame(stream: Bytes): (r: Option<(Bytes, Bytes)>)
    ensures r.Some? ==> |r.value.1| < |stream|
  {
    if |stream| < 4 then None else
    var len := FromLittleEndian(stream[..4]);
    if len == 0 || len > MAX_FRAME || |stream| < 4 + len then None
    else Some((stream[4..4 + len], stream[4 + len..]))
  }

  /** All payloads up to the first refused frame: the read loop of handle_client. */
  function ReadAll(stream: Bytes): seq<Bytes>
    decreases |stream|
  {
    match ReadFrame(stream)
    case None => []
    case Some((payload, rest)) => [payload] + ReadAll(rest)
  }

  function WriteAll(payloads: seq<Bytes>): Bytes {
    if payloads == [] then [] else WriteFrame(payloads[0]) + WriteAll(payloads[1..])
  }

  predicate Framable(payload: Bytes) {
    1 <= |payload| <= MAX_FRAME
  }

  /** A written frame is read back, whatever follows it, exactly when its length is in range. */
  lemma FrameRoundTripExactly(payload: Bytes, rest: Bytes)
    ensures ReadFrame(WriteFrame(payload) + rest) == Some((payload, rest)) <==> Framable(payload)
  {
    hide LittleEndian, FromLittleEndian;
    var stream := WriteFrame(payload) + rest;
    assert stream[..4] == LittleEndian(|payload|, 4);
    assert stream[4..] == payload + rest;
    LittleEndianTruncates(|payload|, 4);
    PowValues();
    if Framable(payload) {
      assert |payload| % TWO_32 == |payload|;
      assert stream[4..4 + |payload|] == payload;
      assert stream[4 + |payload|..] == rest;
    }
  }

  /** A stream of frames in range is read back whole, up to whatever bad frame ends it. */
  lemma {:induction false} StreamRoundTrip(payloads: seq<Bytes>, rest: Bytes)
    requires forall i :: 0 <= i < |payloads| ==> Framable(payloads[i])
    ensures ReadAll(WriteAll(payloads) + rest) == payloads + ReadAll(rest)
  {
    hide ReadFrame, WriteFrame;
    if payloads == [] {
      assert WriteAll(payloads) + rest == rest;
      assert [] + ReadAll(rest) == ReadAll(rest);
    } else {
      var more := WriteAll(payloads[1..]) + rest;
      assert WriteAll(payloads) + rest == WriteFrame(payloads[0]) + more;
      FrameRoundTripExactly(payloads[0], more);
      StreamRoundTrip(payloads[1..], rest);
      assert payloads == [payloads[0]] + payloads[1..];
      assert ReadAll(WriteFrame(payloads[0]) + more) == [payloads[0]] + ReadAll(more);
    }
  }
}
