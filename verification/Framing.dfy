/** Frames: a 4-byte length, then version, type, flags and payload (pkg/protocol/frame.go). */
module Framing {
  import opened Octets
  import opened Positional
  import opened Wire
  import opened Wrappers

  const MAX_FRAME_SIZE := 1024 * 1024

  datatype Frame = Frame(version: Octet, kind: Octet, flags: Octet, payload: seq<Octet>)

  datatype FrameError = EndOfStream | FrameTooLarge | InvalidFrameLength

  datatype Decoded = Ok(frame: Frame, next: nat) | Bad(error: FrameError)

  /** The length field: an unsigned 32-bit sum, so it wraps. */
  function LengthField(f: Frame): nat {
    (3 + |f.payload|) % 0x1_0000_0000
  }

  function FrameBytes(f: Frame): seq<Octet> {
    Be(LengthField(f), 4) + ([f.version, f.kind, f.flags] + f.payload)
  }

  /** Reads one frame at `pos`. */
  function ParseFrame(data: seq<Octet>, pos: nat): Decoded {
    match GetNumber(data, pos, 4)
    case None => Bad(EndOfStream)
    case Some((length, start)) =>
      if length > MAX_FRAME_SIZE then Bad(FrameTooLarge)
      else if length < 3 then Bad(InvalidFrameLength)
      else if start + length > |data| then Bad(EndOfStream)
      else Ok(Frame(data[start], data[start + 1], data[start + 2], data[start + 3..start + length]), start + length)
  }

  /** A frame is read back, whatever follows it in the stream, exactly when it is within the
      size limit. The writer refuses most others, but not those whose length wraps around. */
  lemma FrameRoundTrip(f: Frame, rest: seq<Octet>)
    ensures ParseFrame(FrameBytes(f) + rest, 0) == Ok(f, |FrameBytes(f)|) <==> 3 + |f.payload| <= MAX_FRAME_SIZE
  {
    hide FrameBytes;
    if 3 + |f.payload| <= MAX_FRAME_SIZE {
      SmallFrameBack(f, rest);
    } else {
      LengthRead(f, rest);
      assert ParseFrame(FrameBytes(f) + rest, 0).Ok? ==> |f.payload| + 3 > LengthField(f);
    }
  }

  lemma LengthRead(f: Frame, rest: seq<Octet>)
    ensures GetNumber(FrameBytes(f) + rest, 0, 4) == Some((LengthField(f), 4))
    ensures Stands(FrameBytes(f) + rest, 4, [f.version, f.kind, f.flags] + f.payload)
  {
    hide Be, GetNumber, Pow, Stands;
    var data := FrameBytes(f) + rest;
    assert data == [] + FrameBytes(f) + rest;
    StandsAfter([], FrameBytes(f), rest);
    StandsSplit(data, 0, Be(LengthField(f), 4), [f.version, f.kind, f.flags] + f.payload);
    NumberBack(data, 0, LengthField(f), 4);
    ByteWeights();
  }

  lemma SmallFrameBack(f: Frame, rest: seq<Octet>)
    requires 3 + |f.payload| <= MAX_FRAME_SIZE
    ensures ParseFrame(FrameBytes(f) + rest, 0) == Ok(f, |FrameBytes(f)|)
  {
    hide Be, GetNumber;
    var data := FrameBytes(f) + rest;
    LengthRead(f, rest);
    StandsSplit(data, 4, [f.version, f.kind, f.flags], f.payload);
    assert data[4..7] == [f.version, f.kind, f.flags];
    assert data[4] == f.version && data[5] == f.kind && data[6] == f.flags;
  }

  /** For instance: with 2^32 - 3 bytes of payload the length is 0, which the writer lets through
      and the reader refuses. */
  lemma WrappedFrameUnreadable(f: Frame, rest: seq<Octet>)
    requires 3 + |f.payload| == 0x1_0000_0000
    ensures LengthField(f) <= MAX_FRAME_SIZE
    ensures ParseFrame(FrameBytes(f) + rest, 0) == Bad(InvalidFrameLength)
  {
    hide FrameBytes;
    LengthRead(f, rest);
  }

  /** What the limit admits: also a payload of nearly 4 GiB or more, when its length wraps. */
  method EncodeFrame(w: Writer, f: Frame) returns (ok: bool)
    modifies w
    ensures ok <==> (3 + |f.payload|) % 0x1_0000_0000 <= 1048576
    ensures w.buf == if ok then old(w.buf) + FrameBytes(f) else old(w.buf)
    ensures var n := (3 + |f.payload|) % 0x1_0000_0000;
      ok ==> w.buf == old(w.buf) + [n / 0x100_0000, n / 0x1_0000 % 256, n / 0x100 % 256, n % 256]
                      + [f.version, f.kind, f.flags] + f.payload
  {
    FourBytes(LengthField(f));
    hide Be;
    var length := (1 + 1 + 1 + |f.payload|) % 0x1_0000_0000;
    if length > MAX_FRAME_SIZE {
      return false;
    }
    OneByte(f.version);
    OneByte(f.kind);
    OneByte(f.flags);
    w.WriteUint32(length);
    w.WriteUint8(f.version);
    w.WriteUint8(f.kind);
    w.WriteUint8(f.flags);
    if |f.payload| > 0 {
      w.Write(f.payload);
    }
    assert w.buf == old(w.buf) + FrameBytes(f);
    return true;
  }

  method DecodeFrame(r: Reader) returns (result: Decoded)
    modifies r
    ensures result == ParseFrame(r.data, old(r.pos))
    ensures result.Ok? ==> r.pos == result.next
    ensures var data, at := r.data, old(r.pos);
      if at + 4 > |data| then result == Bad(EndOfStream)
      else
        var n := 0x100_0000 * data[at] as int + 0x1_0000 * data[at + 1] as int + 0x100 * data[at + 2] as int
                 + data[at + 3];
        result == if n > 1048576 then Bad(FrameTooLarge)
                  else if n < 3 then Bad(InvalidFrameLength)
                  else if at + 4 + n > |data| then Bad(EndOfStream)
                  else Ok(Frame(version := data[at + 4], kind := data[at + 5], flags := data[at + 6],
                                payload := data[at + 7..at + 4 + n]), at + 4 + n)
  {
    FourByteNumber(r.data, r.pos);
    var length := r.ReadUint(4);
    if length.None? {
      return Bad(EndOfStream);
    }
    if length.value > MAX_FRAME_SIZE {
      return Bad(FrameTooLarge);
    }
    if length.value < 3 {
      return Bad(InvalidFrameLength);
    }
    var version := r.ReadFull(1);
    if version.None? { return Bad(EndOfStream); }
    var kind := r.ReadFull(1);
    if kind.None? { return Bad(EndOfStream); }
    var flags := r.ReadFull(1);
    if flags.None? { return Bad(EndOfStream); }
    var payload := r.ReadFull(length.value - 3);
    if payload.None? { return Bad(EndOfStream); }
    return Ok(Frame(version.value[0], kind.value[0], flags.value[0], payload.value), r.pos);
  }
}
