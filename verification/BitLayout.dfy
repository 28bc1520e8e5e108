/** Where the bits of a value stand in the stream of web-client/src/BitStream.ts, place by place: the
    layout that another implementation would have to read. */
module BitLayout {
  import opened BitStream
  import opened Octets
  import opened Positional

  /** The bit at `place`, counted from the start of the stream, is set: within a byte the first
      place is the highest bit in one order and the lowest in the other. */
  ghost predicate SetAt(o: Order, bytes: seq<Octet>, place: nat) {
    && place / 8 < |bytes|
    && ToBits(bytes[place / 8]) & Mask(if o == MsbFirst then 7 - place % 8 else place % 8) != 0
  }

  function Mask(p: nat): bv8 {
    if p == 0 then 0x01 else if p == 1 then 0x02 else if p == 2 then 0x04 else if p == 3 then 0x08
    else if p == 4 then 0x10 else if p == 5 then 0x20 else if p == 6 then 0x40 else 0x80
  }

  lemma MaskIs(b: bv8, p: nat)
    requires p < 8
    ensures Get(b, p) == 1 <==> b & Mask(p) != 0
  {
    if p < 4 {
      if p < 2 { assert p == 0 || p == 1; } else { assert p == 2 || p == 3; }
    } else {
      if p < 6 { assert p == 4 || p == 5; } else { assert p == 6 || p == 7; }
    }
  }

  /** The number of bits written so far. */
  function Place(e: Enc): nat {
    8 * |e.bytes| + e.off
  }

  /** The bits that an operation takes. */
  function Size(op: Op): nat {
    match op
    case Bits(_, n) => n
    case Unsigned(_, w, _) => 8 * w
    case Signed(_, w, _) => 8 * w
  }

  function Sizes(ops: seq<Op>): nat {
    if ops == [] then 0 else Size(ops[0]) + Sizes(ops[1..])
  }

  lemma {:induction false} BitsAdvance(o: Order, e: Enc, bits: seq<nat>)
    requires e.off < 8 && AllBelow(bits, 2)
    ensures Place(PutBits(o, e, bits)) == Place(e) + |bits|
    decreases |bits|
  {
    hide WithBit;
    if bits != [] {
      BitsAdvance(o, PutBit(o, e, bits[0]), bits[1..]);
    }
  }

  lemma ByteAdvances(o: Order, e: Enc, v: nat)
    requires e.off < 8 && v < 256
    ensures Place(PutByte(o, e, v)) == Place(e) + 8
  {
    hide PutBits;
    if e.off != 0 {
      BitsAdvance(o, e, Digits(Bit, v, 8));
    }
  }

  lemma {:induction false} BytesAdvance(o: Order, e: Enc, vs: seq<nat>)
    requires e.off < 8 && AllBelow(vs, 256)
    ensures Place(PutBytes(o, e, vs)) == Place(e) + 8 * |vs|
    decreases |vs|
  {
    hide PutByte, Place;
    if vs != [] {
      ByteAdvances(o, e, vs[0]);
      BytesAdvance(o, PutByte(o, e, vs[0]), vs[1..]);
    }
  }

  lemma OpAdvances(o: Order, e: Enc, op: Op)
    requires e.off < 8
    ensures Place(PutOp(o, e, op)) == Place(e) + Size(op)
  {
    hide PutBits, PutBytes, Place, BitList, ByteList;
    match op
    case Bits(v, n) =>
      ListsBelow(o, v, n, BigEndian);
      BitsAdvance(o, e, BitList(o, v, n));
    case Unsigned(v, w, end) =>
      ListsBelow(o, v, w, end);
      BytesAdvance(o, e, ByteList(v, w, end));
    case Signed(v, w, end) =>
      ListsBelow(o, ToUnsigned(v, w), w, end);
      BytesAdvance(o, e, ByteList(ToUnsigned(v, w), w, end));
  }

  lemma {:induction false} AllAdvance(o: Order, e: Enc, ops: seq<Op>)
    requires e.off < 8
    ensures Place(PutAll(o, e, ops)) == Place(e) + Sizes(ops)
    decreases |ops|
  {
    hide PutOp, Place, Size;
    if ops != [] {
      OpAdvances(o, e, ops[0]);
      AllAdvance(o, PutOp(o, e, ops[0]), ops[1..]);
    }
  }

  // ---------------------------------------------------------------- bits and bytes at their places

  lemma BitRead(o: Order, bytes: seq<Octet>, c: Cursor)
    requires c.bit < 8 && GetBit(o, bytes, c).Some?
    ensures GetBit(o, bytes, c).value.0 == 1 <==> SetAt(o, bytes, 8 * c.byte + c.bit)
  {
    MaskIs(ToBits(bytes[c.byte]), Position(o, c.bit));
    hide Get, Mask;
    var place := 8 * c.byte + c.bit;
    assert place / 8 == c.byte && place % 8 == c.bit;
  }

  lemma {:induction false} BitsRead(o: Order, bytes: seq<Octet>, c: Cursor, n: nat, i: nat)
    requires c.bit < 8 && GetBits(o, bytes, c, n).Some? && i < n
    ensures GetBits(o, bytes, c, n).value.0[i] == 1 <==> SetAt(o, bytes, 8 * c.byte + c.bit + i)
    decreases n
  {
    hide BitOf, SetAt, ToBits;
    if i == 0 {
      BitRead(o, bytes, c);
    } else {
      BitsRead(o, bytes, GetBit(o, bytes, c).value.1, n - 1, i - 1);
    }
  }

  /** The bits written by a bit-wise write, at their places in the final bytes. */
  lemma BitsAt(o: Order, final: seq<Octet>, e: Enc, bits: seq<nat>, i: nat)
    requires e.off < 8 && ValidEnc(o, e) && AllBelow(bits, 2) && Agree(o, final, PutBits(o, e, bits)) && i < |bits|
    ensures bits[i] == 1 <==> SetAt(o, final, Place(e) + i)
  {
    hide ValidEnc, Agree, PutBits, GetBits, SetAt;
    ReadBackBits(o, final, e, bits);
    BitsRead(o, final, CursorOf(e), |bits|, i);
  }

  /** The byte `v` stands at `place`: whole at a byte boundary, else bit by bit with its lowest bit
      first, whatever the bit order. */
  ghost predicate ByteAtPlace(o: Order, bytes: seq<Octet>, place: nat, v: int) {
    if place % 8 == 0 then place / 8 < |bytes| && bytes[place / 8] == v
    else forall i: nat :: i < 8 ==> (SetAt(o, bytes, place + i) <==> v / Pow(Bit, i) % 2 == 1)
  }

  lemma ByteWrittenAt(o: Order, final: seq<Octet>, e: Enc, v: nat)
    requires e.off < 8 && ValidEnc(o, e) && v < 256 && Agree(o, final, PutByte(o, e, v))
    ensures ByteAtPlace(o, final, Place(e), v)
  {
    hide BitOf, SetAt, PutBits, Digits, Pow;
    if e.off == 0 {
      var n := |e.bytes|;
      assert final[n] == final[..n + 1][n] == v;
    } else {
      var ds := Digits(Bit, v, 8);
      hide Agree, ValidEnc;
      forall i: nat | i < 8 ensures SetAt(o, final, Place(e) + i) <==> v / Pow(Bit, i) % 2 == 1 {
        BitsAt(o, final, e, ds, i);
        DigitAt(Bit, v, 8, i);
      }
      assert Place(e) % 8 == e.off;
    }
  }

  lemma {:induction false} BytesAt(o: Order, final: seq<Octet>, e: Enc, vs: seq<nat>, b: nat)
    requires e.off < 8 && ValidEnc(o, e) && AllBelow(vs, 256) && Agree(o, final, PutBytes(o, e, vs)) && b < |vs|
    ensures ByteAtPlace(o, final, Place(e) + 8 * b, vs[b])
    decreases |vs|
  {
    hide ValidEnc, Agree, PutByte, Place, ByteAtPlace;
    PutByteValid(o, e, vs[0]);
    var next := PutByte(o, e, vs[0]);
    if b == 0 {
      ReadBackBytes(o, final, next, vs[1..]);
      ByteWrittenAt(o, final, e, vs[0]);
    } else {
      ByteAdvances(o, e, vs[0]);
      BytesAt(o, final, next, vs[1..], b - 1);
    }
  }

  // ---------------------------------------------------------------- operations at their places

  /** The weight of the `i`-th bit of a field of `n`, and of the `b`-th byte of an integer of `w`. */
  function BitWeight(o: Order, n: nat, i: nat): (p: nat)
    requires i < n
    ensures p > 0
  {
    Pow(Bit, if o == MsbFirst then n - 1 - i else i)
  }

  function ByteWeight(end: Endian, w: nat, b: nat): (p: nat)
    requires b < w
    ensures p > 0
  {
    Pow(Byte, if end == BigEndian then w - 1 - b else b)
  }

  /** The layout of one operation from `place` on: the bits of a bit field in the bit order, the bytes
      of an integer in its byte order, a negative one in two's complement. */
  ghost predicate LaidOut(o: Order, bytes: seq<Octet>, place: nat, op: Op) {
    match op
    case Bits(v, n) =>
      forall i: nat :: i < n ==>
        (SetAt(o, bytes, place + i) <==> v / BitWeight(o, n, i) % 2 == 1)
    case Unsigned(v, w, end) =>
      forall b: nat :: b < w ==>
        ByteAtPlace(o, bytes, place + 8 * b, v / ByteWeight(end, w, b) % 256)
    case Signed(v, w, end) =>
      forall b: nat :: b < w ==>
        ByteAtPlace(o, bytes, place + 8 * b, v / ByteWeight(end, w, b) % 256)
  }

  lemma BitListAt(o: Order, v: int, n: nat, i: nat)
    requires i < n
    ensures BitList(o, v, n)[i] == v / BitWeight(o, n, i) % 2
  {
    hide Digits, Reverse, Pow;
    DigitAt(Bit, v, n, i);
    DigitAt(Bit, v, n, n - 1 - i);
    ReverseAt(Digits(Bit, v, n), i);
  }

  lemma ByteListAt(v: int, w: nat, end: Endian, b: nat)
    requires b < w
    ensures ByteList(v, w, end)[b] == v / ByteWeight(end, w, b) % 256
  {
    hide Digits, Reverse, Pow;
    DigitAt(Byte, v, w, b);
    DigitAt(Byte, v, w, w - 1 - b);
    ReverseAt(Digits(Byte, v, w), b);
  }

  /** The two's complement of a value has the value's own digits. */
  lemma OwnDigits(v: int, w: nat, end: Endian)
    ensures ByteList(ToUnsigned(v, w), w, end) == ByteList(v, w, end)
  {
    hide Digits, Reverse, Pow;
    MaskedDigits(Byte, v, w);
    MaskedDigits(Byte, ToUnsigned(v, w), w);
    AddModulus(v, Pow(Byte, w));
  }

  lemma OpAt(o: Order, final: seq<Octet>, e: Enc, op: Op)
    requires e.off < 8 && ValidEnc(o, e) && Agree(o, final, PutOp(o, e, op))
    ensures LaidOut(o, final, Place(e), op)
  {
    hide ValidEnc, Agree, BitList, ByteList, PutBits, PutBytes, Place, SetAt, ByteAtPlace, Pow, ToUnsigned;
    match op
    case Bits(v, n) =>
      ListsBelow(o, v, n, BigEndian);
      forall i: nat | i < n
        ensures SetAt(o, final, Place(e) + i) <==> v / BitWeight(o, n, i) % 2 == 1
      {
        BitListAt(o, v, n, i);
        BitsAt(o, final, e, BitList(o, v, n), i);
      }
    case Unsigned(v, w, end) =>
      ListsBelow(o, v, w, end);
      IntegerAt(o, final, e, v, w, end);
    case Signed(v, w, end) =>
      ListsBelow(o, v, w, end);
      OwnDigits(v, w, end);
      IntegerAt(o, final, e, v, w, end);
  }

  lemma IntegerAt(o: Order, final: seq<Octet>, e: Enc, v: int, w: nat, end: Endian)
    requires e.off < 8 && ValidEnc(o, e) && AllBelow(ByteList(v, w, end), 256)
    requires Agree(o, final, PutBytes(o, e, ByteList(v, w, end)))
    ensures forall b: nat :: b < w ==>
      ByteAtPlace(o, final, Place(e) + 8 * b, v / ByteWeight(end, w, b) % 256)
  {
    hide ValidEnc, Agree, ByteList, PutBytes, Place, ByteAtPlace, Pow;
    forall b: nat | b < w
      ensures ByteAtPlace(o, final, Place(e) + 8 * b, v / ByteWeight(end, w, b) % 256)
    {
      ByteListAt(v, w, end, b);
      BytesAt(o, final, e, ByteList(v, w, end), b);
    }
  }

  lemma {:induction false} LaidOutFrom(o: Order, final: seq<Octet>, e: Enc, ops: seq<Op>, k: nat)
    requires e.off < 8 && ValidEnc(o, e) && Agree(o, final, PutAll(o, e, ops)) && k < |ops|
    ensures LaidOut(o, final, Place(e) + Sizes(ops[..k]), ops[k])
    decreases k
  {
    hide ValidEnc, Agree, PutOp, Place, Size, LaidOut;
    var next := PutOp(o, e, ops[0]);
    PutOpValid(o, e, ops[0]);
    if k == 0 {
      ReadBackAll(o, final, next, ops[1..]);
      OpAt(o, final, e, ops[0]);
    } else {
      OpAdvances(o, e, ops[0]);
      LaidOutFrom(o, final, next, ops[1..], k - 1);
      assert ops[..k][1..] == ops[1..][..k - 1];
    }
  }

  lemma EmptyIsValid(o: Order)
    ensures ValidEnc(o, EMPTY) && Place(EMPTY) == 0 && EMPTY.off < 8
  {
    hide BitOf;
    forall i | 0 <= i < 8 ensures BitOf(o, 0, i) == 0 {
      ZeroByte(o, i);
    }
  }

  /** After `finish`, every operation of the sequence stands where the sizes of those before it put
      it. */
  lemma StreamLayout(o: Order, ops: seq<Op>, k: nat)
    requires k < |ops|
    ensures LaidOut(o, Finish(PutAll(o, EMPTY, ops)), Sizes(ops[..k]), ops[k])
  {
    hide *;
    EmptyIsValid(o);
    AllValid(o, EMPTY, ops);
    FinishAgrees(o, PutAll(o, EMPTY, ops));
    LaidOutFrom(o, Finish(PutAll(o, EMPTY, ops)), EMPTY, ops, k);
  }

  /** And the stream is as many bytes as they take, the last one filled up. */
  lemma StreamLength(o: Order, ops: seq<Op>)
    ensures |Finish(PutAll(o, EMPTY, ops))| == (Sizes(ops) + 7) / 8
  {
    hide PutAll, Sizes;
    AllAdvance(o, EMPTY, ops);
  }

  /** A value that fits its width is read back as it was. */
  lemma FittingValueReturns(op: Op)
    requires match op
      case Bits(v, n) => 0 <= v < Pow(Bit, n)
      case Unsigned(v, w, _) => 0 <= v < Pow(Byte, w)
      case Signed(v, w, _) => 0 <= 2 * v + Pow(Byte, w) && 2 * v < Pow(Byte, w)
    ensures Expected(op) == op.value
  {
    hide Pow;
    match op
    case Bits(v, n) => ModUnique(v, Pow(Bit, n), 0, v);
    case Unsigned(v, w, _) => ModUnique(v, Pow(Byte, w), 0, v);
    case Signed(v, w, _) =>
      var m := Pow(Byte, w);
      if v < 0 {
        ModUnique(v, m, -1, v + m);
      } else {
        ModUnique(v, m, 0, v);
      }
  }
}
