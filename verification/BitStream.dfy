/** The bit-level stream of web-client/src/BitStream.ts.

    A write goes through `writeBit` unless it is a whole byte at a byte boundary, which is
    stored as it is; an unaligned byte is written least significant bit first whatever the bit
    order.  The theorem below is that reading back with the same sequence of operations still
    returns every value, because the decoder's cursor stays in step with the encoder's. */
module BitStream {
  import opened Octets
  import opened Positional
  import opened Wrappers

  datatype Order = MsbFirst | LsbFirst
  datatype Endian = BigEndian | LittleEndian

  // ---------------------------------------------------------------- bits of one byte

  function ShiftRight(b: bv8, k: nat): bv8
    requires k < 8
  {
    if k == 0 then b else if k == 1 then b >> 1 else if k == 2 then b >> 2 else if k == 3 then b >> 3
    else if k == 4 then b >> 4 else if k == 5 then b >> 5 else if k == 6 then b >> 6 else b >> 7
  }

  function ShiftLeft(b: bv8, k: nat): bv8
    requires k < 8
  {
    if k == 0 then b else if k == 1 then b << 1 else if k == 2 then b << 2 else if k == 3 then b << 3
    else if k == 4 then b << 4 else if k == 5 then b << 5 else if k == 6 then b << 6 else b << 7
  }

  /** Position `k` of a byte: the first bit is its most or its least significant one. */
  function Position(o: Order, k: nat): (p: nat)
    requires k < 8
    ensures p < 8
  {
    match o case MsbFirst => 7 - k case LsbFirst => k
  }

  function Get(b: bv8, p: nat): (bit: nat)
    requires p < 8
    ensures bit < 2
  {
    if ShiftRight(b, p) & 1 == 1 then 1 else 0
  }

  /** `b | (bit << p)` */
  function Set(b: bv8, p: nat, bit: nat): bv8
    requires p < 8 && bit < 2
  {
    if bit == 1 then b | ShiftLeft(1, p) else b | ShiftLeft(0, p)
  }

  function BitOf(o: Order, b: bv8, k: nat): (bit: nat)
    requires k < 8
    ensures bit < 2
  {
    Get(b, Position(o, k))
  }

  function WithBit(o: Order, b: bv8, k: nat, bit: nat): bv8
    requires k < 8 && bit < 2
  {
    Set(b, Position(o, k), bit)
  }

  lemma OrOne(b: bv8, p: nat, q: nat)
    requires p < 8 && q < 8
    ensures p == q ==> ShiftRight(b | ShiftLeft(1, p), q) & 1 == 1
    ensures p != q ==> ShiftRight(b | ShiftLeft(1, p), q) & 1 == ShiftRight(b, q) & 1
  {
    if p < 4 {
      if p < 2 { assert p == 0 || p == 1; } else { assert p == 2 || p == 3; }
    } else {
      if p < 6 { assert p == 4 || p == 5; } else { assert p == 6 || p == 7; }
    }
  }

  lemma OrZero(b: bv8, p: nat)
    requires p < 8
    ensures b | ShiftLeft(0, p) == b
  {
  }

  lemma SetGet(b: bv8, p: nat, bit: nat, q: nat)
    requires p < 8 && bit < 2 && q < 8
    ensures p != q ==> Get(Set(b, p, bit), q) == Get(b, q)
    ensures Get(b, p) == 0 ==> Get(Set(b, p, bit), p) == bit
  {
    hide ShiftRight, ShiftLeft;
    if bit == 1 {
      OrOne(b, p, q);
      OrOne(b, p, p);
    } else {
      OrZero(b, p);
    }
  }

  lemma ZeroByte(o: Order, k: nat)
    requires k < 8
    ensures BitOf(o, 0, k) == 0
  {
  }

  // ---------------------------------------------------------------- the encoder as a value

  /** Complete bytes, the byte being filled, and how many of its bits are used. */
  datatype Enc = Enc(bytes: seq<Octet>, cur: bv8, off: nat)

  const EMPTY := Enc([], 0, 0)

  /** The unused bits of the current byte are zero. */
  ghost predicate ValidEnc(o: Order, e: Enc) {
    e.off < 8 && forall k :: e.off <= k < 8 ==> BitOf(o, e.cur, k) == 0
  }

  function PutBit(o: Order, e: Enc, bit: nat): (r: Enc)
    requires e.off < 8 && bit < 2
    ensures r.off < 8
  {
    var c := WithBit(o, e.cur, e.off, bit);
    if e.off == 7 then Enc(e.bytes + [FromBits(c)], 0, 0) else Enc(e.bytes, c, e.off + 1)
  }

  ghost predicate AllBelow(ds: seq<nat>, bound: nat) {
    forall i :: 0 <= i < |ds| ==> ds[i] < bound
  }

  function PutBits(o: Order, e: Enc, bits: seq<nat>): (r: Enc)
    requires e.off < 8 && AllBelow(bits, 2)
    ensures r.off < 8
    decreases |bits|
  {
    if bits == [] then e else PutBits(o, PutBit(o, e, bits[0]), bits[1..])
  }

  /** A whole byte: stored directly when aligned, else written least significant bit first. */
  function PutByte(o: Order, e: Enc, v: nat): (r: Enc)
    requires e.off < 8 && v < 256
    ensures r.off < 8
  {
    if e.off == 0 then Enc(e.bytes + [v], e.cur, 0) else PutBits(o, e, Digits(Bit, v, 8))
  }

  function PutBytes(o: Order, e: Enc, vs: seq<nat>): (r: Enc)
    requires e.off < 8 && AllBelow(vs, 256)
    ensures r.off < 8
    decreases |vs|
  {
    if vs == [] then e else PutBytes(o, PutByte(o, e, vs[0]), vs[1..])
  }

  /** Flushes a partial byte, padded with zeros. */
  function Finish(e: Enc): seq<Octet> {
    if e.off > 0 then e.bytes + [FromBits(e.cur)] else e.bytes
  }

  // ---------------------------------------------------------------- the decoder as functions

  datatype Cursor = Cursor(byte: nat, bit: nat)

  function CursorOf(e: Enc): Cursor {
    Cursor(|e.bytes|, e.off)
  }

  function GetBit(o: Order, bytes: seq<Octet>, c: Cursor): (r: Option<(nat, Cursor)>)
    requires c.bit < 8
    ensures r.Some? ==> r.value.0 < 2 && r.value.1.bit < 8
  {
    if c.byte >= |bytes| then None
    else
      var bit := BitOf(o, ToBits(bytes[c.byte]), c.bit);
      Some((bit, if c.bit == 7 then Cursor(c.byte + 1, 0) else Cursor(c.byte, c.bit + 1)))
  }

  function GetBits(o: Order, bytes: seq<Octet>, c: Cursor, n: nat): (r: Option<(seq<nat>, Cursor)>)
    requires c.bit < 8
    ensures r.Some? ==> |r.value.0| == n && r.value.1.bit < 8
    decreases n
  {
    if n == 0 then Some(([], c))
    else
      var first := GetBit(o, bytes, c);
      if first.None? then None
      else
        var rest := GetBits(o, bytes, first.value.1, n - 1);
        if rest.None? then None else Some(([first.value.0] + rest.value.0, rest.value.1))
  }

  function GetByte(o: Order, bytes: seq<Octet>, c: Cursor): (r: Option<(nat, Cursor)>)
    requires c.bit < 8
    ensures r.Some? ==> r.value.1.bit < 8
  {
    if c.bit == 0 then
      if c.byte >= |bytes| then None else Some((bytes[c.byte], Cursor(c.byte + 1, 0)))
    else
      var bits := GetBits(o, bytes, c, 8);
      if bits.None? then None else Some((Value(Bit, bits.value.0), bits.value.1))
  }

  function GetBytes(o: Order, bytes: seq<Octet>, c: Cursor, n: nat): (r: Option<(seq<nat>, Cursor)>)
    requires c.bit < 8
    ensures r.Some? ==> |r.value.0| == n && r.value.1.bit < 8
    decreases n
  {
    if n == 0 then Some(([], c))
    else
      var first := GetByte(o, bytes, c);
      if first.None? then None
      else
        var rest := GetBytes(o, bytes, first.value.1, n - 1);
        if rest.None? then None else Some(([first.value.0] + rest.value.0, rest.value.1))
  }

  // ---------------------------------------------------------------- one write read back

  /** The final bytes contain everything the encoder had written when it was in state `e`. */
  ghost predicate Agree(o: Order, final: seq<Octet>, e: Enc)
    requires e.off < 8
  {
    && |e.bytes| <= |final| && final[..|e.bytes|] == e.bytes
    && (e.off > 0 ==> |e.bytes| < |final|)
    && (forall k :: 0 <= k < e.off ==> BitOf(o, ToBits(final[|e.bytes|]), k) == BitOf(o, e.cur, k))
  }

  lemma PutBitValid(o: Order, e: Enc, bit: nat)
    requires ValidEnc(o, e) && bit < 2
    ensures ValidEnc(o, PutBit(o, e, bit))
  {
    forall k | 0 <= k < 8
      ensures k != e.off ==> BitOf(o, WithBit(o, e.cur, e.off, bit), k) == BitOf(o, e.cur, k)
      ensures BitOf(o, 0, k) == 0
    {
      hide Get, Set;
      SetGet(e.cur, Position(o, e.off), bit, Position(o, k));
      ZeroByte(o, k);
    }
    hide BitOf;
  }

  lemma ReadBackBit(o: Order, final: seq<Octet>, e: Enc, bit: nat)
    requires ValidEnc(o, e) && bit < 2 && Agree(o, final, PutBit(o, e, bit))
    ensures Agree(o, final, e)
    ensures GetBit(o, final, CursorOf(e)) == Some((bit, CursorOf(PutBit(o, e, bit))))
  {
    hide Get, Set;
    assert BitOf(o, e.cur, e.off) == 0;
    var n, c := |e.bytes|, WithBit(o, e.cur, e.off, bit);
    if e.off == 7 {
      assert (e.bytes + [FromBits(c)])[n] == final[..n + 1][n];
      assert final[n] == FromBits(c);
      BitsRoundTrip(c);
      assert final[..n] == final[..n + 1][..n] == e.bytes;
    }
    forall k | 0 <= k <= e.off
      ensures BitOf(o, ToBits(final[n]), k) == BitOf(o, c, k)
      ensures k < e.off ==> BitOf(o, c, k) == BitOf(o, e.cur, k)
      ensures k == e.off ==> BitOf(o, c, k) == bit
    {
      SetGet(e.cur, Position(o, e.off), bit, Position(o, k));
    }
  }

  lemma {:induction false} ReadBackBits(o: Order, final: seq<Octet>, e: Enc, bits: seq<nat>)
    requires e.off < 8 && ValidEnc(o, e) && AllBelow(bits, 2) && Agree(o, final, PutBits(o, e, bits))
    ensures ValidEnc(o, PutBits(o, e, bits)) && Agree(o, final, e)
    ensures GetBits(o, final, CursorOf(e), |bits|) == Some((bits, CursorOf(PutBits(o, e, bits))))
    decreases |bits|
  {
    hide Agree, ValidEnc, PutBit, GetBit;
    if bits != [] {
      PutBitValid(o, e, bits[0]);
      ReadBackBits(o, final, PutBit(o, e, bits[0]), bits[1..]);
      ReadBackBit(o, final, e, bits[0]);
      assert [bits[0]] + bits[1..] == bits;
    }
  }

  lemma DirectByte(o: Order, final: seq<Octet>, e: Enc, v: nat)
    requires ValidEnc(o, e) && e.off == 0 && v < 256 && Agree(o, final, PutByte(o, e, v))
    ensures ValidEnc(o, PutByte(o, e, v)) && Agree(o, final, e)
    ensures GetByte(o, final, CursorOf(e)) == Some((v, CursorOf(PutByte(o, e, v))))
  {
    hide BitOf;
    var n := |e.bytes|;
    assert final[n] == final[..n + 1][n] == v;
    assert final[..n] == final[..n + 1][..n];
  }

  lemma UnalignedByte(o: Order, final: seq<Octet>, e: Enc, v: nat)
    requires 0 < e.off < 8 && ValidEnc(o, e) && v < 256 && Agree(o, final, PutByte(o, e, v))
    ensures ValidEnc(o, PutByte(o, e, v)) && Agree(o, final, e)
    ensures GetByte(o, final, CursorOf(e)) == Some((v, CursorOf(PutByte(o, e, v))))
  {
    hide Agree, ValidEnc, PutBits, GetBits, Digits, Value, Pow;
    ReadBackBits(o, final, e, Digits(Bit, v, 8));
    ValueOfDigits(Bit, v, 8);
    Pow8();
  }

  lemma ReadBackByte(o: Order, final: seq<Octet>, e: Enc, v: nat)
    requires e.off < 8 && ValidEnc(o, e) && v < 256 && Agree(o, final, PutByte(o, e, v))
    ensures ValidEnc(o, PutByte(o, e, v)) && Agree(o, final, e)
    ensures GetByte(o, final, CursorOf(e)) == Some((v, CursorOf(PutByte(o, e, v))))
  {
    hide *;
    if e.off == 0 {
      DirectByte(o, final, e, v);
    } else {
      UnalignedByte(o, final, e, v);
    }
  }

  lemma Pow8()
    ensures Pow(Bit, 8) == 256
  {
    assert Pow(Bit, 4) == 16;
  }

  lemma {:induction false} ReadBackBytes(o: Order, final: seq<Octet>, e: Enc, vs: seq<nat>)
    requires e.off < 8 && ValidEnc(o, e) && AllBelow(vs, 256) && Agree(o, final, PutBytes(o, e, vs))
    ensures ValidEnc(o, PutBytes(o, e, vs)) && Agree(o, final, e)
    ensures GetBytes(o, final, CursorOf(e), |vs|) == Some((vs, CursorOf(PutBytes(o, e, vs))))
    decreases |vs|
  {
    hide Agree, ValidEnc, PutByte, GetByte;
    if vs != [] {
      PutByteValid(o, e, vs[0]);
      ReadBackBytes(o, final, PutByte(o, e, vs[0]), vs[1..]);
      ReadBackByte(o, final, e, vs[0]);
      assert [vs[0]] + vs[1..] == vs;
    }
  }

  lemma {:induction false} PutBitsValid(o: Order, e: Enc, bits: seq<nat>)
    requires e.off < 8 && ValidEnc(o, e) && AllBelow(bits, 2)
    ensures ValidEnc(o, PutBits(o, e, bits))
    decreases |bits|
  {
    hide ValidEnc, PutBit;
    if bits != [] {
      PutBitValid(o, e, bits[0]);
      PutBitsValid(o, PutBit(o, e, bits[0]), bits[1..]);
    }
  }

  lemma PutByteValid(o: Order, e: Enc, v: nat)
    requires e.off < 8 && ValidEnc(o, e) && v < 256
    ensures ValidEnc(o, PutByte(o, e, v))
  {
    if e.off != 0 {
      PutBitsValid(o, e, Digits(Bit, v, 8));
    }
  }

  // ---------------------------------------------------------------- operations

  /** A write: a bit field of 1 to 64 bits, or an unsigned or signed integer of `width` bytes. */
  datatype Op =
    | Bits(value: int, size: nat)
    | Unsigned(value: int, width: nat, endian: Endian)
    | Signed(value: int, width: nat, endian: Endian)

  function BitList(o: Order, value: int, size: nat): (bits: seq<nat>)
    ensures |bits| == size
  {
    match o case MsbFirst => Reverse(Digits(Bit, value, size)) case LsbFirst => Digits(Bit, value, size)
  }

  function ByteList(value: int, width: nat, endian: Endian): (bytes: seq<nat>)
    ensures |bytes| == width
  {
    match endian case BigEndian => Reverse(Digits(Byte, value, width)) case LittleEndian => Digits(Byte, value, width)
  }

  lemma {:induction false} ReverseBelow(ds: seq<nat>, bound: nat)
    requires AllBelow(ds, bound)
    ensures AllBelow(Reverse(ds), bound)
  {
    if ds != [] {
      ReverseBelow(ds[1..], bound);
    }
  }

  lemma ListsBelow(o: Order, value: int, n: nat, endian: Endian)
    ensures AllBelow(BitList(o, value, n), 2) && AllBelow(ByteList(value, n, endian), 256)
  {
    ReverseBelow(Digits(Bit, value, n), 2);
    ReverseBelow(Digits(Byte, value, n), 256);
  }

  /** Two's complement of a negative number. */
  function ToUnsigned(value: int, width: nat): int {
    if value < 0 then Pow(Byte, width) + value else value
  }

  function ToSigned(value: nat, width: nat): int {
    if 2 * value >= Pow(Byte, width) then value - Pow(Byte, width) else value
  }

  function PutOp(o: Order, e: Enc, op: Op): (r: Enc)
    requires e.off < 8
    ensures r.off < 8
  {
    match op
    case Bits(v, n) => ListsBelow(o, v, n, BigEndian); PutBits(o, e, BitList(o, v, n))
    case Unsigned(v, w, end) => ListsBelow(o, v, w, end); PutBytes(o, e, ByteList(v, w, end))
    case Signed(v, w, end) =>
      ListsBelow(o, ToUnsigned(v, w), w, end); PutBytes(o, e, ByteList(ToUnsigned(v, w), w, end))
  }

  function FromBitList(o: Order, bits: seq<nat>): nat {
    match o case MsbFirst => Value(Bit, Reverse(bits)) case LsbFirst => Value(Bit, bits)
  }

  function FromByteList(bytes: seq<nat>, endian: Endian): nat {
    match endian case BigEndian => Value(Byte, Reverse(bytes)) case LittleEndian => Value(Byte, bytes)
  }

  /** The read that matches a write: only its kind, width and endianness matter. */
  function GetOp(o: Order, bytes: seq<Octet>, c: Cursor, op: Op): (r: Option<(int, Cursor)>)
    requires c.bit < 8
    ensures r.Some? ==> r.value.1.bit < 8
  {
    match op
    case Bits(_, n) =>
      var bits := GetBits(o, bytes, c, n);
      if bits.None? then None else Some((FromBitList(o, bits.value.0), bits.value.1))
    case Unsigned(_, w, end) =>
      var list := GetBytes(o, bytes, c, w);
      if list.None? then None else Some((FromByteList(list.value.0, end), list.value.1))
    case Signed(_, w, end) =>
      var list := GetBytes(o, bytes, c, w);
      if list.None? then None else Some((ToSigned(FromByteList(list.value.0, end), w), list.value.1))
  }

  /** What reading an operation back should give: its value masked to its width. */
  function Expected(op: Op): int {
    match op
    case Bits(v, n) => v % Pow(Bit, n)
    case Unsigned(v, w, _) => v % Pow(Byte, w)
    case Signed(v, w, _) => ToSigned(v % Pow(Byte, w), w)
  }

  lemma ListValues(o: Order, v: int, n: nat, endian: Endian)
    ensures FromBitList(o, BitList(o, v, n)) == v % Pow(Bit, n)
    ensures FromByteList(ByteList(v, n, endian), endian) == v % Pow(Byte, n)
  {
    hide Digits, Value;
    ValueOfDigits(Bit, v, n);
    ValueOfDigits(Byte, v, n);
    ReverseTwice(Digits(Bit, v, n));
    ReverseTwice(Digits(Byte, v, n));
  }

  lemma AddModulus(v: int, m: nat)
    requires m > 0
    ensures (v + m) % m == v % m
  {
    DivMod(v, m);
    assert v + m == m * (v / m + 1) + v % m;
    ModUnique(v + m, m, v / m + 1, v % m);
  }

  lemma ReadBackOp(o: Order, final: seq<Octet>, e: Enc, op: Op)
    requires e.off < 8 && ValidEnc(o, e) && Agree(o, final, PutOp(o, e, op))
    ensures ValidEnc(o, PutOp(o, e, op)) && Agree(o, final, e)
    ensures GetOp(o, final, CursorOf(e), op) == Some((Expected(op), CursorOf(PutOp(o, e, op))))
  {
    hide ValidEnc, Agree, BitList, ByteList, FromBitList, FromByteList, GetBits, GetBytes, PutBits, PutBytes;
    match op
    case Bits(v, n) =>
      ListsBelow(o, v, n, BigEndian);
      ReadBackBits(o, final, e, BitList(o, v, n));
      ListValues(o, v, n, BigEndian);
    case Unsigned(v, w, end) =>
      ListsBelow(o, v, w, end);
      ReadBackBytes(o, final, e, ByteList(v, w, end));
      ListValues(o, v, w, end);
    case Signed(v, w, end) =>
      var u := ToUnsigned(v, w);
      ListsBelow(o, u, w, end);
      ReadBackBytes(o, final, e, ByteList(u, w, end));
      ListValues(o, u, w, end);
      AddModulus(v, Pow(Byte, w));
  }

  // ---------------------------------------------------------------- whole sequences

  function PutAll(o: Order, e: Enc, ops: seq<Op>): (r: Enc)
    requires e.off < 8
    ensures r.off < 8
    decreases |ops|
  {
    if ops == [] then e else PutAll(o, PutOp(o, e, ops[0]), ops[1..])
  }

  function GetAll(o: Order, bytes: seq<Octet>, c: Cursor, ops: seq<Op>): (r: Option<(seq<int>, Cursor)>)
    requires c.bit < 8
    ensures r.Some? ==> r.value.1.bit < 8
    decreases |ops|
  {
    if ops == [] then Some(([], c))
    else
      var first := GetOp(o, bytes, c, ops[0]);
      if first.None? then None
      else
        var rest := GetAll(o, bytes, first.value.1, ops[1..]);
        if rest.None? then None else Some(([first.value.0] + rest.value.0, rest.value.1))
  }

  function ExpectedAll(ops: seq<Op>): seq<int> {
    if ops == [] then [] else [Expected(ops[0])] + ExpectedAll(ops[1..])
  }

  lemma {:induction false} PutOpValid(o: Order, e: Enc, op: Op)
    requires e.off < 8 && ValidEnc(o, e)
    ensures ValidEnc(o, PutOp(o, e, op))
  {
    hide ValidEnc, PutBits, PutBytes, PutByte;
    match op
    case Bits(v, n) =>
      ListsBelow(o, v, n, BigEndian);
      PutBitsValid(o, e, BitList(o, v, n));
    case Unsigned(v, w, end) =>
      ListsBelow(o, v, w, end);
      PutBytesValid(o, e, ByteList(v, w, end));
    case Signed(v, w, end) =>
      ListsBelow(o, ToUnsigned(v, w), w, end);
      PutBytesValid(o, e, ByteList(ToUnsigned(v, w), w, end));
  }

  lemma {:induction false} PutBytesValid(o: Order, e: Enc, vs: seq<nat>)
    requires e.off < 8 && ValidEnc(o, e) && AllBelow(vs, 256)
    ensures ValidEnc(o, PutBytes(o, e, vs))
    decreases |vs|
  {
    hide ValidEnc, PutByte;
    if vs != [] {
      PutByteValid(o, e, vs[0]);
      PutBytesValid(o, PutByte(o, e, vs[0]), vs[1..]);
    }
  }

  lemma {:induction false} ReadBackAll(o: Order, final: seq<Octet>, e: Enc, ops: seq<Op>)
    requires e.off < 8 && ValidEnc(o, e) && Agree(o, final, PutAll(o, e, ops))
    ensures ValidEnc(o, PutAll(o, e, ops)) && Agree(o, final, e)
    ensures GetAll(o, final, CursorOf(e), ops) == Some((ExpectedAll(ops), CursorOf(PutAll(o, e, ops))))
    decreases |ops|
  {
    hide ValidEnc, Agree, PutOp, GetOp, Expected;
    if ops != [] {
      PutOpValid(o, e, ops[0]);
      ReadBackAll(o, final, PutOp(o, e, ops[0]), ops[1..]);
      ReadBackOp(o, final, e, ops[0]);
    }
  }

  lemma FinishAgrees(o: Order, e: Enc)
    requires ValidEnc(o, e)
    ensures Agree(o, Finish(e), e)
  {
    hide BitOf;
  }

  /** Any sequence of writes, mixed and unaligned as may be, in either bit order: after `finish`
      the same sequence of reads returns every value masked to its width, and after any prefix
      of it the decoder's cursor is where the encoder's was. */
  lemma RoundTrip(o: Order, ops: seq<Op>, k: nat)
    requires k <= |ops|
    ensures var bytes := Finish(PutAll(o, EMPTY, ops));
      && GetAll(o, bytes, Cursor(0, 0), ops) == Some((ExpectedAll(ops), CursorOf(PutAll(o, EMPTY, ops))))
      && GetAll(o, bytes, Cursor(0, 0), ops[..k]) ==
           Some((ExpectedAll(ops[..k]), CursorOf(PutAll(o, EMPTY, ops[..k]))))
  {
    assert ValidEnc(o, EMPTY) by {
      forall k | 0 <= k < 8 ensures BitOf(o, 0, k) == 0 {
        ZeroByte(o, k);
      }
    }
    hide *;
    var last := PutAll(o, EMPTY, ops);
    var bytes := Finish(last);
    AllValid(o, EMPTY, ops);
    FinishAgrees(o, last);
    assert ops == ops[..k] + ops[k..];
    PutAllAppend(o, EMPTY, ops[..k], ops[k..]);
    AllValid(o, EMPTY, ops[..k]);
    ReadBackAll(o, bytes, PutAll(o, EMPTY, ops[..k]), ops[k..]);
    ReadBackAll(o, bytes, EMPTY, ops[..k]);
    ReadBackAll(o, bytes, EMPTY, ops);
    StartCursor();
  }

  lemma StartCursor()
    ensures CursorOf(EMPTY) == Cursor(0, 0) && EMPTY.off == 0
  {
  }

  lemma {:induction false} AllValid(o: Order, e: Enc, ops: seq<Op>)
    requires e.off < 8 && ValidEnc(o, e)
    ensures ValidEnc(o, PutAll(o, e, ops))
    decreases |ops|
  {
    hide ValidEnc, PutOp;
    if ops != [] {
      PutOpValid(o, e, ops[0]);
      AllValid(o, PutOp(o, e, ops[0]), ops[1..]);
    }
  }

  lemma {:induction false} PutAllAppend(o: Order, e: Enc, a: seq<Op>, b: seq<Op>)
    requires e.off < 8
    ensures PutAll(o, e, a + b) == PutAll(o, PutAll(o, e, a), b)
    decreases |a|
  {
    hide PutOp;
    if a == [] {
      assert a + b == b;
    } else {
      assert (a + b)[1..] == a[1..] + b;
      PutAllAppend(o, PutOp(o, e, a[0]), a[1..], b);
    }
  }
}
