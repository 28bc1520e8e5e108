/** The classes of web-client/src/BitStream.ts, proved against the functions of `BitStream`.
    `value & mask` and `value >> k` are modulus and flooring division, which is what they are for
    JavaScript's 32-bit and big-integer operators on the bits kept; `a | (b << k)` with `a` below
    2^k is addition. */
module BitStreamClasses {
  import opened BitStream
  import opened Octets
  import opened Positional
  import opened Wrappers

  // ---------------------------------------------------------------- writing, one element more

  lemma {:induction false} PutBitsSnoc(o: Order, e: Enc, bits: seq<nat>, bit: nat)
    requires e.off < 8 && AllBelow(bits, 2) && bit < 2
    ensures AllBelow(bits + [bit], 2)
    ensures PutBits(o, e, bits + [bit]) == PutBit(o, PutBits(o, e, bits), bit)
    decreases |bits|
  {
    hide PutBit;
    if bits == [] {
      assert [] + [bit] == [bit] && [bit][1..] == [];
    } else {
      assert (bits + [bit])[1..] == bits[1..] + [bit];
      PutBitsSnoc(o, PutBit(o, e, bits[0]), bits[1..], bit);
    }
  }

  lemma {:induction false} PutBytesAppend(o: Order, e: Enc, a: seq<nat>, b: seq<nat>)
    requires e.off < 8 && AllBelow(a, 256) && AllBelow(b, 256)
    ensures AllBelow(a + b, 256)
    ensures PutBytes(o, e, a + b) == PutBytes(o, PutBytes(o, e, a), b)
    decreases |a|
  {
    hide PutByte;
    if a == [] {
      assert a + b == b;
    } else {
      assert (a + b)[1..] == a[1..] + b;
      PutBytesAppend(o, PutByte(o, e, a[0]), a[1..], b);
    }
  }

  lemma PutTwo(o: Order, e: Enc, a: nat, b: nat)
    requires e.off < 8 && a < 256 && b < 256
    ensures PutBytes(o, e, [a]) == PutByte(o, e, a)
    ensures PutBytes(o, e, [a, b]) == PutByte(o, PutByte(o, e, a), b)
  {
    hide PutByte;
    assert [a][1..] == [] && [a, b][1..] == [b] && [b][1..] == [];
    assert PutBytes(o, e, [a, b]) == PutBytes(o, PutByte(o, e, a), [b]);
  }

  /** The bytes of a value, as the shift amounts in the source name them. */
  lemma ByteAt(v: int)
    ensures ByteList(v, 1, BigEndian) == ByteList(v, 1, LittleEndian) == [v % 256]
    ensures ByteList(v, 2, LittleEndian) == [v % 256, v / 0x100 % 256]
    ensures ByteList(v, 2, BigEndian) == [v / 0x100 % 256, v % 256]
    ensures ByteList(v, 4, LittleEndian) ==
      [v % 256, v / 0x100 % 256] + [v / 0x1_0000 % 256, v / 0x100_0000 % 256]
    ensures ByteList(v, 4, BigEndian) ==
      [v / 0x100_0000 % 256, v / 0x1_0000 % 256] + [v / 0x100 % 256, v % 256]
  {
    hide Digits, Reverse, Pow;
    forall n: nat, i: nat | i < n <= 4
      ensures Digits(Byte, v, n)[i] == Low(Byte, v / Pow(Byte, i))
      ensures Reverse(Digits(Byte, v, n))[i] == Low(Byte, v / Pow(Byte, n - 1 - i))
    {
      DigitAt(Byte, v, n, i);
      DigitAt(Byte, v, n, n - 1 - i);
      ReverseAt(Digits(Byte, v, n), i);
    }
    ByteWeights();
  }

  lemma LongByteAt(v: int)
    ensures ByteList(v, 8, LittleEndian) ==
      ([v % 256, v / 0x100 % 256] + [v / 0x1_0000 % 256, v / 0x100_0000 % 256])
      + ([v / 0x1_0000_0000 % 256, v / 0x100_0000_0000 % 256]
      + [v / 0x1_0000_0000_0000 % 256, v / 0x100_0000_0000_0000 % 256])
    ensures ByteList(v, 8, BigEndian) ==
      ([v / 0x100_0000_0000_0000 % 256, v / 0x1_0000_0000_0000 % 256]
      + [v / 0x100_0000_0000 % 256, v / 0x1_0000_0000 % 256])
      + ([v / 0x100_0000 % 256, v / 0x1_0000 % 256] + [v / 0x100 % 256, v % 256])
  {
    hide Digits, Reverse, Pow;
    forall i: nat | i < 8
      ensures Digits(Byte, v, 8)[i] == Low(Byte, v / Pow(Byte, i))
      ensures Reverse(Digits(Byte, v, 8))[i] == Low(Byte, v / Pow(Byte, 7 - i))
    {
      DigitAt(Byte, v, 8, i);
      DigitAt(Byte, v, 8, 7 - i);
      ReverseAt(Digits(Byte, v, 8), i);
    }
    ByteWeights();
  }

  class BitStreamEncoder {
    var bytes: seq<Octet>
    var currentByte: bv8
    var bitOffset: nat
    const bitOrder: Order

    ghost function State(): Enc
      reads this
    {
      Enc(bytes, currentByte, bitOffset)
    }

    constructor (order: Order)
      ensures State() == EMPTY && bitOrder == order
    {
      bytes, currentByte, bitOffset := [], 0, 0;
      bitOrder := order;
    }

    method WriteBit(bit: nat)
      requires State().off < 8 && bit < 2
      modifies this
      ensures State() == PutBit(bitOrder, old(State()), bit)
    {
      hide Set;
      if bitOrder == MsbFirst {
        currentByte := Set(currentByte, 7 - bitOffset, bit);
      } else {
        currentByte := Set(currentByte, bitOffset, bit);
      }
      bitOffset := bitOffset + 1;
      if bitOffset == 8 {
        bytes := bytes + [FromBits(currentByte)];
        currentByte := 0;
        bitOffset := 0;
      }
    }

    /** Refuses a size outside 1 to 64; otherwise writes the low `size` bits of `value`. */
    method WriteBits(value: int, size: int) returns (ok: bool)
      requires State().off < 8
      modifies this
      ensures ok <==> 1 <= size <= 64
      ensures State() == if ok then PutOp(bitOrder, old(State()), Bits(value, size)) else old(State())
    {
      hide Digits, Reverse, Pow, PutBit, PutBits, PutOp;
      if size < 1 || size > 64 {
        return false;
      }
      var val := value % Pow(Bit, size);
      ghost var ds := Digits(Bit, val, size);
      ghost var start := State();
      DigitFacts(bitOrder, start, value, size);
      if bitOrder == LsbFirst {
        for i := 0 to size
          invariant State().off < 8
          invariant State() == PutBits(bitOrder, start, ds[..i])
        {
          var bit := val / Pow(Bit, i) % 2;
          BitAt(val, size, i);
          PutBitsSnoc(bitOrder, start, ds[..i], bit);
          assert ds[..i + 1] == ds[..i] + [bit];
          WriteBit(bit);
        }
        assert ds[..size] == ds;
      } else {
        ghost var rs := Reverse(ds);
        for i := size downto 0
          invariant State().off < 8
          invariant State() == PutBits(bitOrder, start, rs[..size - i])
        {
          var bit := val / Pow(Bit, i) % 2;
          BitAt(val, size, i);
          PutBitsSnoc(bitOrder, start, rs[..size - 1 - i], bit);
          assert rs[..size - i] == rs[..size - 1 - i] + [bit];
          WriteBit(bit);
        }
        assert rs[..size] == rs;
      }
      return true;
    }

    /** An aligned byte is stored whole; an unaligned one goes bit by bit, lowest first. */
    method WriteUint8(value: int)
      requires State().off < 8
      modifies this
      ensures State() == PutByte(bitOrder, old(State()), value % 256)
      ensures 0 <= value < 256 ==> State() == PutByte(bitOrder, old(State()), value)
    {
      hide Digits, PutBits, PutByte, Pow, PutBit;
      ghost var start := State();
      ByteFacts(bitOrder, start, value);
      if bitOffset == 0 {
        bytes := bytes + [value % 256];
      } else {
        ghost var ds := Digits(Bit, value, 8);
        for i := 0 to 8
          invariant State().off < 8
          invariant State() == PutBits(bitOrder, start, ds[..i])
        {
          var bit := value / Pow(Bit, i) % 2;
          BitAt(value, 8, i);
          PutBitsSnoc(bitOrder, start, ds[..i], bit);
          assert ds[..i + 1] == ds[..i] + [bit];
          WriteBit(bit);
        }
        assert ds[..8] == ds;
      }
    }

    method WriteUint16(value: int, endianness: Endian)
      requires State().off < 8
      modifies this
      ensures State() == PutOp(bitOrder, old(State()), Unsigned(value, 2, endianness))
    {
      hide *;
      ghost var start := State();
      ByteAt(value);
      OpBytes(bitOrder, start, value, 2, endianness);
      if endianness == BigEndian {
        PutTwo(bitOrder, start, value / 0x100 % 256, value % 256);
        WriteUint8(value / 0x100 % 256);
        WriteUint8(value % 256);
      } else {
        PutTwo(bitOrder, start, value % 256, value / 0x100 % 256);
        WriteUint8(value % 256);
        WriteUint8(value / 0x100 % 256);
      }
    }

    method WriteUint32(value: int, endianness: Endian)
      requires State().off < 8
      modifies this
      ensures State() == PutOp(bitOrder, old(State()), Unsigned(value, 4, endianness))
    {
      hide *;
      ghost var start := State();
      ByteAt(value);
      OpBytes(bitOrder, start, value, 4, endianness);
      var b0, b1, b2, b3 := value % 256, value / 0x100 % 256, value / 0x1_0000 % 256, value / 0x100_0000 % 256;
      if endianness == BigEndian {
        PutFour(bitOrder, start, b3, b2, b1, b0);
        WriteUint8(b3);
        WriteUint8(b2);
        WriteUint8(b1);
        WriteUint8(b0);
      } else {
        PutFour(bitOrder, start, b0, b1, b2, b3);
        WriteUint8(b0);
        WriteUint8(b1);
        WriteUint8(b2);
        WriteUint8(b3);
      }
    }

    method WriteUint64(value: int, endianness: Endian)
      requires State().off < 8
      modifies this
      ensures State() == PutOp(bitOrder, old(State()), Unsigned(value, 8, endianness))
    {
      hide *;
      LongByteAt(value);
      ghost var start := State();
      var b0, b1, b2, b3 := value % 256, value / 0x100 % 256, value / 0x1_0000 % 256, value / 0x100_0000 % 256;
      var b4, b5 := value / 0x1_0000_0000 % 256, value / 0x100_0000_0000 % 256;
      var b6, b7 := value / 0x1_0000_0000_0000 % 256, value / 0x100_0000_0000_0000 % 256;
      if endianness == BigEndian {
        EightBytes(bitOrder, start, b7, b6, b5, b4, b3, b2, b1, b0, value, BigEndian);
        WriteUint8(b7);
        WriteUint8(b6);
        WriteUint8(b5);
        WriteUint8(b4);
        WriteUint8(b3);
        WriteUint8(b2);
        WriteUint8(b1);
        WriteUint8(b0);
      } else {
        EightBytes(bitOrder, start, b0, b1, b2, b3, b4, b5, b6, b7, value, LittleEndian);
        WriteUint8(b0);
        WriteUint8(b1);
        WriteUint8(b2);
        WriteUint8(b3);
        WriteUint8(b4);
        WriteUint8(b5);
        WriteUint8(b6);
        WriteUint8(b7);
      }
    }

    method WriteInt8(value: int)
      requires State().off < 8
      modifies this
      ensures forall end :: State() == PutOp(bitOrder, old(State()), Signed(value, 1, end))
    {
      var unsigned := if value < 0 then 256 + value else value;
      SignedBytes(bitOrder, State(), value, 1, BigEndian);
      SignedBytes(bitOrder, State(), value, 1, LittleEndian);
      hide *;
      ByteWeights();
      ByteAt(unsigned);
      OpBytes(bitOrder, State(), unsigned, 1, BigEndian);
      OpBytes(bitOrder, State(), unsigned, 1, LittleEndian);
      PutTwo(bitOrder, State(), unsigned % 256, 0);
      WriteUint8(unsigned);
    }

    method WriteInt16(value: int, endianness: Endian)
      requires State().off < 8
      modifies this
      ensures State() == PutOp(bitOrder, old(State()), Signed(value, 2, endianness))
    {
      hide *;
      var unsigned := if value < 0 then 65536 + value else value;
      ByteWeights();
      SignedBytes(bitOrder, State(), value, 2, endianness);
      WriteUint16(unsigned, endianness);
    }

    /** `unsigned >>> 0` reduces modulo 2^32. */
    method WriteInt32(value: int, endianness: Endian)
      requires State().off < 8
      modifies this
      ensures State() == PutOp(bitOrder, old(State()), Signed(value, 4, endianness))
    {
      hide *;
      var unsigned := if value < 0 then 4294967296 + value else value;
      ByteWeights();
      SignedBytes(bitOrder, State(), value, 4, endianness);
      MaskedWrite(bitOrder, State(), unsigned, 4, endianness);
      WriteUint32(unsigned % 4294967296, endianness);
    }

    method WriteInt64(value: int, endianness: Endian)
      requires State().off < 8
      modifies this
      ensures State() == PutOp(bitOrder, old(State()), Signed(value, 8, endianness))
    {
      hide *;
      var unsigned := if value < 0 then 0x1_0000_0000_0000_0000 + value else value;
      ByteWeights();
      SignedBytes(bitOrder, State(), value, 8, endianness);
      WriteUint64(unsigned, endianness);
    }

    method FinishStream() returns (r: seq<Octet>)
      modifies this
      ensures r == Finish(old(State()))
      ensures State() == Enc(r, if old(bitOffset) > 0 then 0 else old(currentByte), 0)
    {
      if bitOffset > 0 {
        bytes := bytes + [FromBits(currentByte)];
        currentByte := 0;
        bitOffset := 0;
      }
      r := bytes;
    }
  }

  // ---------------------------------------------------------------- what the methods above use

  lemma BitAt(v: int, n: nat, i: nat)
    requires i < n
    ensures 0 <= v / Pow(Bit, i) % 2 < 2
    ensures Digits(Bit, v, n)[i] == Reverse(Digits(Bit, v, n))[n - 1 - i] == v / Pow(Bit, i) % 2
  {
    hide Digits, Reverse, Pow;
    DigitAt(Bit, v, n, i);
    ReverseAt(Digits(Bit, v, n), n - 1 - i);
  }

  lemma DigitFacts(o: Order, e: Enc, value: int, size: nat)
    requires e.off < 8
    ensures var ds := Digits(Bit, value % Pow(Bit, size), size);
      && AllBelow(ds, 2) && AllBelow(Reverse(ds), 2) && PutBits(o, e, []) == e
      && PutOp(o, e, Bits(value, size)) == PutBits(o, e, if o == LsbFirst then ds else Reverse(ds))
  {
    hide Digits, Reverse, Pow, PutBits, PutBytes;
    MaskedDigits(Bit, value, size);
    ListsBelow(MsbFirst, value, size, BigEndian);
    ListsBelow(LsbFirst, value, size, BigEndian);
    PutNothing(o, e);
  }

  lemma PutNothing(o: Order, e: Enc)
    requires e.off < 8
    ensures PutBits(o, e, []) == e
  {
  }

  lemma ByteFacts(o: Order, e: Enc, value: int)
    requires e.off < 8
    ensures AllBelow(Digits(Bit, value, 8), 2) && PutBits(o, e, []) == e
    ensures e.off == 0 ==> PutByte(o, e, value % 256) == Enc(e.bytes + [value % 256], e.cur, 0)
    ensures e.off > 0 ==> PutByte(o, e, value % 256) == PutBits(o, e, Digits(Bit, value, 8))
  {
    hide Digits, PutBits, Pow;
    PutNothing(o, e);
    MaskedDigits(Bit, value, 8);
    Pow8();
  }

  lemma OpBytes(o: Order, e: Enc, v: int, w: nat, end: Endian)
    requires e.off < 8
    ensures AllBelow(ByteList(v, w, end), 256)
    ensures PutOp(o, e, Unsigned(v, w, end)) == PutBytes(o, e, ByteList(v, w, end))
  {
    hide ByteList, PutBytes;
    ListsBelow(o, v, w, end);
  }

  lemma PutFour(o: Order, e: Enc, a: nat, b: nat, c: nat, d: nat)
    requires e.off < 8 && a < 256 && b < 256 && c < 256 && d < 256
    ensures AllBelow([a, b] + [c, d], 256)
    ensures PutBytes(o, e, [a, b] + [c, d]) ==
            PutByte(o, PutByte(o, PutByte(o, PutByte(o, e, a), b), c), d)
  {
    hide PutByte, PutBytes;
    PutTwo(o, e, a, b);
    PutTwo(o, PutByte(o, PutByte(o, e, a), b), c, d);
    PutBytesAppend(o, e, [a, b], [c, d]);
  }

  lemma EightBytes(o: Order, e: Enc, a: nat, b: nat, c: nat, d: nat, f: nat, g: nat, h: nat, i: nat,
                   v: int, end: Endian)
    requires e.off < 8 && a < 256 && b < 256 && c < 256 && d < 256 && f < 256 && g < 256 && h < 256 && i < 256
    requires ByteList(v, 8, end) == ([a, b] + [c, d]) + ([f, g] + [h, i])
    ensures var half := PutByte(o, PutByte(o, PutByte(o, PutByte(o, e, a), b), c), d);
      PutOp(o, e, Unsigned(v, 8, end)) ==
      PutByte(o, PutByte(o, PutByte(o, PutByte(o, half, f), g), h), i)
  {
    hide PutByte, PutBytes, PutOp, ByteList;
    PutFour(o, e, a, b, c, d);
    PutFour(o, PutByte(o, PutByte(o, PutByte(o, PutByte(o, e, a), b), c), d), f, g, h, i);
    PutBytesAppend(o, e, [a, b] + [c, d], [f, g] + [h, i]);
    OpBytes(o, e, v, 8, end);
  }

  lemma SignedBytes(o: Order, e: Enc, v: int, w: nat, end: Endian)
    requires e.off < 8
    ensures PutOp(o, e, Signed(v, w, end)) ==
            PutOp(o, e, Unsigned(if v < 0 then Pow(Byte, w) + v else v, w, end))
  {
    hide ByteList, PutBytes, Pow;
  }

  lemma MaskedWrite(o: Order, e: Enc, v: int, w: nat, end: Endian)
    requires e.off < 8
    ensures PutOp(o, e, Unsigned(v % Pow(Byte, w), w, end)) == PutOp(o, e, Unsigned(v, w, end))
  {
    hide PutBytes, Pow, Digits, Reverse;
    MaskedDigits(Byte, v, w);
  }

  // ---------------------------------------------------------------- reading in a loop

  /** What is left to read, with the elements read so far put in front. */
  function Prepend(head: seq<nat>, rest: Option<(seq<nat>, Cursor)>): Option<(seq<nat>, Cursor)> {
    if rest.None? then None else Some((head + rest.value.0, rest.value.1))
  }

  /** Having read `read` from `start` to reach `c`, what one more bit leads to. */
  lemma BitStep(o: Order, bytes: seq<Octet>, start: Cursor, n: nat, read: seq<nat>, c: Cursor)
    requires start.bit < 8 && c.bit < 8 && |read| < n
    requires GetBits(o, bytes, start, n) == Prepend(read, GetBits(o, bytes, c, n - |read|))
    ensures GetBit(o, bytes, c).None? ==> GetBits(o, bytes, start, n) == None
    ensures GetBit(o, bytes, c).Some? ==>
              var (bit, next) := GetBit(o, bytes, c).value;
              GetBits(o, bytes, start, n) == Prepend(read + [bit], GetBits(o, bytes, next, n - |read| - 1))
  {
    hide GetBit;
    if GetBit(o, bytes, c).Some? {
      var (bit, next) := GetBit(o, bytes, c).value;
      var rest := GetBits(o, bytes, next, n - |read| - 1);
      if rest.Some? {
        assert read + ([bit] + rest.value.0) == read + [bit] + rest.value.0;
      }
    }
  }

  lemma ByteStep(o: Order, bytes: seq<Octet>, start: Cursor, n: nat, read: seq<nat>, c: Cursor)
    requires start.bit < 8 && c.bit < 8 && |read| < n
    requires GetBytes(o, bytes, start, n) == Prepend(read, GetBytes(o, bytes, c, n - |read|))
    ensures GetByte(o, bytes, c).None? ==> GetBytes(o, bytes, start, n) == None
    ensures GetByte(o, bytes, c).Some? ==>
              var (byte, next) := GetByte(o, bytes, c).value;
              GetBytes(o, bytes, start, n) == Prepend(read + [byte], GetBytes(o, bytes, next, n - |read| - 1))
  {
    hide GetByte;
    if GetByte(o, bytes, c).Some? {
      var (byte, next) := GetByte(o, bytes, c).value;
      var rest := GetBytes(o, bytes, next, n - |read| - 1);
      if rest.Some? {
        assert read + ([byte] + rest.value.0) == read + [byte] + rest.value.0;
      }
    }
  }

  lemma BeforeReading(o: Order, bytes: seq<Octet>, c: Cursor, n: nat)
    requires c.bit < 8
    ensures GetBits(o, bytes, c, n) == Prepend([], GetBits(o, bytes, c, n))
    ensures GetBytes(o, bytes, c, n) == Prepend([], GetBytes(o, bytes, c, n))
    ensures Value(Bit, []) == Value(Byte, []) == 0
    ensures Value(Bit, Reverse([])) * Pow(Bit, n) == 0 && Value(Byte, Reverse([])) == 0
  {
    hide GetBits, GetBytes, Pow;
    forall rest: Option<(seq<nat>, Cursor)> | rest.Some? ensures [] + rest.value.0 == rest.value.0 {
    }
  }

  lemma AllRead(o: Order, bytes: seq<Octet>, c: Cursor, read: seq<nat>)
    requires c.bit < 8
    ensures Prepend(read, GetBits(o, bytes, c, 0)) == Prepend(read, GetBytes(o, bytes, c, 0)) == Some((read, c))
    ensures Value(Bit, Reverse(read)) * Pow(Bit, 0) == Value(Bit, Reverse(read))
  {
    assert read + [] == read;
  }

  /** The value of the digits so far, at the top of a field of `n` digits. */
  lemma TopDigit(b: Base, ds: seq<nat>, d: nat, n: nat)
    requires |ds| < n
    ensures Value(b, Reverse(ds + [d])) * Pow(b, n - |ds| - 1) ==
            Value(b, Reverse(ds)) * Pow(b, n - |ds|) + d * Pow(b, n - |ds| - 1)
  {
    ReverseAppend(ds, d);
    var v, p := Value(b, Reverse(ds)), Pow(b, n - |ds| - 1);
    assert ([d] + Reverse(ds))[1..] == Reverse(ds);
    assert (d + Radix(b) * v) * p == d * p + v * (Radix(b) * p);
  }

  class BitStreamDecoder {
    const bytes: seq<Octet>
    var byteOffset: nat
    var bitOffset: nat
    const bitOrder: Order

    ghost function At(): Cursor
      reads this
    {
      Cursor(byteOffset, bitOffset)
    }

    /** The method's result and the new cursor are those of the function `spec`. */
    ghost predicate Follows<T>(spec: Option<(T, Cursor)>, r: Option<T>)
      reads this
    {
      match spec
      case None => r == None
      case Some((v, c)) => r == Some(v) && At() == c
    }

    constructor (data: seq<Octet>, order: Order)
      ensures At() == Cursor(0, 0) && bytes == data && bitOrder == order
    {
      bytes, byteOffset, bitOffset, bitOrder := data, 0, 0, order;
    }

    method ReadBit() returns (r: Option<nat>)
      requires At().bit < 8
      modifies this`byteOffset, this`bitOffset
      ensures At().bit < 8 && Follows(GetBit(bitOrder, bytes, old(At())), r)
    {
      hide Get;
      if byteOffset >= |bytes| {
        return None;
      }
      var currentByte := ToBits(bytes[byteOffset]);
      var bit := if bitOrder == MsbFirst then Get(currentByte, 7 - bitOffset) else Get(currentByte, bitOffset);
      bitOffset := bitOffset + 1;
      if bitOffset == 8 {
        byteOffset := byteOffset + 1;
        bitOffset := 0;
      }
      return Some(bit);
    }

    /** A size outside 1 to 64 is refused and nothing is read; too short a stream is an error. */
    method ReadBits(size: int) returns (r: Option<nat>)
      requires At().bit < 8
      modifies this`byteOffset, this`bitOffset
      ensures At().bit < 8
      ensures !(1 <= size <= 64) ==> r == None && At() == old(At())
      ensures 1 <= size <= 64 ==> Follows(GetOp(bitOrder, bytes, old(At()), Bits(0, size)), r)
    {
      hide GetBit, GetBits, Prepend, Value, Reverse, Pow;
      if size < 1 || size > 64 {
        return None;
      }
      var result := 0;
      ghost var start, read: seq<nat> := At(), [];
      BeforeReading(bitOrder, bytes, start, size);
      if bitOrder == LsbFirst {
        for i := 0 to size
          invariant At().bit < 8 && |read| == i && result == Value(Bit, read)
          invariant GetBits(bitOrder, bytes, start, size) ==
                    Prepend(read, GetBits(bitOrder, bytes, At(), size - i))
        {
          BitStep(bitOrder, bytes, start, size, read, At());
          var bit := ReadBit();
          if bit.None? {
            return None;
          }
          ValueAppend(Bit, read, bit.value);
          result := result + bit.value * Pow(Bit, i);
          read := read + [bit.value];
        }
      } else {
        for i := size downto 0
          invariant At().bit < 8 && |read| == size - i && result == Value(Bit, Reverse(read)) * Pow(Bit, i)
          invariant GetBits(bitOrder, bytes, start, size) ==
                    Prepend(read, GetBits(bitOrder, bytes, At(), i))
        {
          BitStep(bitOrder, bytes, start, size, read, At());
          var bit := ReadBit();
          if bit.None? {
            return None;
          }
          TopDigit(Bit, read, bit.value, size);
          result := result + bit.value * Pow(Bit, i);
          read := read + [bit.value];
        }
      }
      AllRead(bitOrder, bytes, At(), read);
      return Some(result);
    }

    method ReadUint8() returns (r: Option<nat>)
      requires At().bit < 8
      modifies this`byteOffset, this`bitOffset
      ensures At().bit < 8 && Follows(GetByte(bitOrder, bytes, old(At())), r)
    {
      hide GetBit, GetBits, Prepend, Value, Pow;
      if bitOffset == 0 {
        if byteOffset >= |bytes| {
          return None;
        }
        byteOffset := byteOffset + 1;
        return Some(bytes[byteOffset - 1]);
      }
      var result := 0;
      ghost var start, read: seq<nat> := At(), [];
      BeforeReading(bitOrder, bytes, start, 8);
      for i := 0 to 8
        invariant At().bit < 8 && |read| == i && result == Value(Bit, read)
        invariant GetBits(bitOrder, bytes, start, 8) == Prepend(read, GetBits(bitOrder, bytes, At(), 8 - i))
      {
        BitStep(bitOrder, bytes, start, 8, read, At());
        var bit := ReadBit();
        if bit.None? {
          return None;
        }
        ValueAppend(Bit, read, bit.value);
        result := result + bit.value * Pow(Bit, i);
        read := read + [bit.value];
      }
      AllRead(bitOrder, bytes, At(), read);
      return Some(result);
    }

    method ReadUint16(endianness: Endian) returns (r: Option<int>)
      requires At().bit < 8
      modifies this`byteOffset, this`bitOffset
      ensures At().bit < 8
      ensures Follows(GetOp(bitOrder, bytes, old(At()), Unsigned(0, 2, endianness)), r)
    {
      hide GetBit, GetBits, GetByte, GetBytes, FromByteList, Prepend;
      ghost var start := At();
      BeforeReading(bitOrder, bytes, start, 2);
      ByteStep(bitOrder, bytes, start, 2, [], At());
      var b0 := ReadUint8();
      if b0.None? { return None; }
      ByteStep(bitOrder, bytes, start, 2, [] + [b0.value], At());
      var b1 := ReadUint8();
      if b1.None? { return None; }
      AllRead(bitOrder, bytes, At(), [] + [b0.value] + [b1.value]);
      ShortValue(b0.value, b1.value);
      if endianness == BigEndian {
        return Some(b0.value * 0x100 + b1.value);
      } else {
        return Some(b1.value * 0x100 + b0.value);
      }
    }

    method ReadUint32(endianness: Endian) returns (r: Option<int>)
      requires At().bit < 8
      modifies this`byteOffset, this`bitOffset
      ensures At().bit < 8
      ensures Follows(GetOp(bitOrder, bytes, old(At()), Unsigned(0, 4, endianness)), r)
    {
      hide GetBit, GetBits, GetByte, GetBytes, FromByteList, Prepend;
      ghost var start := At();
      BeforeReading(bitOrder, bytes, start, 4);
      ByteStep(bitOrder, bytes, start, 4, [], At());
      var b0 := ReadUint8();
      if b0.None? { return None; }
      ByteStep(bitOrder, bytes, start, 4, [] + [b0.value], At());
      var b1 := ReadUint8();
      if b1.None? { return None; }
      ByteStep(bitOrder, bytes, start, 4, [] + [b0.value] + [b1.value], At());
      var b2 := ReadUint8();
      if b2.None? { return None; }
      ByteStep(bitOrder, bytes, start, 4, [] + [b0.value] + [b1.value] + [b2.value], At());
      var b3 := ReadUint8();
      if b3.None? { return None; }
      AllRead(bitOrder, bytes, At(), [] + [b0.value] + [b1.value] + [b2.value] + [b3.value]);
      WordValue(b0.value, b1.value, b2.value, b3.value);
      if endianness == BigEndian {
        return Some(b0.value * 0x100_0000 + b1.value * 0x1_0000 + b2.value * 0x100 + b3.value);
      } else {
        return Some(b3.value * 0x100_0000 + b2.value * 0x1_0000 + b1.value * 0x100 + b0.value);
      }
    }

    method ReadUint64(endianness: Endian) returns (r: Option<int>)
      requires At().bit < 8
      modifies this`byteOffset, this`bitOffset
      ensures At().bit < 8
      ensures Follows(GetOp(bitOrder, bytes, old(At()), Unsigned(0, 8, endianness)), r)
    {
      hide GetBit, GetBits, GetByte, GetBytes, Prepend, Value, Reverse, Pow;
      var result := 0;
      ghost var start, read: seq<nat> := At(), [];
      BeforeReading(bitOrder, bytes, start, 8);
      if endianness == BigEndian {
        for i := 0 to 8
          invariant At().bit < 8 && |read| == i && result == Value(Byte, Reverse(read))
          invariant GetBytes(bitOrder, bytes, start, 8) == Prepend(read, GetBytes(bitOrder, bytes, At(), 8 - i))
        {
          ByteStep(bitOrder, bytes, start, 8, read, At());
          var byte := ReadUint8();
          if byte.None? { return None; }
          NextByte(read, byte.value);
          result := result * 0x100 + byte.value;
          read := read + [byte.value];
        }
      } else {
        for i := 0 to 8
          invariant At().bit < 8 && |read| == i && result == Value(Byte, read)
          invariant GetBytes(bitOrder, bytes, start, 8) == Prepend(read, GetBytes(bitOrder, bytes, At(), 8 - i))
        {
          ByteStep(bitOrder, bytes, start, 8, read, At());
          var byte := ReadUint8();
          if byte.None? { return None; }
          ValueAppend(Byte, read, byte.value);
          result := result + byte.value * Pow(Byte, i);
          read := read + [byte.value];
        }
      }
      AllRead(bitOrder, bytes, At(), read);
      return Some(result);
    }

    method ReadInt8() returns (r: Option<int>)
      requires At().bit < 8
      modifies this`byteOffset, this`bitOffset
      ensures At().bit < 8
      ensures forall end :: Follows(GetOp(bitOrder, bytes, old(At()), Signed(0, 1, end)), r)
    {
      hide GetBit, GetBits, GetByte, GetBytes, Prepend;
      ghost var start := At();
      BeforeReading(bitOrder, bytes, start, 1);
      ByteStep(bitOrder, bytes, start, 1, [], At());
      var unsigned := ReadUint8();
      if unsigned.None? { return None; }
      AllRead(bitOrder, bytes, At(), [] + [unsigned.value]);
      OneByteValue(unsigned.value);
      var u: int := unsigned.value;
      return Some(if u > 127 then u - 256 else u);
    }

    method ReadInt16(endianness: Endian) returns (r: Option<int>)
      requires At().bit < 8
      modifies this`byteOffset, this`bitOffset
      ensures At().bit < 8
      ensures Follows(GetOp(bitOrder, bytes, old(At()), Signed(0, 2, endianness)), r)
    {
      hide GetBytes, FromByteList, Pow;
      ByteWeights();
      var unsigned := ReadUint16(endianness);
      if unsigned.None? { return None; }
      return Some(if unsigned.value > 32767 then unsigned.value - 65536 else unsigned.value);
    }

    method ReadInt32(endianness: Endian) returns (r: Option<int>)
      requires At().bit < 8
      modifies this`byteOffset, this`bitOffset
      ensures At().bit < 8
      ensures Follows(GetOp(bitOrder, bytes, old(At()), Signed(0, 4, endianness)), r)
    {
      hide GetBytes, FromByteList, Pow;
      ByteWeights();
      var unsigned := ReadUint32(endianness);
      if unsigned.None? { return None; }
      return Some(if unsigned.value > 2147483647 then unsigned.value - 4294967296 else unsigned.value);
    }

    method ReadInt64(endianness: Endian) returns (r: Option<int>)
      requires At().bit < 8
      modifies this`byteOffset, this`bitOffset
      ensures At().bit < 8
      ensures Follows(GetOp(bitOrder, bytes, old(At()), Signed(0, 8, endianness)), r)
    {
      hide GetBytes, FromByteList, Pow;
      ByteWeights();
      var unsigned := ReadUint64(endianness);
      if unsigned.None? { return None; }
      return Some(if unsigned.value >= 0x8000_0000_0000_0000
                  then unsigned.value - 0x1_0000_0000_0000_0000 else unsigned.value);
    }
  }

  // ---------------------------------------------------------------- values of short byte lists

  lemma ValueCons(b: Base, d: nat, ds: seq<nat>)
    ensures Value(b, [d] + ds) == d + Radix(b) * Value(b, ds)
  {
    assert ([d] + ds)[1..] == ds;
  }

  lemma NextByte(read: seq<nat>, d: nat)
    ensures Value(Byte, Reverse(read + [d])) == Value(Byte, Reverse(read)) * 0x100 + d
  {
    hide Value, Reverse;
    ReverseAppend(read, d);
    ValueCons(Byte, d, Reverse(read));
  }

  lemma EmptyValue()
    ensures Value(Byte, []) == 0 && Value(Byte, Reverse([])) == 0
  {
  }

  lemma OneByteValue(a: nat)
    ensures Value(Byte, Reverse([] + [a])) == Value(Byte, [] + [a]) == a && Pow(Byte, 1) == 256
  {
    NextByte([], a);
    assert [] + [a] == [a] + [];
    ValueCons(Byte, a, []);
  }

  lemma ShortValue(a: nat, b: nat)
    ensures FromByteList([] + [a] + [b], BigEndian) == a * 0x100 + b
    ensures FromByteList([] + [a] + [b], LittleEndian) == b * 0x100 + a
  {
    hide Value, Reverse;
    EmptyValue();
    NextByte([], a);
    NextByte([] + [a], b);
    assert [] + [a] + [b] == [a] + ([b] + []);
    ValueCons(Byte, a, [b] + []);
    ValueCons(Byte, b, []);
  }

  lemma WordValue(a: nat, b: nat, c: nat, d: nat)
    ensures var bytes := [] + [a] + [b] + [c] + [d];
      && FromByteList(bytes, BigEndian) == a * 0x100_0000 + b * 0x1_0000 + c * 0x100 + d
      && FromByteList(bytes, LittleEndian) == d * 0x100_0000 + c * 0x1_0000 + b * 0x100 + a
  {
    hide Value, Reverse;
    EmptyValue();
    NextByte([], a);
    NextByte([] + [a], b);
    NextByte([] + [a] + [b], c);
    NextByte([] + [a] + [b] + [c], d);
    assert [] + [a] + [b] + [c] + [d] == [a] + ([b] + ([c] + ([d] + [])));
    ValueCons(Byte, a, [b] + ([c] + ([d] + [])));
    ValueCons(Byte, b, [c] + ([d] + []));
    ValueCons(Byte, c, [d] + []);
    ValueCons(Byte, d, []);
  }
}
