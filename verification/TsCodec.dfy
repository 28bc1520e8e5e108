/** The TypeScript side: the generated encoders and decoders extend the bit stream classes and
    use only their whole-byte operations (web-client/src/SuperChatCodec.ts). */
module TsCodec {
  import opened BitStream
  import opened BitStreamClasses
  import opened Codec
  import opened Layouts
  import opened Framing
  import opened Octets
  import opened Positional
  import opened Records
  import opened Wire
  import opened Wrappers

  // ---------------------------------------------------------------- the bit stream at byte boundaries

  lemma {:induction false} AlignedPut(o: Order, e: Enc, vs: seq<nat>)
    requires e.off == 0 && AllBelow(vs, 256)
    ensures PutBytes(o, e, vs) == Enc(e.bytes + vs, e.cur, 0)
    decreases |vs|
  {
    if vs == [] {
      assert e.bytes + [] == e.bytes;
    } else {
      AlignedPut(o, PutByte(o, e, vs[0]), vs[1..]);
      assert e.bytes + [vs[0]] + vs[1..] == e.bytes + vs;
    }
  }

  /** Whole-byte writes append the big-endian bytes, of negative numbers too. */
  lemma AlignedWrite(o: Order, e: Enc, v: int, w: nat)
    requires e.off == 0
    ensures PutOp(o, e, Unsigned(v, w, BigEndian)) == Enc(e.bytes + Be(v, w), e.cur, 0)
    ensures PutOp(o, e, Signed(v, w, BigEndian)) == Enc(e.bytes + Be(v, w), e.cur, 0)
  {
    hide ByteList, PutBytes, Pow;
    ListsBelow(o, v, w, BigEndian);
    AlignedPut(o, e, ByteList(v, w, BigEndian));
    var u := ToUnsigned(v, w);
    ListsBelow(o, u, w, BigEndian);
    AlignedPut(o, e, ByteList(u, w, BigEndian));
    SameLowBytes(v, u, w);
  }

  lemma SameLowBytes(v: int, u: int, w: nat)
    requires u == v || u == Pow(Byte, w) + v
    ensures ByteList(u, w, BigEndian) == ByteList(v, w, BigEndian)
  {
    hide Digits, Pow, Reverse;
    AddModulus(v, Pow(Byte, w));
    MaskedDigits(Byte, v, w);
    MaskedDigits(Byte, u, w);
  }

  lemma {:induction false} AlignedGet(o: Order, data: seq<Octet>, pos: nat, n: nat)
    ensures pos + n <= |data| ==> GetBytes(o, data, Cursor(pos, 0), n) == Some((data[pos..pos + n], Cursor(pos + n, 0)))
    ensures n > 0 && pos + n > |data| ==> GetBytes(o, data, Cursor(pos, 0), n) == None
    decreases n
  {
    if n == 0 {
      assert pos <= |data| ==> data[pos..pos] == [];
    } else if pos < |data| {
      AlignedGet(o, data, pos + 1, n - 1);
      if pos + n <= |data| {
        assert [data[pos]] + data[pos + 1..pos + n] == data[pos..pos + n];
      } else {
        assert n - 1 > 0;
      }
    }
  }

  /** A value and the byte position after it, as the decoder's value and cursor. */
  function AtByte(r: Option<(int, nat)>): Option<(int, Cursor)> {
    match r
    case None => None
    case Some((v, next)) => Some((v, Cursor(next, 0)))
  }

  lemma AlignedRead(o: Order, data: seq<Octet>, pos: nat, w: nat)
    requires w > 0
    ensures GetOp(o, data, Cursor(pos, 0), Unsigned(0, w, BigEndian)) == AtByte(GetNumber(data, pos, w))
    ensures w == 8 ==> GetOp(o, data, Cursor(pos, 0), Signed(0, w, BigEndian)) == AtByte(GetInt64(data, pos))
  {
    hide FromByteList, GetBytes, Pow;
    ByteWeights();
    AlignedGet(o, data, pos, w);
  }

  // ---------------------------------------------------------------- encoding

  predicate Shared(f: Field) {
    f.when.None? && Common(f.kind)
  }

  predicate SharedFields(fs: seq<Field>) {
    forall i :: 0 <= i < |fs| ==> Shared(fs[i])
  }

  predicate SharedLayout(f: Layout) {
    SharedFields(f.header) && (f.items.Some? ==> f.items.value.count == Two && SharedFields(f.items.value.fields))
  }

  /** `tv` is the TypeScript form of the field `v`. */
  method WriteField(e: BitStreamEncoder, k: Kind, tv: Value, ghost v: Value)
    requires e.bitOffset == 0 && Shared(Field(k, None)) && Typed(k, v) && tv == Native(TypeScript, v)
    modifies e
    ensures e.bitOffset == 0 && e.currentByte == old(e.currentByte)
    ensures e.bytes == old(e.bytes) + FieldBytes(v, k)
  {
    hide PutOp, PutByte, Be, BoolBytes, TextBytes, OptionalBytes, OptionalTimeBytes, Pow;
    match k {
      case Uint(width) => WriteUint(e, width, tv.n);
      case Flag =>
        FlagBytes(v.b);
        WriteUint(e, One, tv.n);
      case Text(_, _) => WriteText(e, tv.s);
      case OptUint =>
        OptBytes(v.o);
        WriteUint(e, One, if tv.o.Some? then 1 else 0);
        if tv.o.Some? {
          WriteUint(e, Eight, tv.o.value);
        }
      case Signed64(_) =>
        AlignedWrite(e.bitOrder, e.State(), tv.i, 8);
        e.WriteInt64(tv.i, BigEndian);
      case OptSigned64 =>
        OptTimeBytes(v.oi);
        WriteUint(e, One, if tv.oi.Some? then 1 else 0);
        if tv.oi.Some? {
          AlignedWrite(e.bitOrder, e.State(), tv.oi.value, 8);
          e.WriteInt64(tv.oi.value, BigEndian);
        }
    }
  }

  lemma FlagBytes(b: bool)
    ensures BoolBytes(b) == Be(if b then 1 else 0, 1)
  {
    OneByte(if b then 1 else 0);
  }

  lemma OptBytes(o: Option<nat>)
    ensures OptionalBytes(o) == if o.Some? then Be(1, 1) + Be(o.value, 8) else Be(0, 1)
  {
    OneByte(0);
    OneByte(1);
  }

  lemma OptTimeBytes(t: Option<int>)
    ensures OptionalTimeBytes(t) == if t.Some? then Be(1, 1) + Be(t.value, 8) else Be(0, 1)
  {
    OneByte(0);
    OneByte(1);
  }

  method WriteUint(e: BitStreamEncoder, width: Width, n: nat)
    requires e.bitOffset == 0
    modifies e
    ensures e.bitOffset == 0 && e.currentByte == old(e.currentByte)
    ensures e.bytes == old(e.bytes) + Be(n, Size(width))
  {
    hide PutOp, Be, Pow;
    AlignedWrite(e.bitOrder, e.State(), n, Size(width));
    match width {
      case One =>
        LowByte(n);
        e.WriteUint8(n);
      case Two => e.WriteUint16(n, BigEndian);
      case Four => e.WriteUint32(n, BigEndian);
      case Eight => e.WriteUint64(n, BigEndian);
    }
  }

  lemma LowByte(n: nat)
    ensures Be(n, 1) == [n % 256]
  {
    assert Digits(Byte, n, 1) == [n % 256];
    assert Reverse([n % 256]) == Reverse([n % 256][1..]) + [n % 256] == [n % 256];
  }

  /** The length, then one byte after another. */
  method WriteText(e: BitStreamEncoder, s: seq<Octet>)
    requires e.bitOffset == 0
    modifies e
    ensures e.bitOffset == 0 && e.currentByte == old(e.currentByte)
    ensures e.bytes == old(e.bytes) + TextBytes(s)
  {
    hide PutOp, Be, Pow;
    WriteUint(e, Two, |s|);
    ghost var head := e.bytes;
    for i := 0 to |s|
      invariant e.bitOffset == 0 && e.currentByte == old(e.currentByte)
      invariant e.bytes == head + s[..i]
    {
      e.WriteUint8(s[i]);
      assert s[..i + 1] == s[..i] + [s[i]];
    }
    assert s[..|s|] == s;
  }

  method WriteRecord(e: BitStreamEncoder, fs: seq<Field>, tvs: seq<Value>, ghost vs: seq<Value>)
    requires SharedFields(fs) && TypedRecord(fs, vs) && tvs == NativeRecord(TypeScript, vs)
    requires e.bitOffset == 0
    modifies e
    ensures e.bitOffset == 0 && e.currentByte == old(e.currentByte)
    ensures e.bytes == old(e.bytes) + RecordBytes(fs, vs)
  {
    hide FieldBytes, Typed, RecordPrefix, Native;
    ghost var start := e.bytes;
    NothingWritten(start, fs, vs);
    for i := 0 to |fs|
      invariant e.bitOffset == 0 && e.currentByte == old(e.currentByte)
      invariant e.bytes == start + RecordPrefix(fs, vs, i)
    {
      PartWritten(start, fs, vs, i);
      WriteField(e, fs[i].kind, tvs[i], vs[i]);
    }
  }

  method WriteItems(e: BitStreamEncoder, fs: seq<Field>, titems: seq<seq<Value>>, ghost items: seq<seq<Value>>)
    requires SharedFields(fs) && TypedRows(fs, items) && titems == NativeRows(TypeScript, items) && e.bitOffset == 0
    modifies e
    ensures e.bitOffset == 0 && e.bytes == old(e.bytes) + (Be(|items|, 2) + RowsPrefix(fs, items, |items|))
  {
    hide SharedFields, TypedRecord, RecordBytes, RowsPrefix, NativeRecord, Be;
    WriteUint(e, Two, |titems|);
    ghost var head := e.bytes;
    RowsStart(head, fs, items);
    for i := 0 to |titems|
      invariant e.bitOffset == 0
      invariant e.bytes == head + RowsPrefix(fs, items, i)
    {
      RowWritten(head, fs, items, i);
      WriteRecord(e, fs, titems[i], items[i]);
    }
  }

  /** `encode` of a message value; its count field is the length of its list.  A text that is too
      long for its length field is written all the same. */
  method Encode(f: Layout, tm: Message, ghost m: Message) returns (bytes: seq<Octet>)
    requires SharedLayout(f) && TypedMessage(f, m) && tm == NativeMessage(TypeScript, m)
    ensures bytes == MessageBytes(f, m)
  {
    hide SharedFields, TypedRecord, TypedRows, RecordBytes, RowsPrefix, NativeRecord, NativeRows, Be, TypedMessage;
    MessageParts(f, m);
    var e := new BitStreamEncoder(MsbFirst);
    WriteRecord(e, f.header, tm.header, m.header);
    ghost var header := RecordBytes(f.header, m.header);
    assert e.bytes == header;
    if f.items.Some? {
      WriteItems(e, f.items.value.fields, tm.items, m.items);
    }
    bytes := e.FinishStream();
  }

  lemma MessageParts(f: Layout, m: Message)
    requires TypedMessage(f, m)
    ensures TypedRecord(f.header, m.header) && |f.header| == |m.header|
    ensures f.items.None? ==> MessageBytes(f, m) == RecordBytes(f.header, m.header)
    ensures f.items.Some? && f.items.value.count == Two ==>
      && TypedRows(f.items.value.fields, m.items)
      && MessageBytes(f, m) == RecordBytes(f.header, m.header)
         + (Be(|m.items|, 2) + RowsPrefix(f.items.value.fields, m.items, |m.items|))
  {
    hide RecordPrefix, RowsPrefix, Be, Typed;
    var head := RecordBytes(f.header, m.header);
    assert head + [] == head;
  }

  /** The TypeScript form of a record stands for the same bytes. */
  lemma {:induction false} NativePrefix(fs: seq<Field>, vs: seq<Value>, n: nat)
    requires TypedRecord(fs, vs) && n <= |fs|
    ensures RecordPrefix(fs, NativeRecord(TypeScript, vs), n) == RecordPrefix(fs, vs, n)
    decreases n
  {
    hide FieldBytes, Typed, NativeRecord;
    if n > 0 {
      NativePrefix(fs, vs, n - 1);
      NativeAt(TypeScript, vs, n - 1);
      NativeField(fs[n - 1].kind, vs[n - 1]);
      if fs[n - 1].when.Some? && fs[n - 1].when.value < |vs| {
        NativeAt(TypeScript, vs, fs[n - 1].when.value);
      }
    }
  }

  lemma NativeField(k: Kind, v: Value)
    requires Typed(k, v)
    ensures FieldBytes(Native(TypeScript, v), k) == FieldBytes(v, k)
  {
    hide Be;
    if v.Bool? {
      FlagBytes(v.b);
    }
  }

  lemma NativeBytes(fs: seq<Field>, vs: seq<Value>)
    requires TypedRecord(fs, vs)
    ensures |vs| == |fs| && RecordBytes(fs, NativeRecord(TypeScript, vs)) == RecordBytes(fs, vs)
  {
    hide Typed, RecordPrefix, NativeRecord;
    NativePrefix(fs, vs, |fs|);
  }

  // ---------------------------------------------------------------- decoding

  /** The method's result and the decoder's cursor are those of `spec`, at a byte boundary. */
  ghost predicate Reached<T>(d: BitStreamDecoder, spec: Option<(T, nat)>, r: Option<T>)
    reads d
  {
    match spec
    case None => r == None
    case Some((v, next)) => r == Some(v) && d.byteOffset == next && d.bitOffset == 0
  }

  lemma AlignedByte(o: Order, data: seq<Octet>, pos: nat)
    ensures GetByte(o, data, Cursor(pos, 0)) ==
            if pos < |data| then Some((data[pos], Cursor(pos + 1, 0))) else None
    ensures GetNumber(data, pos, 1) == if pos < |data| then Some((data[pos], pos + 1)) else None
  {
    if pos < |data| {
      assert data[pos..pos + 1] == [data[pos]];
      assert Reverse([data[pos]]) == Reverse([data[pos]][1..]) + [data[pos]] == [data[pos]];
      assert Positional.Value(Byte, [data[pos]]) == data[pos] + 256 * Positional.Value(Byte, [data[pos]][1..]);
    }
  }

  method ReadUint(d: BitStreamDecoder, width: Width) returns (r: Option<nat>)
    requires d.bitOffset == 0
    modifies d`byteOffset, d`bitOffset
    ensures d.bitOffset < 8 && Reached(d, GetNumber(d.bytes, old(d.byteOffset), Size(width)), r)
  {
    hide GetByte, GetOp, GetNumber;
    ghost var pos := d.byteOffset;
    AlignedRead(d.bitOrder, d.bytes, pos, Size(width));
    var v: Option<int>;
    match width {
      case One =>
        AlignedByte(d.bitOrder, d.bytes, pos);
        r := d.ReadUint8();
        return;
      case Two => v := d.ReadUint16(BigEndian);
      case Four => v := d.ReadUint32(BigEndian);
      case Eight => v := d.ReadUint64(BigEndian);
    }
    return if v.None? then None else Some(v.value);
  }

  method ReadTime(d: BitStreamDecoder) returns (r: Option<int>)
    requires d.bitOffset == 0
    modifies d`byteOffset, d`bitOffset
    ensures d.bitOffset < 8 && Reached(d, GetInt64(d.bytes, old(d.byteOffset)), r)
  {
    hide GetOp, GetInt64;
    AlignedRead(d.bitOrder, d.bytes, d.byteOffset, 8);
    r := d.ReadInt64(BigEndian);
  }

  method ReadText(d: BitStreamDecoder) returns (r: Option<seq<Octet>>)
    requires d.bitOffset == 0
    modifies d`byteOffset, d`bitOffset
    ensures d.bitOffset < 8 && Reached(d, GetText(d.bytes, old(d.byteOffset)), r)
  {
    hide GetByte, GetNumber;
    var length := ReadUint(d, Two);
    if length.None? {
      return None;
    }
    var text: seq<Octet> := [];
    ghost var start := d.byteOffset;
    for i := 0 to length.value
      invariant d.bitOffset == 0 && d.byteOffset == start + i
      invariant i > 0 ==> start + i <= |d.bytes|
      invariant |text| == i && forall j :: 0 <= j < i ==> text[j] == d.bytes[start + j]
    {
      AlignedByte(d.bitOrder, d.bytes, d.byteOffset);
      var b := d.ReadUint8();
      if b.None? {
        return None;
      }
      text := text + [b.value];
    }
    NumberBound(d.bytes, old(d.byteOffset), 2);
    assert text == d.bytes[start..start + length.value];
    return Some(text);
  }

  lemma NumberBound(data: seq<Octet>, pos: nat, n: nat)
    ensures GetNumber(data, pos, n).Some? ==> GetNumber(data, pos, n).value.1 <= |data|
  {
  }

  method ReadField(d: BitStreamDecoder, k: Kind) returns (v: Option<Value>)
    requires d.bitOffset == 0 && Shared(Field(k, None))
    modifies d`byteOffset, d`bitOffset
    ensures d.bitOffset < 8 && Reached(d, GetField(TypeScript, k, d.bytes, old(d.byteOffset)), v)
  {
    hide GetNumber, GetText, GetInt64;
    match k {
      case Uint(width) =>
        var n :- ReadUint(d, width);
        return Some(Num(n));
      case Flag =>
        var n :- ReadUint(d, One);
        return Some(Num(n));
      case Text(_, _) =>
        var s :- ReadText(d);
        return Some(Str(s));
      case OptUint =>
        var present :- ReadUint(d, One);
        if present == 1 {
          var n :- ReadUint(d, Eight);
          return Some(Opt(Some(n)));
        }
        return Some(Opt(None));
      case Signed64(_) =>
        var t :- ReadTime(d);
        return Some(Int(t));
      case OptSigned64 =>
        var present :- ReadUint(d, One);
        if present == 1 {
          var t :- ReadTime(d);
          return Some(OptInt(Some(t)));
        }
        return Some(OptInt(None));
    }
  }

  method ReadRecord(d: BitStreamDecoder, fs: seq<Field>) returns (vs: Option<seq<Value>>)
    requires d.bitOffset == 0 && SharedFields(fs)
    modifies d`byteOffset, d`bitOffset
    ensures d.bitOffset < 8 && Reached(d, GetRecord(TypeScript, fs, d.bytes, old(d.byteOffset), []), vs)
  {
    hide GetField;
    var got: seq<Value> := [];
    ghost var start := d.byteOffset;
    for i := 0 to |fs|
      invariant |got| == i && d.bitOffset == 0
      invariant GetRecord(TypeScript, fs, d.bytes, start, []) == GetRecord(TypeScript, fs, d.bytes, d.byteOffset, got)
    {
      var v :- ReadField(d, fs[i].kind);
      got := got + [v];
    }
    return Some(got);
  }

  /** `decode` of a payload; an end of stream inside it is an error. */
  method Decode(f: Layout, payload: seq<Octet>) returns (m: Option<Message>)
    requires SharedLayout(f)
    ensures m == GetMessage(TypeScript, f, payload)
  {
    hide GetRecord, GetNumber, SharedFields;
    var d := new BitStreamDecoder(payload, MsbFirst);
    var header :- ReadRecord(d, f.header);
    if f.items.None? {
      return Some(Message(header, []));
    }
    var fs := f.items.value.fields;
    var count :- ReadUint(d, Two);
    var rows: seq<seq<Value>> := [];
    ghost var start := d.byteOffset;
    for i := 0 to count
      invariant d.bytes == payload && |rows| == i && d.bitOffset == 0
      invariant GetRows(TypeScript, fs, payload, start, count, []) ==
                GetRows(TypeScript, fs, payload, d.byteOffset, count, rows)
    {
      var row :- ReadRecord(d, fs);
      rows := rows + [row];
    }
    return Some(Message(header, rows));
  }

  // ---------------------------------------------------------------- both sides

  lemma SharedShape(s: Shape)
    requires CommonShape(s)
    ensures SharedLayout(Compile(s))
  {
  }

  lemma WebClientLayouts(t: MessageType)
    requires t.Web?
    ensures SharedLayout(LayoutOf(t))
  {
    hide WebShape, Compile, CommonShape;
    WebCommon(t.w);
    SharedShape(WebShape(t.w));
  }

  /** A message of the web client, encoded by either side (`GoCodec.EncodeTo` and `Encode` give the
      same bytes), is decoded by both to the same fields. */
  lemma BothSidesAgree(t: MessageType, m: Message)
    requires t.Web?
    requires TypedMessage(LayoutOf(t), m) && MessageInLimits(LayoutOf(t), m) && |m.items| <= 65535
    ensures GetMessage(Go, LayoutOf(t), MessageBytes(LayoutOf(t), m)) == Some(m)
    ensures GetMessage(TypeScript, LayoutOf(t), MessageBytes(LayoutOf(t), m)) == Some(NativeMessage(TypeScript, m))
  {
    hide *;
    WebClientLayouts(t);
    AllGood(t);
    SharedAllThere(LayoutOf(t), m);
    var bytes := MessageBytes(LayoutOf(t), m);
    ReadsBackIff(Go, LayoutOf(t), m, []);
    ReadsBackIff(TypeScript, LayoutOf(t), m, []);
    assert bytes + [] == bytes;
    GoIsNative(m);
  }

  lemma SharedAllThere(f: Layout, m: Message)
    requires SharedLayout(f) && TypedMessage(f, m) && |m.items| <= 65535
    ensures AbsentZero(f, m) && CountFits(f, m)
  {
    hide Pow, Typed;
    ByteWeights();
  }

  function HeaderOf(f: Frame): Message {
    Message([Num(3 + |f.payload|), Num(f.version), Num(f.kind), Num(f.flags)], [])
  }

  lemma HeaderTyped(f: Frame)
    requires 3 + |f.payload| <= MAX_FRAME_SIZE
    ensures TypedMessage(LayoutOf(Web(FrameHeader)), HeaderOf(f))
            && MessageInLimits(LayoutOf(Web(FrameHeader)), HeaderOf(f))
    ensures NativeMessage(TypeScript, HeaderOf(f)) == HeaderOf(f)
  {
    hide Pow;
    ByteWeights();
    assert NativeRecord(TypeScript, HeaderOf(f).header) == HeaderOf(f).header;
  }

  /** The client reads the header of any frame the server sends, and the payload is the rest. */
  lemma FrameHeaderRead(f: Frame)
    requires 3 + |f.payload| <= MAX_FRAME_SIZE
    ensures GetMessage(TypeScript, LayoutOf(Web(FrameHeader)), FrameBytes(f)) == Some(HeaderOf(f))
    ensures |FrameBytes(f)| >= 7 && FrameBytes(f)[7..] == f.payload
  {
    hide LayoutOf, TypedMessage, MessageInLimits, GetMessage, MessageBytes, NativeMessage, Be;
    HeaderTyped(f);
    HeaderBytes(f);
    AllGood(Web(FrameHeader));
    WebClientLayouts(Web(FrameHeader));
    SharedAllThere(LayoutOf(Web(FrameHeader)), HeaderOf(f));
    ReadsBackIff(TypeScript, LayoutOf(Web(FrameHeader)), HeaderOf(f), f.payload);
  }

  lemma HeaderBytes(f: Frame)
    requires 3 + |f.payload| <= MAX_FRAME_SIZE
    ensures TypedMessage(LayoutOf(Web(FrameHeader)), HeaderOf(f))
    ensures FrameBytes(f) == MessageBytes(LayoutOf(Web(FrameHeader)), HeaderOf(f)) + f.payload
  {
    hide *;
    HeaderTyped(f);
    HeaderLayout();
    HeaderParts(f);
    FlatBytes(Web(FrameHeader), HEADER_KINDS, HeaderOf(f).header);
  }

  lemma HeaderParts(f: Frame)
    requires 3 + |f.payload| <= MAX_FRAME_SIZE
    ensures HeaderOf(f) == Flatly(HeaderOf(f).header)
            && |HeaderOf(f).header| == |HEADER_KINDS| == |Always(HEADER_KINDS)|
    ensures FrameBytes(f) == RecordBytes(Always(HEADER_KINDS), HeaderOf(f).header) + f.payload
  {
    hide Be, RecordPrefix;
    var ks, vs := HEADER_KINDS, HeaderOf(f).header;
    OneByte(f.version);
    OneByte(f.kind);
    OneByte(f.flags);
    Part([], ks, vs, 0);
    Part([], ks, vs, 1);
    Part([], ks, vs, 2);
    Part([], ks, vs, 3);
    FourParts(RecordBytes(Always(ks), vs), Be(3 + |f.payload|, 4), f.version, f.kind, f.flags, f.payload);
  }

  lemma FourParts(all: seq<Octet>, length: seq<Octet>, a: Octet, b: Octet, c: Octet, payload: seq<Octet>)
    ensures [] + all == [] + length + [a] + [b] + [c] ==> length + ([a, b, c] + payload) == all + payload
  {
    assert [] + all == all;
    assert [] + length + [a] + [b] + [c] == length + [a, b, c];
  }

  lemma HeaderLayout()
    ensures LayoutOf(Web(FrameHeader)) == Layout(Always(HEADER_KINDS), None)
  {
  }
}
