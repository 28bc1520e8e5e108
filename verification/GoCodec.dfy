/** The Go side: `EncodeTo` appends field after field to a writer, `Decode` moves a reader
    (pkg/protocol/messages.go). */
module GoCodec {
  import opened Codec
  import opened Octets
  import opened Positional
  import opened Wire
  import opened Wrappers

  method WriteField(w: Writer, k: Kind, v: Value) returns (ok: bool)
    requires Typed(k, v)
    modifies w
    ensures ok <==> InLimits(k, v)
    ensures ok ==> w.buf == old(w.buf) + FieldBytes(v, k)
  {
    hide Be, TextBytes, OptionalBytes, OptionalTextBytes, OptionalTimeBytes, BoolBytes, Pow;
    match k {
      case Uint(width) =>
        WriteUint(w, width, v.n);
      case Flag => w.WriteBool(v.b);
      case LateFlag => w.WriteBool(v.b);
      case Text(min, max) =>
        if !(min <= |v.s| <= max) {
          return false;
        }
        ok := w.WriteString(v.s);
        return;
      case OptText =>
        ok := w.WriteOptionalString(v.os);
        return;
      case OptUint => w.WriteOptionalUint64(v.o);
      case Signed64(_) => w.WriteInt64(v.i);
      case OptSigned64 => w.WriteOptionalTimestamp(v.oi);
      case Trailer =>
        if v.last.Some? {
          OneByte(v.last.value);
          w.WriteUint8(v.last.value);
        }
    }
    return true;
  }

  method WriteUint(w: Writer, width: Width, n: nat)
    requires n < Pow(Byte, Size(width))
    modifies w
    ensures w.buf == old(w.buf) + Be(n, Size(width))
  {
    hide Be, Pow;
    ByteWeights();
    match width {
      case One => w.WriteUint8(n);
      case Two => w.WriteUint16(n);
      case Four => w.WriteUint32(n);
      case Eight => w.WriteUint64(n);
    }
  }

  method WriteRecord(w: Writer, fs: seq<Field>, vs: seq<Value>) returns (ok: bool)
    requires TypedRecord(fs, vs)
    modifies w
    ensures ok <==> RecordInLimits(fs, vs)
    ensures ok ==> w.buf == old(w.buf) + RecordBytes(fs, vs)
  {
    hide FieldBytes, Typed, InLimits, On, RecordPrefix;
    ghost var start := w.buf;
    NothingWritten(start, fs, vs);
    for i := 0 to |fs|
      invariant w.buf == start + RecordPrefix(fs, vs, i)
      invariant forall j :: 0 <= j < i && On(fs, vs, j) ==> InLimits(fs[j].kind, vs[j])
    {
      PartWritten(start, fs, vs, i);
      if On(fs, vs, i) {
        ok := WriteField(w, fs[i].kind, vs[i]);
        if !ok {
          return;
        }
      }
    }
    return true;
  }

  /** `uint16(len(...))` wraps. */
  method WriteCount(w: Writer, width: Width, n: nat)
    modifies w
    ensures w.buf == old(w.buf) + Be(n, Size(width))
  {
    hide Be, Pow;
    Masked(n, Size(width));
    WriteUint(w, width, n % Pow(Byte, Size(width)));
  }

  lemma Masked(n: nat, size: nat)
    ensures Be(n % Pow(Byte, size), size) == Be(n, size)
  {
    hide Digits, Reverse, Pow;
    MaskedDigits(Byte, n, size);
  }

  method EncodeTo(w: Writer, f: Layout, m: Message) returns (ok: bool)
    requires TypedMessage(f, m)
    modifies w
    ensures ok <==> MessageInLimits(f, m)
    ensures ok ==> w.buf == old(w.buf) + MessageBytes(f, m)
  {
    hide TypedRecord, RecordInLimits, RecordBytes, RowsPrefix, Be;
    ok := WriteRecord(w, f.header, m.header);
    if !ok || f.items.None? {
      return;
    }
    var fs := f.items.value.fields;
    WriteCount(w, f.items.value.count, |m.items|);
    ghost var start := w.buf;
    RowsStart(start, fs, m.items);
    RowWidths(fs, m.items);
    for i := 0 to |m.items|
      invariant forall j :: 0 <= j < |m.items| ==> |m.items[j]| == |fs|
      invariant w.buf == start + RowsPrefix(fs, m.items, i)
      invariant forall j :: 0 <= j < i ==> RecordInLimits(fs, m.items[j])
    {
      RowWritten(start, fs, m.items, i);
      ok := WriteRecord(w, fs, m.items[i]);
      if !ok {
        return;
      }
    }
    return true;
  }

  method ReadField(r: Reader, k: Kind) returns (v: Option<Value>)
    modifies r`pos
    ensures r.Follows(GetField(Go, k, r.data, old(r.pos)), v)
  {
    hide GetNumber, GetText, GetInt64;
    match k {
      case Uint(width) =>
        var n :- r.ReadUint(Size(width));
        return Some(Num(n));
      case Flag =>
        var b :- r.ReadBool();
        return Some(Bool(b));
      case LateFlag =>
        ByteNumber(r.data, r.pos);
        if r.pos >= |r.data| {
          return Some(Bool(false));
        }
        var b := r.ReadBool();
        return if b.None? then None else Some(Bool(b.value));
      case Text(min, max) =>
        var s :- r.ReadString();
        return if min <= |s| <= max then Some(Str(s)) else None;
      case OptText =>
        var s :- r.ReadOptionalString();
        return Some(OptStr(s));
      case OptUint =>
        var o :- r.ReadOptionalUint64();
        return Some(Opt(o));
      case Signed64(_) =>
        var i :- r.ReadInt64();
        return Some(Int(i));
      case OptSigned64 =>
        var i :- r.ReadOptionalTimestamp();
        return Some(OptInt(i));
      case Trailer =>
        ByteNumber(r.data, r.pos);
        if r.pos >= |r.data| {
          return Some(Last(None));
        }
        var b := r.ReadUint8();
        return if b.None? then None else Some(Last(b));
    }
  }

  method ReadRecord(r: Reader, fs: seq<Field>) returns (vs: Option<seq<Value>>)
    modifies r`pos
    ensures r.Follows(GetRecord(Go, fs, r.data, old(r.pos), []), vs)
  {
    hide GetField, On;
    var got: seq<Value> := [];
    ghost var start := r.pos;
    for i := 0 to |fs|
      invariant |got| == i
      invariant GetRecord(Go, fs, r.data, start, []) == GetRecord(Go, fs, r.data, r.pos, got)
    {
      if On(fs, got, i) {
        var v :- ReadField(r, fs[i].kind);
        got := got + [v];
      } else {
        got := got + [Zero(fs[i].kind)];
      }
    }
    return Some(got);
  }

  method Decode(f: Layout, payload: seq<Octet>) returns (m: Option<Message>)
    ensures m == GetMessage(Go, f, payload)
  {
    hide GetRecord, GetNumber;
    var r := new Reader(payload);
    var header :- ReadRecord(r, f.header);
    if f.items.None? {
      return Some(Message(header, []));
    }
    var fs := f.items.value.fields;
    var count :- r.ReadUint(Size(f.items.value.count));
    var rows: seq<seq<Value>> := [];
    ghost var start := r.pos;
    for i := 0 to count
      invariant r.data == payload && |rows| == i
      invariant GetRows(Go, fs, payload, start, count, []) == GetRows(Go, fs, payload, r.pos, count, rows)
    {
      var row :- ReadRecord(r, fs);
      rows := rows + [row];
    }
    return Some(Message(header, rows));
  }
}
