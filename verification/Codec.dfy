/** Message payloads, as the Go server and the TypeScript client write and read them
    (pkg/protocol/messages.go, web-client/src/SuperChatCodec.ts).  A layout lists the fields of a
    message in order; some are there only when an earlier flag is set. */
module Codec {
  import opened Octets
  import opened Positional
  import opened Wire
  import opened Wrappers

  datatype Width = One | Two | Four | Eight

  function Size(w: Width): (n: nat)
    ensures 1 <= n <= 8
  {
    match w case One => 1 case Two => 2 case Four => 4 case Eight => 8
  }

  /** What a field holds.  A text has the length limits of Go's validation, if it has any; a
      signed integer or time comes with its zero value; a late flag may be missing at the end of
      a payload; a trailer is a last byte that is there or not. */
  datatype Kind =
    | Uint(w: Width)
    | Flag
    | LateFlag
    | Text(min: nat, max: nat)
    | OptText
    | OptUint
    | Signed64(zero: int)
    | OptSigned64
    | Trailer

  datatype Value =
    | Num(n: nat)
    | Bool(b: bool)
    | Str(s: seq<Octet>)
    | OptStr(os: Option<seq<Octet>>)
    | Opt(o: Option<nat>)
    | Int(i: int)
    | OptInt(oi: Option<int>)
    | Last(last: Option<Octet>)

  datatype Language = Go | TypeScript

  /** The type of a field in Go. */
  ghost predicate Typed(k: Kind, v: Value) {
    match k
    case Uint(w) => v.Num? && v.n < Pow(Byte, Size(w))
    case Flag => v.Bool?
    case LateFlag => v.Bool?
    case Text(_, _) => v.Str?
    case OptText => v.OptStr?
    case OptUint => v.Opt? && (v.o.Some? ==> Uint64(v.o.value))
    case Signed64(_) => v.Int? && Int64(v.i)
    case OptSigned64 => v.OptInt? && (v.oi.Some? ==> Int64(v.oi.value))
    case Trailer => v.Last?
  }

  /** The value of a field that is not there. */
  function Zero(k: Kind): Value {
    match k
    case Uint(_) => Num(0)
    case Flag => Bool(false)
    case LateFlag => Bool(false)
    case Text(_, _) => Str([])
    case OptText => OptStr(None)
    case OptUint => Opt(None)
    case Signed64(zero) => Int(zero)
    case OptSigned64 => OptInt(None)
    case Trailer => Last(None)
  }

  predicate InLimits(k: Kind, v: Value) {
    && (k.Text? && v.Str? ==> k.min <= |v.s| <= k.max && |v.s| <= MAX_STRING)
    && (v.OptStr? && v.os.Some? ==> |v.os.value| <= MAX_STRING)
  }

  /** The same field on either side: TypeScript keeps a flag as the number 0 or 1. */
  function Native(l: Language, v: Value): Value {
    if l == TypeScript && v.Bool? then Num(if v.b then 1 else 0) else v
  }

  // ---------------------------------------------------------------- one field

  function FieldBytes(v: Value, k: Kind): seq<Octet> {
    match v
    case Num(n) => Be(n, if k.Uint? then Size(k.w) else 1)
    case Bool(b) => BoolBytes(b)
    case Str(s) => TextBytes(s)
    case OptStr(s) => OptionalTextBytes(s)
    case Opt(o) => OptionalBytes(o)
    case Int(i) => Be(i, 8)
    case OptInt(i) => OptionalTimeBytes(i)
    case Last(b) => if b.None? then [] else [b.value]
  }

  /** TypeScript takes only the byte 1 for "present"; Go any but 0. */
  predicate Present(l: Language, n: nat) {
    if l == Go then n != 0 else n == 1
  }

  function FlagOf(l: Language, n: nat): Value {
    if l == Go then Bool(n != 0) else Num(n)
  }

  function GetField(l: Language, k: Kind, data: seq<Octet>, pos: nat): Option<(Value, nat)> {
    match k
    case Uint(w) =>
      var r := GetNumber(data, pos, Size(w));
      if r.None? then None else Some((Num(r.value.0), r.value.1))
    case Flag =>
      var r := GetNumber(data, pos, 1);
      if r.None? then None else Some((FlagOf(l, r.value.0), r.value.1))
    case LateFlag =>
      var r := GetNumber(data, pos, 1);
      if r.None? then Some((Native(l, Bool(false)), pos)) else Some((FlagOf(l, r.value.0), r.value.1))
    case Text(min, max) =>
      var r := GetText(data, pos);
      if r.None? || (l == Go && !(min <= |r.value.0| <= max)) then None else Some((Str(r.value.0), r.value.1))
    case OptText =>
      var p := GetNumber(data, pos, 1);
      if p.None? then None
      else if !Present(l, p.value.0) then Some((OptStr(None), p.value.1))
      else
        var r := GetText(data, p.value.1);
        if r.None? then None else Some((OptStr(Some(r.value.0)), r.value.1))
    case OptUint =>
      var p := GetNumber(data, pos, 1);
      if p.None? then None
      else if !Present(l, p.value.0) then Some((Opt(None), p.value.1))
      else
        var r := GetNumber(data, p.value.1, 8);
        if r.None? then None else Some((Opt(Some(r.value.0)), r.value.1))
    case Signed64(_) =>
      var r := GetInt64(data, pos);
      if r.None? then None else Some((Int(r.value.0), r.value.1))
    case OptSigned64 =>
      var p := GetNumber(data, pos, 1);
      if p.None? then None
      else if !Present(l, p.value.0) then Some((OptInt(None), p.value.1))
      else
        var r := GetInt64(data, p.value.1);
        if r.None? then None else Some((OptInt(Some(r.value.0)), r.value.1))
    case Trailer =>
      Some(if pos < |data| then (Last(Some(data[pos])), pos + 1) else (Last(None), pos))
  }

  lemma BoolByteBack(data: seq<Octet>, pos: nat, b: bool)
    requires Stands(data, pos, BoolBytes(b))
    ensures GetNumber(data, pos, 1) == Some((if b then 1 else 0, pos + 1)) && |BoolBytes(b)| == 1
  {
    hide GetNumber, Be, Pow;
    ByteWeights();
    OneByte(if b then 1 else 0);
    NumberBack(data, pos, if b then 1 else 0, 1);
  }

  lemma NumFieldBack(l: Language, w: Width, data: seq<Octet>, pos: nat, n: nat)
    requires n < Pow(Byte, Size(w)) && Stands(data, pos, Be(n, Size(w)))
    ensures GetField(l, Uint(w), data, pos) == Some((Num(n), pos + Size(w)))
  {
    hide GetNumber, Be, Pow, Size;
    NumberBack(data, pos, n, Size(w));
  }

  lemma OptTextFieldBack(l: Language, data: seq<Octet>, pos: nat, s: Option<seq<Octet>>)
    requires (s.Some? ==> |s.value| <= MAX_STRING) && Stands(data, pos, OptionalTextBytes(s))
    ensures GetField(l, OptText, data, pos) == Some((OptStr(s), pos + |OptionalTextBytes(s)|))
  {
    hide GetNumber, GetText, TextBytes;
    if s.None? {
      BoolByteBack(data, pos, false);
    } else {
      StandsSplit(data, pos, [1], TextBytes(s.value));
      BoolByteBack(data, pos, true);
      TextBack(data, pos + 1, s.value);
    }
  }

  lemma OptFieldBack(l: Language, data: seq<Octet>, pos: nat, o: Option<nat>)
    requires (o.Some? ==> Uint64(o.value)) && Stands(data, pos, OptionalBytes(o))
    ensures GetField(l, OptUint, data, pos) == Some((Opt(o), pos + |OptionalBytes(o)|))
  {
    hide GetNumber, Be, Pow;
    ByteWeights();
    if o.None? {
      BoolByteBack(data, pos, false);
    } else {
      StandsSplit(data, pos, [1], Be(o.value, 8));
      BoolByteBack(data, pos, true);
      NumberBack(data, pos + 1, o.value, 8);
    }
  }

  lemma OptSignedFieldBack(l: Language, data: seq<Octet>, pos: nat, t: Option<int>)
    requires (t.Some? ==> Int64(t.value)) && Stands(data, pos, OptionalTimeBytes(t))
    ensures GetField(l, OptSigned64, data, pos) == Some((OptInt(t), pos + |OptionalTimeBytes(t)|))
  {
    hide GetNumber, GetInt64, Be, Pow;
    if t.None? {
      BoolByteBack(data, pos, false);
    } else {
      StandsSplit(data, pos, [1], Be(t.value, 8));
      BoolByteBack(data, pos, true);
      Int64Back(data, pos + 1, t.value);
    }
  }

  lemma TrailerBack(data: seq<Octet>, pos: nat, b: Option<Octet>)
    requires Stands(data, pos, FieldBytes(Last(b), Trailer)) && pos + |FieldBytes(Last(b), Trailer)| == |data|
    ensures GetField(Go, Trailer, data, pos) == GetField(TypeScript, Trailer, data, pos) == Some((Last(b), |data|))
  {
    if b.Some? {
      assert data[pos..pos + 1][0] == data[pos];
    }
  }

  /** A field is read back, by either side, from where it stands; a trailer when nothing follows. */
  lemma FieldBack(l: Language, k: Kind, data: seq<Octet>, pos: nat, v: Value)
    requires Typed(k, v) && InLimits(k, v) && Stands(data, pos, FieldBytes(v, k))
    requires k.Trailer? ==> pos + |FieldBytes(v, k)| == |data|
    ensures GetField(l, k, data, pos) == Some((Native(l, v), pos + |FieldBytes(v, k)|))
  {
    hide GetNumber, GetText, GetInt64, Be, Pow, Size, Present;
    hide BoolBytes, TextBytes, OptionalBytes, OptionalTextBytes, OptionalTimeBytes;
    match k
    case Uint(w) => NumFieldBack(l, w, data, pos, v.n);
    case Flag => BoolByteBack(data, pos, v.b);
    case LateFlag => BoolByteBack(data, pos, v.b);
    case Text(_, _) => TextBack(data, pos, v.s);
    case OptText => OptTextFieldBack(l, data, pos, v.os);
    case OptUint => OptFieldBack(l, data, pos, v.o);
    case Signed64(_) => Int64Back(data, pos, v.i);
    case OptSigned64 => OptSignedFieldBack(l, data, pos, v.oi);
    case Trailer => TrailerBack(data, pos, v.last);
  }

  // ---------------------------------------------------------------- a record of fields

  /** A field; `when` is the number of an earlier flag without which it is not there. */
  datatype Field = Field(kind: Kind, when: Option<nat>)

  /** Conditions are earlier flags that are always there; a trailer comes last. */
  predicate GoodFields(fs: seq<Field>) {
    forall i :: 0 <= i < |fs| ==>
      && (fs[i].when.Some? ==>
            var w := fs[i].when.value; w < i && fs[w].kind == Flag && fs[w].when == None)
      && (fs[i].kind.Trailer? ==> i == |fs| - 1)
  }

  function Always(ks: seq<Kind>): (fs: seq<Field>)
    ensures |fs| == |ks|
    ensures forall i :: 0 <= i < |ks| ==> fs[i] == Field(ks[i], None)
  {
    seq(|ks|, i requires 0 <= i < |ks| => Field(ks[i], None))
  }

  predicate Raised(v: Value) {
    match v
    case Bool(b) => b
    case Num(n) => n != 0
    case _ => false
  }

  /** Whether field `i` is there, as the flags among `vs` say. */
  predicate On(fs: seq<Field>, vs: seq<Value>, i: nat)
    requires i < |fs|
  {
    fs[i].when.None? || (fs[i].when.value < |vs| && Raised(vs[fs[i].when.value]))
  }

  ghost predicate TypedRecord(fs: seq<Field>, vs: seq<Value>) {
    |fs| == |vs| && forall i :: 0 <= i < |fs| ==> Typed(fs[i].kind, vs[i])
  }

  /** Only what is written has to be within its limits. */
  predicate RecordInLimits(fs: seq<Field>, vs: seq<Value>)
    requires |fs| == |vs|
  {
    forall i :: 0 <= i < |fs| && On(fs, vs, i) ==> InLimits(fs[i].kind, vs[i])
  }

  function PartBytes(fs: seq<Field>, vs: seq<Value>, i: nat): seq<Octet>
    requires i < |fs| == |vs|
  {
    if On(fs, vs, i) then FieldBytes(vs[i], fs[i].kind) else []
  }

  /** The bytes of the first `n` fields. */
  function RecordPrefix(fs: seq<Field>, vs: seq<Value>, n: nat): seq<Octet>
    requires n <= |fs| == |vs|
  {
    if n == 0 then [] else RecordPrefix(fs, vs, n - 1) + PartBytes(fs, vs, n - 1)
  }

  function RecordBytes(fs: seq<Field>, vs: seq<Value>): seq<Octet>
    requires |fs| == |vs|
  {
    RecordPrefix(fs, vs, |fs|)
  }

  /** The record with the fields that are not there set to zero. */
  function Cleared(fs: seq<Field>, vs: seq<Value>): (r: seq<Value>)
    requires |fs| == |vs|
    ensures |r| == |vs|
  {
    seq(|vs|, i requires 0 <= i < |vs| => if On(fs, vs, i) then vs[i] else Zero(fs[i].kind))
  }

  function NativeRecord(l: Language, vs: seq<Value>): (r: seq<Value>)
    ensures |r| == |vs|
  {
    seq(|vs|, i requires 0 <= i < |vs| => Native(l, vs[i]))
  }

  /** Reads the fields after the first ones, `got`. */
  function GetRecord(l: Language, fs: seq<Field>, data: seq<Octet>, pos: nat, got: seq<Value>)
    : Option<(seq<Value>, nat)>
    decreases |fs| - |got|
  {
    if |got| >= |fs| then Some((got, pos))
    else if !On(fs, got, |got|) then GetRecord(l, fs, data, pos, got + [Native(l, Zero(fs[|got|].kind))])
    else
      var r := GetField(l, fs[|got|].kind, data, pos);
      if r.None? then None else GetRecord(l, fs, data, r.value.1, got + [r.value.0])
  }

  /** Flags are read before what depends on them, on either side. */
  lemma OnAsRead(l: Language, fs: seq<Field>, vs: seq<Value>, i: nat)
    requires GoodFields(fs) && TypedRecord(fs, vs) && i < |fs|
    ensures On(fs, NativeRecord(l, Cleared(fs, vs))[..i], i) == On(fs, vs, i)
  {
    hide Cleared, NativeRecord;
    if fs[i].when.Some? {
      var w := fs[i].when.value;
      ClearedAt(fs, vs, w);
      assert NativeRecord(l, Cleared(fs, vs))[w] == Native(l, vs[w]) by { NativeAt(l, Cleared(fs, vs), w); }
    }
  }

  lemma ClearedAt(fs: seq<Field>, vs: seq<Value>, i: nat)
    requires i < |fs| == |vs|
    ensures Cleared(fs, vs)[i] == if On(fs, vs, i) then vs[i] else Zero(fs[i].kind)
  {
  }

  lemma NativeAt(l: Language, vs: seq<Value>, i: nat)
    requires i < |vs|
    ensures NativeRecord(l, vs)[i] == Native(l, vs[i])
  {
  }

  /** Nothing follows a record that ends with a trailer. */
  predicate NothingAfter(fs: seq<Field>, data: seq<Octet>, end: nat) {
    (exists i :: 0 <= i < |fs| && fs[i].kind.Trailer?) ==> end == |data|
  }

  /** What reading one more field leaves to read. */
  lemma RecordTurn(l: Language, fs: seq<Field>, data: seq<Octet>, pos: nat, got: seq<Value>)
    ensures GetRecord(l, fs, data, pos, got) ==
            if |got| >= |fs| then Some((got, pos))
            else if !On(fs, got, |got|) then GetRecord(l, fs, data, pos, got + [Native(l, Zero(fs[|got|].kind))])
            else
              var r := GetField(l, fs[|got|].kind, data, pos);
              if r.None? then None else GetRecord(l, fs, data, r.value.1, got + [r.value.0])
  {
    hide GetField;
  }

  /** One more field is read back, from the values read before it. */
  lemma PartBack(l: Language, fs: seq<Field>, data: seq<Octet>, pos: nat, vs: seq<Value>, i: nat)
    requires GoodFields(fs) && TypedRecord(fs, vs) && RecordInLimits(fs, vs) && i < |fs|
    requires Stands(data, pos, PartBytes(fs, vs, i))
    requires fs[i].kind.Trailer? ==> pos + |PartBytes(fs, vs, i)| == |data|
    ensures var all := NativeRecord(l, Cleared(fs, vs));
      GetRecord(l, fs, data, pos, all[..i]) ==
      GetRecord(l, fs, data, pos + |PartBytes(fs, vs, i)|, all[..i + 1])
  {
    hide GetRecord, GetField, FieldBytes, GoodFields, Typed, InLimits, Stands, Cleared, NativeRecord, Native, On;
    var all := NativeRecord(l, Cleared(fs, vs));
    RecordTurn(l, fs, data, pos, all[..i]);
    OnAsRead(l, fs, vs, i);
    ClearedAt(fs, vs, i);
    NativeAt(l, Cleared(fs, vs), i);
    assert all[..i + 1] == all[..i] + [all[i]];
    if On(fs, vs, i) {
      FieldBack(l, fs[i].kind, data, pos, vs[i]);
    }
  }

  lemma {:induction false} RecordBackUpTo(l: Language, fs: seq<Field>, data: seq<Octet>, pos: nat, vs: seq<Value>,
                                          n: nat)
    requires GoodFields(fs) && TypedRecord(fs, vs) && RecordInLimits(fs, vs) && n <= |fs|
    requires Stands(data, pos, RecordPrefix(fs, vs, n)) && NothingAfter(fs, data, pos + |RecordBytes(fs, vs)|)
    ensures GetRecord(l, fs, data, pos, []) ==
            GetRecord(l, fs, data, pos + |RecordPrefix(fs, vs, n)|, NativeRecord(l, Cleared(fs, vs))[..n])
    decreases n
  {
    hide GetRecord, GoodFields, Typed, InLimits, Stands, Cleared, NativeRecord, PartBytes;
    if n > 0 {
      StandsSplit(data, pos, RecordPrefix(fs, vs, n - 1), PartBytes(fs, vs, n - 1));
      RecordBackUpTo(l, fs, data, pos, vs, n - 1);
      if fs[n - 1].kind.Trailer? {
        TrailerIsLast(fs, n - 1);
      }
      PartBack(l, fs, data, pos + |RecordPrefix(fs, vs, n - 1)|, vs, n - 1);
    }
  }

  lemma TrailerIsLast(fs: seq<Field>, i: nat)
    requires GoodFields(fs) && i < |fs| && fs[i].kind.Trailer?
    ensures i == |fs| - 1
  {
  }

  lemma RecordBack(l: Language, fs: seq<Field>, data: seq<Octet>, pos: nat, vs: seq<Value>)
    requires |fs| == |vs| && GoodFields(fs) && TypedRecord(fs, vs) && RecordInLimits(fs, vs)
    requires Stands(data, pos, RecordBytes(fs, vs)) && NothingAfter(fs, data, pos + |RecordBytes(fs, vs)|)
    ensures GetRecord(l, fs, data, pos, []) ==
            Some((NativeRecord(l, Cleared(fs, vs)), pos + |RecordBytes(fs, vs)|))
  {
    hide GetField, RecordPrefix, Stands, Cleared, NativeRecord, GoodFields, TypedRecord, RecordInLimits;
    RecordBackUpTo(l, fs, data, pos, vs, |fs|);
    var all := NativeRecord(l, Cleared(fs, vs));
    assert all[..|fs|] == all;
  }

  // ---------------------------------------------------------------- a message

  /** The repeated part of a message: a count of the given width, then that many records. */
  datatype Items = Items(count: Width, fields: seq<Field>)

  datatype Layout = Layout(header: seq<Field>, items: Option<Items>)

  datatype Message = Message(header: seq<Value>, items: seq<seq<Value>>)

  predicate NoTrailer(fs: seq<Field>) {
    forall i :: 0 <= i < |fs| ==> !fs[i].kind.Trailer?
  }

  /** Only a message without items may end with a trailer. */
  predicate GoodLayout(f: Layout) {
    && GoodFields(f.header)
    && (f.items.Some? ==> NoTrailer(f.header) && GoodFields(f.items.value.fields) && NoTrailer(f.items.value.fields))
  }

  ghost predicate TypedRows(fs: seq<Field>, rows: seq<seq<Value>>) {
    forall i :: 0 <= i < |rows| ==> TypedRecord(fs, rows[i])
  }

  ghost predicate TypedMessage(f: Layout, m: Message) {
    && TypedRecord(f.header, m.header)
    && (if f.items.None? then m.items == [] else TypedRows(f.items.value.fields, m.items))
  }

  ghost predicate RowsInLimits(fs: seq<Field>, rows: seq<seq<Value>>)
    requires TypedRows(fs, rows)
  {
    forall i :: 0 <= i < |rows| ==> RecordInLimits(fs, rows[i])
  }

  ghost predicate MessageInLimits(f: Layout, m: Message)
    requires TypedMessage(f, m)
  {
    RecordInLimits(f.header, m.header) && (f.items.Some? ==> RowsInLimits(f.items.value.fields, m.items))
  }

  ghost function RowsPrefix(fs: seq<Field>, rows: seq<seq<Value>>, n: nat): seq<Octet>
    requires TypedRows(fs, rows) && n <= |rows|
  {
    if n == 0 then [] else RowsPrefix(fs, rows, n - 1) + RecordBytes(fs, rows[n - 1])
  }

  /** The count is an integer conversion, so it wraps. */
  ghost function MessageBytes(f: Layout, m: Message): seq<Octet>
    requires TypedMessage(f, m)
  {
    RecordBytes(f.header, m.header)
    + if f.items.None? then []
      else Be(|m.items|, Size(f.items.value.count)) + RowsPrefix(f.items.value.fields, m.items, |m.items|)
  }

  function GetRows(l: Language, fs: seq<Field>, data: seq<Octet>, pos: nat, count: nat, got: seq<seq<Value>>)
    : Option<(seq<seq<Value>>, nat)>
    decreases count - |got|
  {
    if |got| >= count then Some((got, pos))
    else
      var r := GetRecord(l, fs, data, pos, []);
      if r.None? then None else GetRows(l, fs, data, r.value.1, count, got + [r.value.0])
  }

  function GetMessage(l: Language, f: Layout, data: seq<Octet>): Option<Message> {
    var h := GetRecord(l, f.header, data, 0, []);
    if h.None? then None
    else if f.items.None? then Some(Message(h.value.0, []))
    else
      var c := GetNumber(data, h.value.1, Size(f.items.value.count));
      if c.None? then None
      else
        var rows := GetRows(l, f.items.value.fields, data, c.value.1, c.value.0, []);
        if rows.None? then None else Some(Message(h.value.0, rows.value.0))
  }

  ghost function ClearedRows(fs: seq<Field>, rows: seq<seq<Value>>): (r: seq<seq<Value>>)
    requires TypedRows(fs, rows)
    ensures |r| == |rows|
  {
    seq(|rows|, i requires 0 <= i < |rows| => Cleared(fs, rows[i]))
  }

  function NativeRows(l: Language, rows: seq<seq<Value>>): (r: seq<seq<Value>>)
    ensures |r| == |rows|
  {
    seq(|rows|, i requires 0 <= i < |rows| => NativeRecord(l, rows[i]))
  }

  /** The message with every field that is not there set to zero. */
  ghost function ClearedMessage(f: Layout, m: Message): Message
    requires TypedMessage(f, m)
  {
    Message(Cleared(f.header, m.header), if f.items.None? then [] else ClearedRows(f.items.value.fields, m.items))
  }

  function NativeMessage(l: Language, m: Message): Message {
    Message(NativeRecord(l, m.header), NativeRows(l, m.items))
  }

  lemma NoTrailerNothingAfter(fs: seq<Field>, data: seq<Octet>, end: nat)
    requires NoTrailer(fs)
    ensures NothingAfter(fs, data, end)
  {
  }

  lemma {:induction false} RowsBackUpTo(l: Language, fs: seq<Field>, data: seq<Octet>, pos: nat,
                                        rows: seq<seq<Value>>, n: nat)
    requires GoodFields(fs) && NoTrailer(fs) && TypedRows(fs, rows) && RowsInLimits(fs, rows) && n <= |rows|
    requires Stands(data, pos, RowsPrefix(fs, rows, n))
    ensures GetRows(l, fs, data, pos, |rows|, []) ==
            GetRows(l, fs, data, pos + |RowsPrefix(fs, rows, n)|, |rows|, NativeRows(l, ClearedRows(fs, rows))[..n])
    decreases n
  {
    hide GetRecord, GoodFields, NoTrailer, RecordInLimits, Stands, RecordBytes, Cleared, NativeRecord, NothingAfter;
    if n > 0 {
      var i, all := n - 1, NativeRows(l, ClearedRows(fs, rows));
      var before := RowsPrefix(fs, rows, i);
      StandsSplit(data, pos, before, RecordBytes(fs, rows[i]));
      RowsBackUpTo(l, fs, data, pos, rows, i);
      NoTrailerNothingAfter(fs, data, pos + |before| + |RecordBytes(fs, rows[i])|);
      RecordBack(l, fs, data, pos + |before|, rows[i]);
      assert all[..n] == all[..i] + [all[i]];
    }
  }

  lemma {:induction false} RowsCount(l: Language, fs: seq<Field>, data: seq<Octet>, pos: nat, count: nat,
                                     got: seq<seq<Value>>)
    requires |got| <= count
    ensures var r := GetRows(l, fs, data, pos, count, got); r.Some? ==> |r.value.0| == count
    decreases count - |got|
  {
    hide GetRecord;
    if |got| < count && GetRecord(l, fs, data, pos, []).Some? {
      var (row, next) := GetRecord(l, fs, data, pos, []).value;
      RowsCount(l, fs, data, next, count, got + [row]);
    }
  }

  predicate HasTrailer(f: Layout) {
    !NoTrailer(f.header)
  }

  /** The items fit their count. */
  predicate CountFits(f: Layout, m: Message) {
    f.items.Some? ==> |m.items| < Pow(Byte, Size(f.items.value.count))
  }

  /** What either side wrote, either side reads, whatever bytes follow: the same message, with
      the fields that are not there set to zero, if the items fit their count; else some other
      message or none. */
  lemma EitherSideReads(l: Language, f: Layout, m: Message, rest: seq<Octet>)
    requires GoodLayout(f) && TypedMessage(f, m) && MessageInLimits(f, m) && (HasTrailer(f) ==> rest == [])
    ensures var read := GetMessage(l, f, MessageBytes(f, m) + rest);
      if CountFits(f, m) then read == Some(NativeMessage(l, ClearedMessage(f, m)))
      else read.Some? ==> |read.value.items| != |m.items|
  {
    hide GoodLayout, TypedMessage, MessageInLimits, HasTrailer, CountFits, NativeMessage, ClearedMessage;
    hide MessageBytes, GetMessage;
    if f.items.None? {
      FlatBack(l, f, m, rest);
    } else {
      ItemsBack(l, f, m, rest);
    }
  }

  lemma FlatBack(l: Language, f: Layout, m: Message, rest: seq<Octet>)
    requires GoodLayout(f) && TypedMessage(f, m) && MessageInLimits(f, m) && (HasTrailer(f) ==> rest == [])
    requires f.items.None?
    ensures CountFits(f, m)
            && GetMessage(l, f, MessageBytes(f, m) + rest) == Some(NativeMessage(l, ClearedMessage(f, m)))
  {
    hide GoodLayout, MessageInLimits, HasTrailer, GetRecord, RecordBytes, Typed, Cleared, NativeRecord;
    var head := RecordBytes(f.header, m.header);
    assert MessageBytes(f, m) + rest == head + [] + rest;
    HeaderBack(l, f, m, [], rest);
    assert NativeRows(l, []) == [];
  }

  lemma HeaderBack(l: Language, f: Layout, m: Message, tail: seq<Octet>, rest: seq<Octet>)
    requires GoodLayout(f) && TypedMessage(f, m) && MessageInLimits(f, m)
    requires HasTrailer(f) ==> tail + rest == []
    ensures var head := RecordBytes(f.header, m.header);
      && GetRecord(l, f.header, head + tail + rest, 0, []) ==
          Some((NativeRecord(l, Cleared(f.header, m.header)), |head|))
      && Stands(head + tail + rest, |head|, tail)
  {
    hide GoodFields, TypedRows, RecordInLimits, Stands, GetRecord, RecordBytes, NativeRecord, Cleared;
    var head := RecordBytes(f.header, m.header);
    assert head + tail + rest == [] + (head + tail) + rest;
    StandsAfter([], head + tail, rest);
    StandsSplit(head + tail + rest, 0, head, tail);
    RecordBack(l, f.header, head + tail + rest, 0, m.header);
  }

  lemma ItemsBack(l: Language, f: Layout, m: Message, rest: seq<Octet>)
    requires GoodLayout(f) && TypedMessage(f, m) && MessageInLimits(f, m) && f.items.Some?
    ensures var read := GetMessage(l, f, MessageBytes(f, m) + rest);
      if CountFits(f, m) then read == Some(NativeMessage(l, ClearedMessage(f, m)))
      else read.Some? ==> |read.value.items| != |m.items|
  {
    hide *;
    ItemsParts(l, f, m);
    var fs, w := f.items.value.fields, Size(f.items.value.count);
    var head, rows := RecordBytes(f.header, m.header), RowsPrefix(fs, m.items, |m.items|);
    var data := head + (Be(|m.items|, w) + rows) + rest;
    HeaderBack(l, f, m, Be(|m.items|, w) + rows, rest);
    StandsSplit(data, |head|, Be(|m.items|, w), rows);
    NumberBack(data, |head|, |m.items|, w);
    var count := |m.items| % Pow(Byte, w);
    Assemble(l, f, data, NativeRecord(l, Cleared(f.header, m.header)), |head|, count, |head| + w);
    RowsCount(l, fs, data, |head| + w, count, []);
    if CountFits(f, m) {
      RowsBackUpTo(l, fs, data, |head| + w, m.items, |m.items|);
      AllRowsRead(l, fs, data, |head| + w + |rows|, NativeRows(l, ClearedRows(fs, m.items)));
    }
  }

  /** The rows that are left to read after one more. */
  lemma RowsTurn(l: Language, fs: seq<Field>, data: seq<Octet>, pos: nat, count: nat, got: seq<seq<Value>>)
    ensures GetRows(l, fs, data, pos, count, got) ==
            if |got| >= count then Some((got, pos))
            else
              var r := GetRecord(l, fs, data, pos, []);
              if r.None? then None else GetRows(l, fs, data, r.value.1, count, got + [r.value.0])
  {
    hide GetRecord;
  }

  /** With one item more than the count can say, the message that is read has none. */
  lemma WrappedCountReadsNone(l: Language, f: Layout, m: Message, rest: seq<Octet>)
    requires GoodLayout(f) && TypedMessage(f, m) && MessageInLimits(f, m) && f.items.Some?
    requires |m.items| == Pow(Byte, Size(f.items.value.count))
    ensures GetMessage(l, f, MessageBytes(f, m) + rest) ==
            Some(Message(NativeRecord(l, Cleared(f.header, m.header)), []))
  {
    hide *;
    ItemsParts(l, f, m);
    var fs, w := f.items.value.fields, Size(f.items.value.count);
    var head, rows := RecordBytes(f.header, m.header), RowsPrefix(fs, m.items, |m.items|);
    var data := head + (Be(|m.items|, w) + rows) + rest;
    HeaderBack(l, f, m, Be(|m.items|, w) + rows, rest);
    StandsSplit(data, |head|, Be(|m.items|, w), rows);
    NumberBack(data, |head|, |m.items|, w);
    Assemble(l, f, data, NativeRecord(l, Cleared(f.header, m.header)), |head|, 0, |head| + w);
    RowsTurn(l, fs, data, |head| + w, 0, []);
  }

  lemma AllRowsRead(l: Language, fs: seq<Field>, data: seq<Octet>, pos: nat, rows: seq<seq<Value>>)
    ensures GetRows(l, fs, data, pos, |rows|, rows[..|rows|]) == Some((rows, pos))
  {
    assert rows[..|rows|] == rows;
  }

  lemma ItemsParts(l: Language, f: Layout, m: Message)
    requires GoodLayout(f) && TypedMessage(f, m) && MessageInLimits(f, m) && f.items.Some?
    ensures |f.header| == |m.header| && TypedRows(f.items.value.fields, m.items)
    ensures GoodFields(f.items.value.fields) && NoTrailer(f.items.value.fields) && !HasTrailer(f)
    ensures RowsInLimits(f.items.value.fields, m.items)
    ensures MessageBytes(f, m) == RecordBytes(f.header, m.header)
            + (Be(|m.items|, Size(f.items.value.count)) + RowsPrefix(f.items.value.fields, m.items, |m.items|))
    ensures CountFits(f, m) <==> |m.items| < Pow(Byte, Size(f.items.value.count))
    ensures CountFits(f, m) ==> |m.items| % Pow(Byte, Size(f.items.value.count)) == |m.items|
    ensures !CountFits(f, m) ==> |m.items| % Pow(Byte, Size(f.items.value.count)) != |m.items|
    ensures NativeMessage(l, ClearedMessage(f, m)) ==
            Message(NativeRecord(l, Cleared(f.header, m.header)),
                NativeRows(l, ClearedRows(f.items.value.fields, m.items)))
  {
    hide RecordBytes, RowsPrefix, NativeRecord, NativeRows, Be, Pow, Cleared, ClearedRows;
  }

  lemma Assemble(l: Language, f: Layout, data: seq<Octet>, header: seq<Value>, p: nat, count: nat, q: nat)
    requires f.items.Some? && GetRecord(l, f.header, data, 0, []) == Some((header, p))
    requires GetNumber(data, p, Size(f.items.value.count)) == Some((count, q))
    ensures var rows := GetRows(l, f.items.value.fields, data, q, count, []);
      GetMessage(l, f, data) == if rows.None? then None else Some(Message(header, rows.value.0))
  {
    hide GetRecord, GetNumber, GetRows;
  }

  // ---------------------------------------------------------------- the identity

  /** Every field that is not there is zero. */
  ghost predicate AbsentZero(f: Layout, m: Message)
    requires TypedMessage(f, m)
  {
    && (forall i :: 0 <= i < |f.header| ==> ZeroUnlessOn(f.header, m.header, i))
    && (f.items.Some? ==> forall j, i :: 0 <= j < |m.items| && 0 <= i < |f.items.value.fields| ==>
          ZeroUnlessOn(f.items.value.fields, m.items[j], i))
  }

  predicate ZeroUnlessOn(fs: seq<Field>, vs: seq<Value>, i: nat)
    requires i < |fs| == |vs|
  {
    On(fs, vs, i) || vs[i] == Zero(fs[i].kind)
  }

  lemma NativeInjective(l: Language, k: Kind, v: Value, w: Value)
    requires Typed(k, v) && (Typed(k, w) || w == Zero(k)) && Native(l, v) == Native(l, w)
    ensures v == w
  {
  }

  lemma RecordSameIff(l: Language, fs: seq<Field>, vs: seq<Value>)
    requires TypedRecord(fs, vs)
    ensures NativeRecord(l, Cleared(fs, vs)) == NativeRecord(l, vs) <==>
            forall i :: 0 <= i < |fs| ==> ZeroUnlessOn(fs, vs, i)
  {
    hide Typed, On, Native, Zero;
    var a, b := NativeRecord(l, Cleared(fs, vs)), NativeRecord(l, vs);
    if a == b {
      forall i | 0 <= i < |fs| ensures ZeroUnlessOn(fs, vs, i) {
        assert a[i] == b[i];
        NativeInjective(l, fs[i].kind, vs[i], if On(fs, vs, i) then vs[i] else Zero(fs[i].kind));
      }
    }
    if forall i :: 0 <= i < |fs| ==> ZeroUnlessOn(fs, vs, i) {
      NothingCleared(fs, vs);
    }
  }

  lemma NothingCleared(fs: seq<Field>, vs: seq<Value>)
    requires |fs| == |vs| && forall i :: 0 <= i < |fs| ==> ZeroUnlessOn(fs, vs, i)
    ensures Cleared(fs, vs) == vs
  {
    forall i | 0 <= i < |fs| ensures Cleared(fs, vs)[i] == vs[i] {
      assert ZeroUnlessOn(fs, vs, i);
    }
  }

  lemma RowsSameIff(l: Language, fs: seq<Field>, rows: seq<seq<Value>>)
    requires TypedRows(fs, rows)
    ensures NativeRows(l, ClearedRows(fs, rows)) == NativeRows(l, rows) <==>
            forall j, i :: 0 <= j < |rows| && 0 <= i < |fs| ==> ZeroUnlessOn(fs, rows[j], i)
  {
    hide Typed, NativeRecord, Cleared, ZeroUnlessOn;
    var a, b := NativeRows(l, ClearedRows(fs, rows)), NativeRows(l, rows);
    forall j | 0 <= j < |rows|
      ensures |rows[j]| == |fs|
      ensures a[j] == b[j] <==> forall i :: 0 <= i < |fs| ==> ZeroUnlessOn(fs, rows[j], i)
    {
      RecordSameIff(l, fs, rows[j]);
    }
  }

  /** Reading back is the identity, on either side, exactly when the items fit their count and
      every field that is not there is zero. */
  lemma ReadsBackIff(l: Language, f: Layout, m: Message, rest: seq<Octet>)
    requires GoodLayout(f) && TypedMessage(f, m) && MessageInLimits(f, m) && (HasTrailer(f) ==> rest == [])
    ensures GetMessage(l, f, MessageBytes(f, m) + rest) == Some(NativeMessage(l, m)) <==>
            CountFits(f, m) && AbsentZero(f, m)
  {
    hide GoodLayout, GetMessage, MessageBytes, MessageInLimits, HasTrailer, CountFits;
    hide TypedRecord, TypedRows, NativeRecord, NativeRows, Cleared, ClearedRows, On, Zero;
    EitherSideReads(l, f, m, rest);
    RecordSameIff(l, f.header, m.header);
    if f.items.Some? {
      RowsSameIff(l, f.items.value.fields, m.items);
    }
  }

  // ---------------------------------------------------------------- one call after another

  /** After one more field has been written. */
  lemma PartWritten(start: seq<Octet>, fs: seq<Field>, vs: seq<Value>, i: nat)
    requires i < |fs| == |vs|
    ensures start + RecordPrefix(fs, vs, i) + PartBytes(fs, vs, i) == start + RecordPrefix(fs, vs, i + 1)
  {
    hide PartBytes;
  }

  lemma NothingWritten(start: seq<Octet>, fs: seq<Field>, vs: seq<Value>)
    requires |fs| == |vs|
    ensures start + RecordPrefix(fs, vs, 0) == start
  {
  }

  lemma RowsStart(start: seq<Octet>, fs: seq<Field>, rows: seq<seq<Value>>)
    requires TypedRows(fs, rows)
    ensures start + RowsPrefix(fs, rows, 0) == start
  {
  }

  lemma RowWidths(fs: seq<Field>, rows: seq<seq<Value>>)
    requires TypedRows(fs, rows)
    ensures forall i :: 0 <= i < |rows| ==> |rows[i]| == |fs|
  {
  }

  /** After one more item has been written. */
  lemma RowWritten(start: seq<Octet>, fs: seq<Field>, rows: seq<seq<Value>>, i: nat)
    requires TypedRows(fs, rows) && i < |rows|
    ensures start + RowsPrefix(fs, rows, i) + RecordBytes(fs, rows[i]) == start + RowsPrefix(fs, rows, i + 1)
  {
    hide RecordBytes, TypedRecord;
  }

  /** The record that is left to read once `r` has been read. */
  function Onward(l: Language, ks: seq<Kind>, data: seq<Octet>, got: seq<Value>, r: Option<(Value, nat)>)
    : Option<(seq<Value>, nat)>
  {
    if r.None? then None else GetRecord(l, Always(ks), data, r.value.1, got + [r.value.0])
  }

  /** Fields that are always there are read one after another. */
  lemma FieldsInTurn(l: Language, ks: seq<Kind>, data: seq<Octet>)
    ensures forall pos: nat, got: seq<Value> {:trigger GetRecord(l, Always(ks), data, pos, got)} ::
              GetRecord(l, Always(ks), data, pos, got) ==
              if |got| < |ks| then Onward(l, ks, data, got, GetField(l, ks[|got|], data, pos)) else Some((got, pos))
  {
    hide GetField;
  }
}
