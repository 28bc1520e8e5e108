/** The primitive values of the protocol (pkg/protocol/types.go): big-endian integers, booleans,
    length-prefixed strings and optional fields, written to a buffer and read from a payload.
    Strings are their UTF-8 bytes; times are milliseconds. */
module Wire {
  import opened BitLayout
  import opened BitStream
  import opened Octets
  import opened Positional
  import opened Wrappers

  const MAX_STRING := 65535

  // ---------------------------------------------------------------- layouts

  /** The `n` low bytes of a number, most significant first. */
  function Be(v: int, n: nat): (r: seq<Octet>)
    ensures |r| == n
  {
    ListsBelow(MsbFirst, v, n, BigEndian);
    ByteList(v, n, BigEndian)
  }

  function BoolBytes(b: bool): seq<Octet> {
    if b then [1] else [0]
  }

  function TextBytes(s: seq<Octet>): seq<Octet> {
    Be(|s|, 2) + s
  }

  function OptionalBytes(v: Option<nat>): seq<Octet> {
    if v.None? then [0] else [1] + Be(v.value, 8)
  }

  function OptionalTimeBytes(t: Option<int>): seq<Octet> {
    if t.None? then [0] else [1] + Be(t.value, 8)
  }

  function OptionalTextBytes(s: Option<seq<Octet>>): seq<Octet> {
    if s.None? then [0] else [1] + TextBytes(s.value)
  }

  // ---------------------------------------------------------------- reading back

  /** `bytes` stand in `data` at position `pos`. */
  ghost predicate Stands(data: seq<Octet>, pos: nat, bytes: seq<Octet>) {
    pos + |bytes| <= |data| && data[pos..pos + |bytes|] == bytes
  }

  function GetNumber(data: seq<Octet>, pos: nat, n: nat): Option<(nat, nat)> {
    if pos + n <= |data| then Some((FromByteList(data[pos..pos + n], BigEndian), pos + n)) else None
  }

  function AsInt64(v: nat): int {
    if v >= 0x8000_0000_0000_0000 then v - 0x1_0000_0000_0000_0000 else v
  }

  function GetInt64(data: seq<Octet>, pos: nat): Option<(int, nat)> {
    match GetNumber(data, pos, 8)
    case None => None
    case Some((v, next)) => Some((AsInt64(v), next))
  }

  /** Any byte but zero is true. */
  function GetBool(data: seq<Octet>, pos: nat): Option<(bool, nat)> {
    match GetNumber(data, pos, 1)
    case None => None
    case Some((v, next)) => Some((v != 0, next))
  }

  function GetText(data: seq<Octet>, pos: nat): Option<(seq<Octet>, nat)> {
    match GetNumber(data, pos, 2)
    case None => None
    case Some((n, next)) => if next + n <= |data| then Some((data[next..next + n], next + n)) else None
  }

  function GetOptional(data: seq<Octet>, pos: nat): Option<(Option<nat>, nat)> {
    match GetBool(data, pos)
    case None => None
    case Some((present, next)) =>
      if !present then Some((None, next))
      else
        match GetNumber(data, next, 8)
        case None => None
        case Some((v, after)) => Some((Some(v), after))
  }

  function GetOptionalTime(data: seq<Octet>, pos: nat): Option<(Option<int>, nat)> {
    match GetBool(data, pos)
    case None => None
    case Some((present, next)) =>
      if !present then Some((None, next))
      else
        match GetInt64(data, next)
        case None => None
        case Some((v, after)) => Some((Some(v), after))
  }

  function GetOptionalText(data: seq<Octet>, pos: nat): Option<(Option<seq<Octet>>, nat)> {
    match GetBool(data, pos)
    case None => None
    case Some((present, next)) =>
      if !present then Some((None, next))
      else
        match GetText(data, next)
        case None => None
        case Some((s, after)) => Some((Some(s), after))
  }

  lemma StandsSplit(data: seq<Octet>, pos: nat, a: seq<Octet>, b: seq<Octet>)
    requires Stands(data, pos, a + b)
    ensures Stands(data, pos, a) && Stands(data, pos + |a|, b)
  {
    var whole := data[pos..pos + |a + b|];
    assert data[pos..pos + |a|] == whole[..|a|];
    assert data[pos + |a|..pos + |a| + |b|] == whole[|a|..];
  }

  lemma StandsAfter(before: seq<Octet>, bytes: seq<Octet>, rest: seq<Octet>)
    ensures Stands(before + bytes + rest, |before|, bytes)
  {
  }

  lemma NumberBack(data: seq<Octet>, pos: nat, v: int, n: nat)
    requires Stands(data, pos, Be(v, n))
    ensures GetNumber(data, pos, n) == Some((v % Pow(Byte, n), pos + n))
  {
    hide ByteList, FromByteList, Pow;
    ListValues(MsbFirst, v, n, BigEndian);
  }

  lemma OneByte(b: Octet)
    ensures Be(b, 1) == [b]
  {
    assert Digits(Byte, b, 1) == [b];
    assert Reverse([b]) == Reverse([b][1..]) + [b] == [b];
  }

  // The bytes of a number, written out.

  lemma TwoBytes(v: int)
    ensures Be(v, 2) == [v / 0x100 % 256, v % 256]
  {
    hide ByteList, Pow;
    ByteWeights();
    ByteListAt(v, 2, BigEndian, 0);
    ByteListAt(v, 2, BigEndian, 1);
  }

  lemma FourBytes(v: int)
    ensures Be(v, 4) == [v / 0x100_0000 % 256, v / 0x1_0000 % 256, v / 0x100 % 256, v % 256]
  {
    hide ByteList, Pow;
    ByteWeights();
    ByteListAt(v, 4, BigEndian, 0);
    ByteListAt(v, 4, BigEndian, 1);
    ByteListAt(v, 4, BigEndian, 2);
    ByteListAt(v, 4, BigEndian, 3);
  }

  lemma EightBytes(v: int)
    ensures Be(v, 8) ==
      [v / 0x100_0000_0000_0000 % 256, v / 0x1_0000_0000_0000 % 256, v / 0x100_0000_0000 % 256,
       v / 0x1_0000_0000 % 256, v / 0x100_0000 % 256, v / 0x1_0000 % 256, v / 0x100 % 256, v % 256]
  {
    hide ByteList, Pow;
    ByteWeights();
    forall i: nat | i < 8 ensures Be(v, 8)[i] == v / ByteWeight(BigEndian, 8, i) % 256 {
      ByteListAt(v, 8, BigEndian, i);
    }
  }

  /** The number that two bytes stand for. */
  lemma TwoByteNumber(data: seq<Octet>, pos: nat)
    ensures GetNumber(data, pos, 2) ==
            if pos + 2 > |data| then None else Some((0x100 * data[pos] as int + data[pos + 1], pos + 2))
  {
    if pos + 2 <= |data| {
      var v := 0x100 * data[pos] as int + data[pos + 1];
      TwoBytes(v);
      assert data[pos..pos + 2] == Be(v, 2);
      hide Be, GetNumber, Pow;
      NumberBack(data, pos, v, 2);
      ByteWeights();
    }
  }

  lemma FourByteNumber(data: seq<Octet>, pos: nat)
    ensures GetNumber(data, pos, 4) ==
            if pos + 4 > |data| then None
            else Some((FourBytesAs(data[pos], data[pos + 1], data[pos + 2], data[pos + 3]), pos + 4))
  {
    hide FromByteList;
    if pos + 4 <= |data| {
      var (a, b, c, d) := (data[pos], data[pos + 1], data[pos + 2], data[pos + 3]);
      assert data[pos..pos + 4] == [a, b, c, d];
      FourStand(data, pos, a, b, c, d);
    }
  }

  lemma FourStand(data: seq<Octet>, pos: nat, a: Octet, b: Octet, c: Octet, d: Octet)
    requires pos + 4 <= |data| && data[pos..pos + 4] == [a, b, c, d]
    ensures GetNumber(data, pos, 4) == Some((FourBytesAs(a, b, c, d), pos + 4))
  {
    hide Be, GetNumber, Pow, FourBytesAs;
    var v := FourBytesAs(a, b, c, d);
    FourDigits(a, b, c, d);
    FourBytes(v);
    NumberBack(data, pos, v, 4);
    ByteWeights();
  }

  function FourBytesAs(a: nat, b: nat, c: nat, d: nat): nat {
    0x100_0000 * a + 0x1_0000 * b + 0x100 * c + d
  }

  lemma FourDigits(a: nat, b: nat, c: nat, d: nat)
    requires a < 256 && b < 256 && c < 256 && d < 256
    ensures var v := FourBytesAs(a, b, c, d);
      v < 0x1_0000_0000 && v / 0x100_0000 % 256 == a && v / 0x1_0000 % 256 == b && v / 0x100 % 256 == c && v % 256 == d
  {
    var v := FourBytesAs(a, b, c, d);
    assert v / 0x100_0000 == a && v / 0x1_0000 == 0x100 * a + b;
    assert v / 0x100 == 0x1_0000 * a + 0x100 * b + c;
  }

  predicate Uint64(v: int) {
    0 <= v < 0x1_0000_0000_0000_0000
  }

  predicate Int64(v: int) {
    -0x8000_0000_0000_0000 <= v < 0x8000_0000_0000_0000
  }

  lemma Int64Back(data: seq<Octet>, pos: nat, v: int)
    requires Int64(v) && Stands(data, pos, Be(v, 8))
    ensures GetInt64(data, pos) == Some((v, pos + 8))
  {
    hide GetNumber, Be, Pow;
    ByteWeights();
    NumberBack(data, pos, v, 8);
    if v < 0 {
      ModUnique(v, 0x1_0000_0000_0000_0000, -1, v + 0x1_0000_0000_0000_0000);
    }
  }

  lemma BoolBack(data: seq<Octet>, pos: nat, b: bool)
    requires Stands(data, pos, BoolBytes(b))
    ensures GetBool(data, pos) == Some((b, pos + 1))
  {
    hide GetNumber, Be, Pow;
    ByteWeights();
    OneByte(if b then 1 else 0);
    NumberBack(data, pos, if b then 1 else 0, 1);
  }

  lemma TextBack(data: seq<Octet>, pos: nat, s: seq<Octet>)
    requires |s| <= MAX_STRING && Stands(data, pos, TextBytes(s))
    ensures GetText(data, pos) == Some((s, pos + |TextBytes(s)|))
  {
    hide GetNumber, Be, Pow;
    ByteWeights();
    StandsSplit(data, pos, Be(|s|, 2), s);
    NumberBack(data, pos, |s|, 2);
  }

  /** No length is above the maximum. */
  lemma TextShort(data: seq<Octet>, pos: nat)
    ensures GetText(data, pos).Some? ==> |GetText(data, pos).value.0| <= MAX_STRING
  {
    hide GetNumber;
    TwoByteNumber(data, pos);
  }

  lemma TextsShort(data: seq<Octet>)
    ensures forall pos: nat :: GetText(data, pos).Some? ==> |GetText(data, pos).value.0| <= MAX_STRING
  {
    hide GetText;
    forall pos: nat ensures GetText(data, pos).Some? ==> |GetText(data, pos).value.0| <= MAX_STRING {
      TextShort(data, pos);
    }
  }

  // ---------------------------------------------------------------- the buffer written to

  /** A `bytes.Buffer`: writing to it never fails. */
  class Writer {
    var buf: seq<Octet>

    constructor ()
      ensures buf == []
    {
      buf := [];
    }

    method Write(data: seq<Octet>)
      modifies this
      ensures buf == old(buf) + data
    {
      buf := buf + data;
    }

    method WriteUint8(v: Octet)
      modifies this
      ensures buf == old(buf) + Be(v, 1) == old(buf) + [v]
    {
      OneByte(v);
      Write([v]);
    }

    method WriteUint16(v: nat)
      modifies this
      ensures buf == old(buf) + Be(v, 2)
    {
      Write(Be(v, 2));
    }

    method WriteUint32(v: nat)
      modifies this
      ensures buf == old(buf) + Be(v, 4)
    {
      Write(Be(v, 4));
    }

    method WriteUint64(v: nat)
      modifies this
      ensures buf == old(buf) + Be(v, 8)
    {
      Write(Be(v, 8));
    }

    /** `uint64(v)` of a negative number is its two's complement. */
    method WriteInt64(v: int)
      modifies this
      ensures buf == old(buf) + Be(v, 8)
    {
      ByteWeights();
      SameBytes(v);
      WriteUint64(v % 0x1_0000_0000_0000_0000);
    }

    method WriteBool(v: bool)
      modifies this
      ensures buf == old(buf) + BoolBytes(v)
      ensures buf == old(buf) + [if v then 1 else 0]
    {
      OneByte(0);
      OneByte(1);
      WriteUint8(if v then 1 else 0);
    }

    /** A string of more than 65535 bytes is refused and nothing is written. */
    method WriteString(s: seq<Octet>) returns (ok: bool)
      modifies this
      ensures ok <==> |s| <= 65535
      ensures buf == if ok then old(buf) + TextBytes(s) else old(buf)
      ensures ok ==> buf == old(buf) + [|s| / 256, |s| % 256] + s
    {
      if |s| > 65535 {
        return false;
      }
      WriteUint16(|s|);
      if |s| > 0 {
        Write(s);
      }
      TwoBytes(|s|);
      assert buf == old(buf) + TextBytes(s);
      return true;
    }

    method WriteOptionalUint64(v: Option<nat>)
      modifies this
      ensures buf == old(buf) + OptionalBytes(v)
    {
      if v.None? {
        WriteBool(false);
        return;
      }
      WriteBool(true);
      WriteUint64(v.value);
      assert buf == old(buf) + OptionalBytes(v);
    }

    /** A string that is too long is refused after its presence byte. */
    method WriteOptionalString(s: Option<seq<Octet>>) returns (ok: bool)
      modifies this
      ensures ok <==> (s.Some? ==> |s.value| <= 65535)
      ensures ok ==> buf == old(buf) + OptionalTextBytes(s)
    {
      if s.None? {
        WriteBool(false);
        return true;
      }
      WriteBool(true);
      ok := WriteString(s.value);
      assert ok ==> buf == old(buf) + OptionalTextBytes(s);
    }

    /** Optional times, and optional signed integers. */
    method WriteOptionalTimestamp(t: Option<int>)
      modifies this
      ensures buf == old(buf) + OptionalTimeBytes(t)
    {
      if t.None? {
        WriteBool(false);
        return;
      }
      WriteBool(true);
      WriteInt64(t.value);
      assert buf == old(buf) + OptionalTimeBytes(t);
    }
  }

  lemma SameBytes(v: int)
    ensures Be(v % Pow(Byte, 8), 8) == Be(v, 8)
  {
    MaskedDigits(Byte, v, 8);
  }

  // ---------------------------------------------------------------- the payload read from

  lemma ByteNumber(data: seq<Octet>, pos: nat)
    ensures GetNumber(data, pos, 1) == if pos < |data| then Some((data[pos], pos + 1)) else None
  {
    if pos < |data| {
      OneByte(data[pos]);
      assert data[pos..pos + 1] == [data[pos]];
      NumberBack(data, pos, data[pos], 1);
      ByteWeights();
    }
  }

  // What there must be to read from, and where reading ends.

  lemma BoolAt(data: seq<Octet>, pos: nat)
    ensures GetBool(data, pos) == if pos < |data| then Some((data[pos] != 0, pos + 1)) else None
  {
    hide GetNumber;
    ByteNumber(data, pos);
  }

  lemma TextAt(data: seq<Octet>, pos: nat)
    ensures GetText(data, pos) ==
            if pos + 2 > |data| then None
            else
              var n := 0x100 * data[pos] as int + data[pos + 1];
              if pos + 2 + n > |data| then None else Some((data[pos + 2..pos + 2 + n], pos + 2 + n))
  {
    hide GetNumber;
    TwoByteNumber(data, pos);
  }

  lemma OptionalAt(data: seq<Octet>, pos: nat)
    ensures GetOptional(data, pos).Some? <==> pos < |data| && (data[pos] != 0 ==> pos + 9 <= |data|)
    ensures GetOptional(data, pos).Some? ==>
              var (v, next) := GetOptional(data, pos).value;
              if data[pos] == 0 then v == None && next == pos + 1
              else v.Some? && next == pos + 9 && GetNumber(data, pos + 1, 8) == Some((v.value, next))
  {
    hide FromByteList, GetBool;
    BoolAt(data, pos);
  }

  lemma OptionalTextAt(data: seq<Octet>, pos: nat)
    ensures GetOptionalText(data, pos) ==
            if pos >= |data| then None
            else if data[pos] == 0 then Some((None, pos + 1))
            else
              match GetText(data, pos + 1)
              case None => None
              case Some((text, next)) => Some((Some(text), next))
  {
    hide GetText, GetBool;
    BoolAt(data, pos);
  }

  lemma OptionalTimeAt(data: seq<Octet>, pos: nat)
    ensures GetOptionalTime(data, pos) ==
            if pos >= |data| then None
            else if data[pos] == 0 then Some((None, pos + 1))
            else
              match GetInt64(data, pos + 1)
              case None => None
              case Some((t, next)) => Some((Some(t), next))
  {
    hide GetInt64, GetBool;
    BoolAt(data, pos);
  }

  /** A `bytes.Reader` over a payload. */
  class Reader {
    const data: seq<Octet>
    var pos: nat

    /** The method's result and the new position are those of `spec`. */
    ghost predicate Follows<T>(spec: Option<(T, nat)>, r: Option<T>)
      reads this
    {
      match spec
      case None => r == None
      case Some((v, next)) => r == Some(v) && pos == next
    }

    constructor (payload: seq<Octet>)
      ensures data == payload && pos == 0
    {
      data, pos := payload, 0;
    }

    method ReadFull(n: nat) returns (r: Option<seq<Octet>>)
      modifies this`pos
      ensures Follows(if old(pos) + n <= |data| then Some((data[old(pos)..old(pos) + n], old(pos) + n)) else None, r)
    {
      if pos + n > |data| {
        pos := |data|;
        return None;
      }
      pos := pos + n;
      return Some(data[pos - n..pos]);
    }

    method ReadUint8() returns (r: Option<Octet>)
      modifies this`pos
      ensures Follows(GetNumber(data, old(pos), 1), r)
    {
      ByteNumber(data, pos);
      if pos >= |data| {
        return None;
      }
      pos := pos + 1;
      return Some(data[pos - 1]);
    }

    /** ReadUint16, ReadUint32 and ReadUint64, which differ in `n` alone. */
    method ReadUint(n: nat) returns (r: Option<nat>)
      modifies this`pos
      ensures Follows(GetNumber(data, old(pos), n), r)
    {
      hide FromByteList;
      var buf := ReadFull(n);
      if buf.None? {
        return None;
      }
      return Some(FromByteList(buf.value, BigEndian));
    }

    method ReadInt64() returns (r: Option<int>)
      modifies this`pos
      ensures Follows(GetInt64(data, old(pos)), r)
    {
      hide GetNumber;
      var v := ReadUint(8);
      if v.None? {
        return None;
      }
      return Some(AsInt64(v.value));
    }

    method ReadBool() returns (r: Option<bool>)
      modifies this`pos
      ensures Follows(GetBool(data, old(pos)), r)
    {
      hide GetNumber;
      var b := ReadUint(1);
      if b.None? {
        return None;
      }
      return Some(b.value != 0);
    }

    method ReadString() returns (r: Option<seq<Octet>>)
      modifies this`pos
      ensures Follows(GetText(data, old(pos)), r) && (r.Some? ==> |r.value| <= 65535)
    {
      TextShort(data, pos);
      var length := ReadUint(2);
      if length.None? {
        return None;
      }
      if length.value == 0 {
        assert data[pos..pos] == [];
        return Some([]);
      }
      r := ReadFull(length.value);
    }

    method ReadOptionalUint64() returns (r: Option<Option<nat>>)
      modifies this`pos
      ensures Follows(GetOptional(data, old(pos)), r)
    {
      hide GetNumber, GetBool;
      var present := ReadBool();
      if present.None? {
        return None;
      }
      if !present.value {
        return Some(None);
      }
      var v := ReadUint(8);
      if v.None? {
        return None;
      }
      return Some(v);
    }

    method ReadOptionalString() returns (r: Option<Option<seq<Octet>>>)
      modifies this`pos
      ensures Follows(GetOptionalText(data, old(pos)), r)
    {
      hide GetText, GetBool;
      var present := ReadBool();
      if present.None? {
        return None;
      }
      if !present.value {
        return Some(None);
      }
      var s := ReadString();
      if s.None? {
        return None;
      }
      return Some(s);
    }

    method ReadOptionalTimestamp() returns (r: Option<Option<int>>)
      modifies this`pos
      ensures Follows(GetOptionalTime(data, old(pos)), r)
    {
      hide GetInt64, GetBool;
      var present := ReadBool();
      if present.None? {
        return None;
      }
      if !present.value {
        return Some(None);
      }
      var v := ReadInt64();
      if v.None? {
        return None;
      }
      return Some(v);
    }
  }
}
