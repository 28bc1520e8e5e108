/** Positional notation: a value as a list of digits, least significant first.  The wire formats
    use single bits and bytes as digits. */
module Positional {
  datatype Base = Bit | Byte

  function Radix(b: Base): nat {
    match b case Bit => 2 case Byte => 256
  }

  function Low(b: Base, v: int): (d: nat)
    ensures d < Radix(b)
  {
    match b case Bit => v % 2 case Byte => v % 256
  }

  function High(b: Base, v: int): int {
    match b case Bit => v / 2 case Byte => v / 256
  }

  /** radix^n */
  function Pow(b: Base, n: nat): (p: nat)
    ensures p > 0
  {
    if n == 0 then 1 else match b case Bit => 2 * Pow(b, n - 1) case Byte => 256 * Pow(b, n - 1)
  }

  /** The `n` lowest digits of `v`; of a negative value, those of its two's complement. */
  function Digits(b: Base, v: int, n: nat): (ds: seq<nat>)
    ensures |ds| == n
    ensures forall i :: 0 <= i < n ==> ds[i] < Radix(b)
    decreases n
  {
    if n == 0 then [] else [Low(b, v)] + Digits(b, High(b, v), n - 1)
  }

  function Value(b: Base, ds: seq<nat>): nat {
    if ds == [] then 0
    else match b case Bit => ds[0] + 2 * Value(b, ds[1..]) case Byte => ds[0] + 256 * Value(b, ds[1..])
  }

  function Reverse<T>(s: seq<T>): (r: seq<T>)
    ensures |r| == |s|
  {
    if s == [] then [] else Reverse(s[1..]) + [s[0]]
  }

  // ---------------------------------------------------------------- arithmetic

  lemma MulAtLeast(m: nat, d: int)
    requires m > 0
    ensures d >= 1 ==> m * d >= m
    ensures d <= -1 ==> m * d + m <= 0
  {
  }

  lemma ModUnique(x: int, m: nat, q: int, r: nat)
    requires 0 < m && r < m && x == m * q + r
    ensures x % m == r && x / m == q
  {
    var d := q - x / m;
    assert m * d == x % m - r;
    MulAtLeast(m, d);
  }

  lemma DivMod(x: int, m: nat)
    requires m > 0
    ensures x == m * (x / m) + x % m && 0 <= x % m < m
  {
  }

  /** Dividing by radix * m is dividing by the radix and then by m. */
  lemma SplitMod(b: Base, v: int, m: nat)
    requires m > 0
    ensures v % (Radix(b) * m) == Low(b, v) + Radix(b) * (High(b, v) % m)
    ensures v / (Radix(b) * m) == High(b, v) / m
  {
    var r := Radix(b);
    var a, c := High(b, v) / m, High(b, v) % m;
    DivMod(High(b, v), m);
    assert (r * m) * a == r * (m * a);
    assert v == r * High(b, v) + Low(b, v);
    ModUnique(v, r * m, a, r * c + Low(b, v));
  }

  // ---------------------------------------------------------------- the digits of a value

  /** Reading the digits back gives the value, masked to their number. */
  lemma {:induction false} ValueOfDigits(b: Base, v: int, n: nat)
    ensures Value(b, Digits(b, v, n)) == v % Pow(b, n)
    decreases n
  {
    if n > 0 {
      ValueOfDigits(b, High(b, v), n - 1);
      SplitMod(b, v, Pow(b, n - 1));
      assert Digits(b, v, n)[1..] == Digits(b, High(b, v), n - 1);
    }
  }

  lemma {:induction false} DigitAt(b: Base, v: int, n: nat, i: nat)
    requires i < n
    ensures Digits(b, v, n)[i] == Low(b, v / Pow(b, i))
    decreases n
  {
    if i > 0 {
      DigitAt(b, High(b, v), n - 1, i - 1);
      SplitMod(b, v, Pow(b, i - 1));
    }
  }

  /** Masking first changes none of the digits. */
  lemma {:induction false} MaskedDigits(b: Base, v: int, n: nat)
    ensures Digits(b, v % Pow(b, n), n) == Digits(b, v, n)
    decreases n
  {
    if n > 0 {
      var m := Pow(b, n - 1);
      SplitMod(b, v, m);
      DivMod(High(b, v), m);
      MaskedDigits(b, High(b, v), n - 1);
      assert High(b, v % Pow(b, n)) == High(b, v) % m && Low(b, v % Pow(b, n)) == Low(b, v);
    }
  }

  lemma Regroup(r: int, x: int, v: int, d: int, p: int)
    ensures x + r * (v + d * p) == (x + r * v) + d * (r * p)
  {
    assert r * (d * p) == d * (r * p);
  }

  lemma {:induction false} ValueAppend(b: Base, ds: seq<nat>, d: nat)
    ensures Value(b, ds + [d]) == Value(b, ds) + d * Pow(b, |ds|)
  {
    if ds == [] {
      assert ds + [d] == [d] && [d][1..] == [];
    } else {
      assert (ds + [d])[1..] == ds[1..] + [d];
      ValueAppend(b, ds[1..], d);
      Regroup(Radix(b), ds[0], Value(b, ds[1..]), d, Pow(b, |ds| - 1));
    }
  }

  lemma {:induction false} ReverseAppend<T>(s: seq<T>, x: T)
    ensures Reverse(s + [x]) == [x] + Reverse(s)
  {
    if s != [] {
      assert (s + [x])[1..] == s[1..] + [x];
      ReverseAppend(s[1..], x);
    }
  }

  lemma {:induction false} ReverseTwice<T>(s: seq<T>)
    ensures Reverse(Reverse(s)) == s
  {
    if s != [] {
      ReverseTwice(s[1..]);
      ReverseAppend(Reverse(s[1..]), s[0]);
    }
  }

  lemma {:induction false} ReverseAt<T>(s: seq<T>, i: nat)
    requires i < |s|
    ensures Reverse(s)[i] == s[|s| - 1 - i]
  {
    if i < |s| - 1 {
      ReverseAt(s[1..], i);
    }
  }

  /** The weights of the bytes of a 64-bit integer. */
  lemma ByteWeights()
    ensures Pow(Byte, 0) == 1 && Pow(Byte, 1) == 0x100 && Pow(Byte, 2) == 0x1_0000
    ensures Pow(Byte, 3) == 0x100_0000 && Pow(Byte, 4) == 0x1_0000_0000
    ensures Pow(Byte, 5) == 0x100_0000_0000 && Pow(Byte, 6) == 0x1_0000_0000_0000
    ensures Pow(Byte, 7) == 0x100_0000_0000_0000 && Pow(Byte, 8) == 0x1_0000_0000_0000_0000
  {
    assert Pow(Byte, 2) == 0x1_0000;
    assert Pow(Byte, 4) == 0x1_0000_0000;
    assert Pow(Byte, 6) == 0x1_0000_0000_0000;
  }
}
