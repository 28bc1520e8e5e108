/** The sort of the client's thread view (pkg/client/format.go:141-151): a nested loop that exchanges
    replies, under a comment that asks for a stable sort. */
module ThreadSort {
  import opened Wrappers

  datatype Reply = Reply(id: nat, parent: Option<nat>, at: int)

  ghost predicate DistinctIds(s: seq<Reply>) {
    forall i, j :: 0 <= i < j < |s| ==> s[i].id != s[j].id
  }

  // ---------------------------------------------------------------- the exchange sort

  /** The inner loop from `j` on: position `i` takes every earlier message it meets. */
  function Pass(s: seq<Reply>, i: nat, j: nat): (r: seq<Reply>)
    requires i < j <= |s|
    ensures |r| == |s|
    decreases |s| - j
  {
    if j == |s| then s
    else Pass(if s[j].at < s[i].at then s[i := s[j]][j := s[i]] else s, i, j + 1)
  }

  function Passes(s: seq<Reply>, i: nat): (r: seq<Reply>)
    requires i <= |s|
    ensures |r| == |s|
    decreases |s| - i
  {
    if i == |s| then s else Passes(Pass(s, i, i + 1), i + 1)
  }

  function Exchanged(s: seq<Reply>): (r: seq<Reply>)
    ensures |r| == |s|
  {
    Passes(s, 0)
  }

  ghost predicate SortedByTime(s: seq<Reply>) {
    forall i, j :: 0 <= i < j < |s| ==> s[i].at <= s[j].at
  }

  /** What a pass leaves at position `i`, and behind it. */
  function Sweep(held: Reply, rest: seq<Reply>): (r: (Reply, seq<Reply>))
    ensures |r.1| == |rest|
    decreases |rest|
  {
    if rest == [] then (held, [])
    else if rest[0].at < held.at then
      var r := Sweep(rest[0], rest[1..]);
      (r.0, [held] + r.1)
    else
      var r := Sweep(held, rest[1..]);
      (r.0, [rest[0]] + r.1)
  }

  /** `t` is `s` with the places `i` and `j` exchanged, or `s` itself. */
  lemma Spliced(s: seq<Reply>, t: seq<Reply>, i: nat, j: nat, front: Reply, rest: seq<Reply>)
    requires i < j < |s| == |t| && (t == s || t == s[i := s[j]][j := s[i]])
    ensures t[..i] + [front] + t[i + 1..j + 1] + rest == s[..i] + [front] + s[i + 1..j] + ([t[j]] + rest)
    ensures s[j..][0] == s[j] && s[j..][1..] == t[j + 1..]
  {
    assert t[..i] == s[..i];
    assert t[i + 1..j + 1] == s[i + 1..j] + [t[j]];
    assert s[j..][1..] == t[j + 1..];
  }

  lemma NothingLeft(s: seq<Reply>, i: nat)
    requires i < |s|
    ensures s == s[..i] + [s[i]] + s[i + 1..|s|] + s[|s|..] && s[|s|..] == []
  {
  }

  lemma {:induction false} PassIsSweep(s: seq<Reply>, i: nat, j: nat)
    requires i < j <= |s|
    ensures var r := Sweep(s[i], s[j..]); Pass(s, i, j) == s[..i] + [r.0] + s[i + 1..j] + r.1
    decreases |s| - j
  {
    if j == |s| {
      NothingLeft(s, i);
    } else if s[j].at < s[i].at {
      var t := s[i := s[j]][j := s[i]];
      var r := Sweep(t[i], t[j + 1..]);
      PassIsSweep(t, i, j + 1);
      Spliced(s, t, i, j, r.0, r.1);
    } else {
      var r := Sweep(s[i], s[j + 1..]);
      PassIsSweep(s, i, j + 1);
      Spliced(s, s, i, j, r.0, r.1);
    }
  }

  lemma Prepended(x: Reply, s: seq<Reply>)
    ensures multiset([x] + s) == multiset{x} + multiset(s)
  {
  }

  lemma PutIn(a: multiset<Reply>, b: multiset<Reply>, x: multiset<Reply>)
    requires a == b
    ensures x + a == x + b
  {
  }

  lemma Regrouped(a: multiset<Reply>, x: multiset<Reply>, s: multiset<Reply>)
    ensures a + (x + s) == x + (a + s)
  {
  }

  lemma {:induction false} SweepFacts(held: Reply, rest: seq<Reply>)
    ensures var r := Sweep(held, rest);
      && multiset{r.0} + multiset(r.1) == multiset{held} + multiset(rest)
      && r.0.at <= held.at
      && forall x :: x in r.1 ==> r.0.at <= x.at
    decreases |rest|
  {
    if rest != [] {
      var swap := rest[0].at < held.at;
      var least, more := if swap then rest[0] else held, if swap then held else rest[0];
      SweepFacts(least, rest[1..]);
      var r := Sweep(least, rest[1..]);
      SweepStep(r.0, r.1, least, rest[1..], more);
      assert rest == [rest[0]] + rest[1..];
      Prepended(rest[0], rest[1..]);
      Regrouped(multiset{more}, multiset{least}, multiset(rest[1..]));
    }
  }

  lemma SweepStep(a: Reply, s: seq<Reply>, b: Reply, t: seq<Reply>, x: Reply)
    requires multiset{a} + multiset(s) == multiset{b} + multiset(t)
    ensures multiset{a} + multiset([x] + s) == multiset{x} + (multiset{b} + multiset(t))
  {
    Prepended(x, s);
    Regrouped(multiset{a}, multiset{x}, multiset(s));
    PutIn(multiset{a} + multiset(s), multiset{b} + multiset(t), multiset{x});
  }

  lemma PassFacts(s: seq<Reply>, i: nat)
    requires i < |s|
    ensures var t := Pass(s, i, i + 1);
      && multiset(t) == multiset(s)
      && t[..i] == s[..i]
      && forall k :: i < k < |s| ==> t[i].at <= t[k].at
  {
    hide Pass, Sweep;
    var t, r := Pass(s, i, i + 1), Sweep(s[i], s[i + 1..]);
    PassIsSweep(s, i, i + 1);
    SweepFacts(s[i], s[i + 1..]);
    Prepended(r.0, r.1);
    Prepended(s[i], s[i + 1..]);
    assert t == s[..i] + ([r.0] + r.1);
    assert s == s[..i] + ([s[i]] + s[i + 1..]);
    assert multiset(t) == multiset(s[..i]) + multiset([r.0] + r.1);
    forall k | i < k < |s| ensures t[i].at <= t[k].at {
      assert t[k] == r.1[k - i - 1];
    }
  }

  lemma FromBoth(s: seq<Reply>, t: seq<Reply>, i: nat, bound: int)
    requires i <= |s| == |t| && multiset(s) == multiset(t) && s[..i] == t[..i]
    requires forall k :: i <= k < |s| ==> bound <= s[k].at
    ensures forall k :: i <= k < |t| ==> bound <= t[k].at
  {
    assert s == s[..i] + s[i..] && t == t[..i] + t[i..];
    assert multiset(s) == multiset(s[..i]) + multiset(s[i..]);
    assert multiset(t) == multiset(t[..i]) + multiset(t[i..]);
    forall k | i <= k < |t| ensures bound <= t[k].at {
      var x := t[k];
      assert x == t[i..][k - i];
      assert x in multiset(t[i..]);
      assert multiset(s)[x] == multiset(s[..i])[x] + multiset(s[i..])[x];
      assert multiset(t)[x] == multiset(t[..i])[x] + multiset(t[i..])[x];
      assert x in multiset(s[i..]);
      assert x in s[i..];
    }
  }

  lemma {:induction false} PassesFacts(s: seq<Reply>, i: nat)
    requires i <= |s|
    requires forall j, k :: 0 <= j < k < |s| && j < i ==> s[j].at <= s[k].at
    ensures multiset(Passes(s, i)) == multiset(s) && SortedByTime(Passes(s, i))
    decreases |s| - i
  {
    if i < |s| {
      var t := Pass(s, i, i + 1);
      PassFacts(s, i);
      forall j, k | 0 <= j < k < |t| && j < i + 1 ensures t[j].at <= t[k].at {
        if j < i {
          assert t[j] == s[..i][j] == s[j];
          if k < i {
            assert t[k] == s[..i][k] == s[k];
          } else {
            FromBoth(s, t, i, s[j].at);
          }
        }
      }
      PassesFacts(t, i + 1);
    }
  }

  /** The exchange sort orders by time and loses and invents nothing. */
  lemma ExchangedSorts(s: seq<Reply>)
    ensures SortedByTime(Exchanged(s)) && multiset(Exchanged(s)) == multiset(s)
  {
    PassesFacts(s, 0);
  }

  /** It is not the stable sort its comment asks for: here two simultaneous replies change places. */
  lemma ExchangeNotStable()
    ensures var a, b, c := Reply(1, Some(9), 2), Reply(2, Some(9), 2), Reply(3, Some(9), 1);
      Exchanged([a, b, c]) == [c, b, a]
  {
    var a, b, c := Reply(1, Some(9), 2), Reply(2, Some(9), 2), Reply(3, Some(9), 1);
    assert Pass([a, b, c], 0, 1) == [c, b, a] by {
      assert [a, b, c][0 := c][2 := a] == [c, b, a];
      assert Pass([a, b, c], 0, 2) == Pass([c, b, a], 0, 3);
    }
    assert Passes([c, b, a], 1) == [c, b, a] by {
      assert Pass([c, b, a], 1, 2) == Pass([c, b, a], 1, 3) == [c, b, a];
      assert Passes([c, b, a], 2) == Passes(Pass([c, b, a], 2, 3), 3) == [c, b, a];
    }
  }

  /** The replies posted at time `t`, in order. */
  function PostedAt(s: seq<Reply>, t: int): seq<Reply> {
    if s == [] then [] else (if s[0].at == t then [s[0]] else []) + PostedAt(s[1..], t)
  }

  lemma {:induction false} PostedAtAppend(a: seq<Reply>, b: seq<Reply>, t: int)
    ensures PostedAt(a + b, t) == PostedAt(a, t) + PostedAt(b, t)
  {
    if a == [] {
      assert a + b == b;
    } else {
      PostedAtAppend(a[1..], b, t);
      PostedAtHead(a, t);
      PostedAtHead(a + b, t);
      HeadFirst(a, b, t);
    }
  }

  lemma PostedAtHead(s: seq<Reply>, t: int)
    requires s != []
    ensures PostedAt(s, t) == (if s[0].at == t then [s[0]] else []) + PostedAt(s[1..], t)
  {
  }

  lemma HeadFirst(a: seq<Reply>, b: seq<Reply>, t: int)
    requires a != [] && PostedAt(a[1..] + b, t) == PostedAt(a[1..], t) + PostedAt(b, t)
    ensures (a + b)[0] == a[0] && (a + b)[1..] == a[1..] + b
    ensures (if a[0].at == t then [a[0]] else []) + PostedAt((a + b)[1..], t)
         == (if a[0].at == t then [a[0]] else []) + PostedAt(a[1..], t) + PostedAt(b, t)
  {
    hide PostedAt;
    assert (a + b)[1..] == a[1..] + b;
  }

  // ---------------------------------------------------------------- one pass, as it looks from one time

  /** The replies of time `t`, and gaps where older ones stand; newer ones do not show. */
  function Word(s: seq<Reply>, t: int): seq<Option<Reply>> {
    if s == [] then []
    else (if s[0].at == t then [Some(s[0])] else if s[0].at < t then [None] else []) + Word(s[1..], t)
  }

  /** A reply of time `t` goes to the first gap it meets, or falls out. */
  function Carry(x: Reply, w: seq<Option<Reply>>): seq<Option<Reply>> {
    if w == [] then [] else if w[0] == None then [Some(x)] + w[1..] else [w[0]] + Carry(x, w[1..])
  }

  predicate Gap(w: seq<Option<Reply>>) {
    None in w
  }

  /** What one pass makes of a word. */
  function Turn(w: seq<Option<Reply>>): seq<Option<Reply>> {
    if w == [] then [] else if w[0] == None then w[1..] else Carry(w[0].value, w[1..])
  }

  lemma GapCons(x: Option<Reply>, w: seq<Option<Reply>>)
    ensures Gap([x] + w) <==> x == None || Gap(w)
    ensures ([x] + w)[1..] == w
  {
  }

  /** An older reply in hand does nothing to the word. */
  lemma {:induction false} SweepOlder(held: Reply, rest: seq<Reply>, t: int)
    requires held.at < t
    ensures var r := Sweep(held, rest); r.0.at < t && Word(r.1, t) == Word(rest, t)
    decreases |rest|
  {
    if rest != [] {
      var next := if rest[0].at < held.at then rest[0] else held;
      SweepOlder(next, rest[1..], t);
      var r := Sweep(next, rest[1..]);
      var placed := if rest[0].at < held.at then held else rest[0];
      assert ([placed] + r.1)[1..] == r.1;
    }
  }

  /** A reply of time `t` in hand is carried to the first gap. */
  lemma {:induction false} SweepTie(held: Reply, rest: seq<Reply>, t: int)
    requires held.at == t
    ensures var r := Sweep(held, rest);
      && Word(r.1, t) == Carry(held, Word(rest, t))
      && (if Gap(Word(rest, t)) then r.0.at < t else r.0 == held)
    decreases |rest|
  {
    if rest != [] {
      var w := Word(rest[1..], t);
      if rest[0].at < t {
        SweepOlder(rest[0], rest[1..], t);
        GapCons(None, w);
        var r := Sweep(rest[0], rest[1..]);
        assert ([held] + r.1)[1..] == r.1;
      } else {
        SweepTie(held, rest[1..], t);
        var r := Sweep(held, rest[1..]);
        assert ([rest[0]] + r.1)[1..] == r.1;
        if rest[0].at == t {
          GapCons(Some(rest[0]), w);
        } else {
          assert [] + w == w && [] + Word(r.1, t) == Word(r.1, t);
        }
      }
    }
  }

  /** A newer reply in hand is exchanged for the first that shows. */
  lemma {:induction false} SweepNewer(held: Reply, rest: seq<Reply>, t: int)
    requires held.at > t
    ensures var r, w := Sweep(held, rest), Word(rest, t);
      && Word(r.1, t) == Turn(w)
      && (w == [] ==> r.0.at > t)
      && (w != [] ==> if Gap(w) then r.0.at < t else Some(r.0) == w[0])
    decreases |rest|
  {
    if rest != [] {
      var w := Word(rest[1..], t);
      if rest[0].at > t {
        var next := if rest[0].at < held.at then rest[0] else held;
        SweepNewer(next, rest[1..], t);
        var r := Sweep(next, rest[1..]);
        var placed := if rest[0].at < held.at then held else rest[0];
        assert ([placed] + r.1)[1..] == r.1;
        assert [] + w == w && [] + Word(r.1, t) == Word(r.1, t);
      } else {
        var r := Sweep(rest[0], rest[1..]);
        assert ([held] + r.1)[1..] == r.1 && [] + Word(r.1, t) == Word(r.1, t);
        if rest[0].at < t {
          SweepOlder(rest[0], rest[1..], t);
          GapCons(None, w);
        } else {
          SweepTie(rest[0], rest[1..], t);
          GapCons(Some(rest[0]), w);
        }
      }
    }
  }

  /** In all: a pass turns the word, and puts in front what falls out of it. */
  lemma SweepTurns(s: seq<Reply>, t: int)
    requires s != []
    ensures var r, w := Sweep(s[0], s[1..]), Word(s, t);
      && Word(r.1, t) == Turn(w)
      && (r.0.at == t <==> w != [] && !Gap(w))
      && (r.0.at == t ==> w[0] == Some(r.0))
  {
    var w := Word(s[1..], t);
    if s[0].at < t {
      SweepOlder(s[0], s[1..], t);
      GapCons(None, w);
    } else if s[0].at == t {
      SweepTie(s[0], s[1..], t);
      GapCons(Some(s[0]), w);
    } else {
      SweepNewer(s[0], s[1..], t);
      assert [] + w == w;
    }
  }

  // ---------------------------------------------------------------- all passes

  function Ties(w: seq<Option<Reply>>): seq<Reply> {
    if w == [] then [] else (if w[0] == None then [] else [w[0].value]) + Ties(w[1..])
  }

  function Rotated(q: seq<Reply>): seq<Reply> {
    if q == [] then [] else q[1..] + [q[0]]
  }

  /** Each gap rotates the replies before it by one place. */
  function Out(before: seq<Reply>, w: seq<Option<Reply>>): seq<Reply>
    decreases |w|
  {
    if w == [] then before
    else if w[0] == None then Out(Rotated(before), w[1..])
    else Out(before + [w[0].value], w[1..])
  }

  lemma {:induction false} OutWithoutGap(before: seq<Reply>, w: seq<Option<Reply>>)
    requires !Gap(w)
    ensures Out(before, w) == before + Ties(w)
    decreases |w|
  {
    if w == [] {
      assert before + [] == before;
    } else {
      assert w == [w[0]] + w[1..];
      GapCons(w[0], w[1..]);
      OutWithoutGap(before + [w[0].value], w[1..]);
      assert before + [w[0].value] + Ties(w[1..]) == before + Ties(w);
    }
  }

  lemma {:induction false} CarryRotates(before: seq<Reply>, x: Reply, w: seq<Option<Reply>>)
    requires Gap(w)
    ensures Out(before, Carry(x, w)) == Out([x] + before, w)
    decreases |w|
  {
    assert w == [w[0]] + w[1..];
    GapCons(w[0], w[1..]);
    if w[0] == None {
      GapCons(Some(x), w[1..]);
      assert Rotated([x] + before) == before + [x];
    } else {
      GapCons(w[0], Carry(x, w[1..]));
      CarryRotates(before + [w[0].value], x, w[1..]);
      assert [x] + (before + [w[0].value]) == [x] + before + [w[0].value];
    }
  }

  /** A turn, and what falls out, leave what comes out in the end unchanged. */
  lemma TurnKeepsOut(w: seq<Option<Reply>>)
    ensures w == [] || Gap(w) ==> Out([], Turn(w)) == Out([], w)
    ensures w != [] && !Gap(w) ==> w[0].Some? && [w[0].value] + Out([], Turn(w)) == Out([], w)
  {
    if w != [] {
      assert w == [w[0]] + w[1..];
      GapCons(w[0], w[1..]);
      if w[0] == None {
        assert Rotated([]) == [];
      } else if Gap(w) {
        CarryRotates([], w[0].value, w[1..]);
        assert [w[0].value] + [] == [] + [w[0].value];
      } else {
        CarryNowhere(w[0].value, w[1..]);
        OutWithoutGap([], w);
        OutWithoutGap([], w[1..]);
        assert [] + Ties(w) == Ties(w) && [] + Ties(w[1..]) == Ties(w[1..]);
      }
    }
  }

  lemma {:induction false} CarryNowhere(x: Reply, w: seq<Option<Reply>>)
    requires !Gap(w)
    ensures Carry(x, w) == w
  {
    if w != [] {
      assert w == [w[0]] + w[1..];
      GapCons(w[0], w[1..]);
      CarryNowhere(x, w[1..]);
    }
  }

  /** What the sort makes of the replies of time `t`. */
  lemma {:induction false} PassesOut(s: seq<Reply>, i: nat, t: int)
    requires i <= |s|
    ensures PostedAt(Passes(s, i), t) == PostedAt(s[..i], t) + Out([], Word(s[i..], t))
    decreases |s| - i
  {
    hide Pass, Sweep, Turn, Gap;
    if i == |s| {
      assert s[..i] == s && s[i..] == [] && PostedAt(s, t) + [] == PostedAt(s, t);
    } else {
      var p := Pass(s, i, i + 1);
      var r, w := Sweep(s[i], s[i + 1..]), Word(s[i..], t);
      PassIsSweep(s, i, i + 1);
      assert s[i..][0] == s[i] && s[i..][1..] == s[i + 1..] && s[i + 1..i + 1] == [];
      assert p == s[..i] + [r.0] + r.1;
      assert p[..i + 1] == s[..i] + [r.0] && p[i + 1..] == r.1;
      PassesOut(p, i + 1, t);
      SweepTurns(s[i..], t);
      TurnKeepsOut(w);
      PostedAtAppend(s[..i], [r.0], t);
      PostedAtOne(r.0, t);
      assert PostedAt(s[..i], t) + [] == PostedAt(s[..i], t);
      assert PostedAt(s[..i], t) + [r.0] + Out([], Turn(w)) == PostedAt(s[..i], t) + ([r.0] + Out([], Turn(w)));
    }
  }

  lemma PostedAtOne(x: Reply, t: int)
    ensures PostedAt([x], t) == if x.at == t then [x] else []
  {
    assert [x][1..] == [];
  }

  lemma ExchangedOut(s: seq<Reply>, t: int)
    ensures PostedAt(Exchanged(s), t) == Out([], Word(s, t))
  {
    PassesOut(s, 0, t);
    assert s[..0] == [] && s[0..] == s && [] + Out([], Word(s, t)) == Out([], Word(s, t));
  }

  // ---------------------------------------------------------------- when it is stable

  function RotatedBy(q: seq<Reply>, k: nat): seq<Reply>
    decreases k
  {
    if k == 0 then q else RotatedBy(Rotated(q), k - 1)
  }

  function LeadingGaps(w: seq<Option<Reply>>): nat {
    if w == [] || w[0].Some? then 0 else 1 + LeadingGaps(w[1..])
  }

  predicate Divides(m: nat, c: nat)
    requires m > 0
  {
    c % m == 0
  }

  /** After each reply, the gaps up to the next one turn all replies so far round completely. */
  predicate FullTurns(n: nat, w: seq<Option<Reply>>)
    decreases |w|
  {
    if w == [] then true
    else if w[0] == None then FullTurns(n, w[1..])
    else Divides(n + 1, LeadingGaps(w[1..])) && FullTurns(n + 1, w[1..])
  }

  lemma {:induction false} RotatedByAt(q: seq<Reply>, k: nat, i: nat)
    requires i < |q|
    ensures |RotatedBy(q, k)| == |q| && RotatedBy(q, k)[i] == q[(i + k) % |q|]
    decreases k
  {
    if k > 0 {
      RotatedByAt(Rotated(q), k - 1, i);
      var j := (i + k - 1) % |q|;
      assert Rotated(q)[j] == if j < |q| - 1 then q[j + 1] else q[0];
      NextModulo(i + k - 1, |q|);
    }
  }

  lemma NextModulo(m: nat, n: nat)
    requires n > 0
    ensures (m + 1) % n == if m % n < n - 1 then m % n + 1 else 0
  {
    var q, r := m / n, m % n;
    assert m == n * q + r;
    if r < n - 1 {
      assert m + 1 == n * q + (r + 1);
      Remainder(m + 1, n, q, r + 1);
    } else {
      assert n * (q + 1) == n * q + n;
      Remainder(m + 1, n, q + 1, 0);
    }
  }

  lemma Remainder(x: nat, n: nat, q: nat, r: nat)
    requires r < n && x == n * q + r
    ensures x % n == r
  {
    var d := x / n - q;
    assert n * d == r - x % n;
    if d >= 1 {
      AtLeastOnce(n, d);
    } else if d <= -1 {
      AtLeastOnce(n, -d);
      assert n * d == -(n * -d);
    }
  }

  lemma AtLeastOnce(n: nat, d: int)
    requires d >= 1
    ensures n * d >= n
  {
  }

  ghost predicate NoRepeat(q: seq<Reply>) {
    forall i, j :: 0 <= i < j < |q| ==> q[i] != q[j]
  }

  lemma BackAtPlace(n: nat, k: nat, i: nat)
    requires i < n && Divides(n, k)
    ensures (i + k) % n == i
  {
    assert k == n * (k / n);
    Remainder(i + k, n, k / n, i);
  }

  lemma FullTurn(q: seq<Reply>, k: nat)
    requires q != [] && Divides(|q|, k)
    ensures RotatedBy(q, k) == q
  {
    hide RotatedBy;
    RotatedByAt(q, k, 0);
    forall i: nat | i < |q| ensures RotatedBy(q, k)[i] == q[i] {
      RotatedByAt(q, k, i);
      BackAtPlace(|q|, k, i);
    }
  }

  lemma NotBack(q: seq<Reply>, b: seq<Reply>, x: Reply, k: nat)
    requires |q| == |b| && x !in q && !Divides(|q| + 1, k)
    ensures RotatedBy(q + [x], k) != b + [x]
  {
    hide RotatedBy;
    var n := |q| + 1;
    RotatedByAt(q + [x], k, n - 1);
    LastMoves(n, k);
    var j := (n - 1 + k) % n;
    assert (q + [x])[j] == q[j] && q[j] in q;
    assert (b + [x])[n - 1] == x;
  }

  /** With its last element new, a list is back in order exactly after complete turns. */
  lemma TurnedBackIff(q: seq<Reply>, b: seq<Reply>, x: Reply, k: nat)
    requires |q| == |b| && x !in q
    ensures RotatedBy(q + [x], k) == b + [x] <==> Divides(|q| + 1, k) && q == b
  {
    hide RotatedBy, Divides;
    if Divides(|q| + 1, k) {
      FullTurn(q + [x], k);
      assert q == (q + [x])[..|q|] && b == (b + [x])[..|q|];
    } else {
      NotBack(q, b, x, k);
    }
  }

  lemma LastMoves(n: nat, k: nat)
    requires n > 0 && !Divides(n, k)
    ensures (n - 1 + k) % n < n - 1
  {
    var q, r := k / n, k % n;
    assert k == n * q + r;
    assert n * (q + 1) == n * q + n;
    Remainder(n - 1 + k, n, q + 1, r - 1);
  }

  lemma RotatedByOnce(q: seq<Reply>, w: seq<Option<Reply>>)
    requires w != [] && w[0] == None
    ensures RotatedBy(q, LeadingGaps(w)) == RotatedBy(Rotated(q), LeadingGaps(w[1..]))
  {
    hide Rotated;
    var k := LeadingGaps(w[1..]);
    assert LeadingGaps(w) == k + 1;
    RotatedBySucc(q, k);
  }

  lemma RotatedBySucc(q: seq<Reply>, k: nat)
    ensures RotatedBy(q, k + 1) == RotatedBy(Rotated(q), k)
  {
    hide Rotated;
  }

  lemma {:induction false} OutInOrderIff(q: seq<Reply>, b: seq<Reply>, w: seq<Option<Reply>>)
    requires |q| == |b| && NoRepeat(Ties(w)) && (forall x :: x in Ties(w) ==> x !in q && x !in b)
    ensures Out(q, w) == b + Ties(w) <==> RotatedBy(q, LeadingGaps(w)) == b && FullTurns(|q|, w)
    decreases |w|
  {
    hide RotatedBy;
    if w == [] {
      RotatedByNone(q);
      assert b + [] == b;
    } else if w[0] == None {
      RotatedByOnce(q, w);
      RotatedKeeps(q);
      assert [] + Ties(w[1..]) == Ties(w[1..]);
      OutInOrderIff(Rotated(q), b, w[1..]);
    } else {
      var x, rest := w[0].value, Ties(w[1..]);
      assert Ties(w) == [x] + rest;
      assert x in Ties(w) && forall y :: y in rest ==> y in Ties(w);
      TailNoRepeat(x, rest);
      assert b + ([x] + rest) == b + [x] + rest;
      OutInOrderIff(q + [x], b + [x], w[1..]);
      TurnedBackIff(q, b, x, LeadingGaps(w[1..]));
      RotatedByNone(q);
    }
  }

  lemma RotatedByNone(q: seq<Reply>)
    ensures RotatedBy(q, 0) == q
  {
  }

  lemma RotatedKeeps(q: seq<Reply>)
    ensures |Rotated(q)| == |q| && forall x :: x in Rotated(q) <==> x in q
  {
    if q != [] {
      assert q == [q[0]] + q[1..];
    }
  }

  lemma TailNoRepeat(x: Reply, rest: seq<Reply>)
    requires NoRepeat([x] + rest)
    ensures NoRepeat(rest) && x !in rest
  {
    forall i, j | 0 <= i < j < |rest| ensures rest[i] != rest[j] {
      assert ([x] + rest)[i + 1] == rest[i] && ([x] + rest)[j + 1] == rest[j];
    }
    forall i | 0 <= i < |rest| ensures rest[i] != x {
      assert ([x] + rest)[0] == x && ([x] + rest)[i + 1] == rest[i];
    }
  }

  /** How many replies older than `t` stand after exactly `p` replies of time `t`. */
  function OlderAfter(s: seq<Reply>, t: int, p: nat): nat {
    if s == [] then 0
    else if s[0].at == t then (if p == 0 then 0 else OlderAfter(s[1..], t, p - 1))
    else (if p == 0 && s[0].at < t then 1 else 0) + OlderAfter(s[1..], t, p)
  }

  /** After `p` replies of time `t`, and `n` before this list, the older ones make complete turns. */
  predicate Complete(s: seq<Reply>, t: int, n: nat, p: nat)
    requires p >= 1
  {
    Divides(n + p, OlderAfter(s, t, p))
  }

  ghost predicate AllComplete(s: seq<Reply>, t: int, n: nat) {
    forall p: nat :: p >= 1 ==> Complete(s, t, n, p)
  }

  lemma {:induction false} WordCounts(s: seq<Reply>, t: int, n: nat)
    ensures LeadingGaps(Word(s, t)) == OlderAfter(s, t, 0)
    ensures FullTurns(n, Word(s, t)) <==> AllComplete(s, t, n)
    ensures Ties(Word(s, t)) == PostedAt(s, t)
    decreases |s|
  {
    hide Divides, AllComplete;
    if s == [] {
      NoneComplete(t, n);
    } else {
      var w := Word(s[1..], t);
      if s[0].at == t {
        GapCons(Some(s[0]), w);
        WordCounts(s[1..], t, n + 1);
        ShiftCounts(s, t, n, n + 1);
      } else {
        WordCounts(s[1..], t, n);
        SameCounts(s, t, n);
        if s[0].at < t {
          GapCons(None, w);
          assert [] + Ties(w) == Ties(w) && [] + PostedAt(s[1..], t) == PostedAt(s[1..], t);
        } else {
          assert [] + w == w && [] + PostedAt(s[1..], t) == PostedAt(s[1..], t);
        }
      }
    }
  }

  lemma NoneComplete(t: int, n: nat)
    ensures AllComplete([], t, n)
  {
    forall p: nat | p >= 1 ensures Complete([], t, n, p) {
      Remainder(0, n + p, 0, 0);
    }
  }

  lemma SameCounts(s: seq<Reply>, t: int, n: nat)
    requires s != [] && s[0].at != t
    ensures AllComplete(s, t, n) <==> AllComplete(s[1..], t, n)
  {
    hide Divides;
    assert forall p: nat :: p >= 1 ==> (Complete(s, t, n, p) <==> Complete(s[1..], t, n, p));
  }

  lemma ShiftOne(s: seq<Reply>, t: int, n: nat, m: nat, p: nat)
    requires s != [] && s[0].at == t && m == n + 1 && p >= 1
    ensures Complete(s, t, n, p) <==>
            if p == 1 then Divides(m, OlderAfter(s[1..], t, 0)) else Complete(s[1..], t, m, p - 1)
  {
    hide Divides;
  }

  lemma ShiftCounts(s: seq<Reply>, t: int, n: nat, m: nat)
    requires s != [] && s[0].at == t && m == n + 1
    ensures AllComplete(s, t, n) <==> Divides(m, OlderAfter(s[1..], t, 0)) && AllComplete(s[1..], t, m)
  {
    hide Divides, Complete;
    if AllComplete(s, t, n) {
      ShiftOne(s, t, n, m, 1);
      forall p: nat | p >= 1 ensures Complete(s[1..], t, m, p) {
        ShiftOne(s, t, n, m, p + 1);
      }
    }
    if Divides(m, OlderAfter(s[1..], t, 0)) && AllComplete(s[1..], t, m) {
      forall p: nat | p >= 1 ensures Complete(s, t, n, p) {
        ShiftOne(s, t, n, m, p);
      }
    }
  }

  lemma CompleteIff(s: seq<Reply>, t: int, p: nat)
    requires p >= 1
    ensures Complete(s, t, 0, p) <==> OlderAfter(s, t, p) % p == 0
  {
    assert 0 + p == p;
  }

  lemma AllCompleteIff(s: seq<Reply>, t: int)
    ensures AllComplete(s, t, 0) <==> forall p: nat :: p >= 1 ==> OlderAfter(s, t, p) % p == 0
  {
    if AllComplete(s, t, 0) {
      forall p: nat | p >= 1 ensures OlderAfter(s, t, p) % p == 0 {
        CompleteIff(s, t, p);
      }
    } else {
      var p: nat :| p >= 1 && !Complete(s, t, 0, p);
      CompleteIff(s, t, p);
      assert OlderAfter(s, t, p) % p != 0;
    }
  }

  lemma {:induction false} PostedAtFrom(s: seq<Reply>, t: int)
    requires DistinctIds(s)
    ensures NoRepeat(PostedAt(s, t)) && forall x :: x in PostedAt(s, t) ==> x in s
  {
    if s != [] {
      assert s == [s[0]] + s[1..];
      assert forall i :: 0 <= i < |s[1..]| ==> s[1..][i] == s[i + 1];
      PostedAtFrom(s[1..], t);
      assert s[0] !in s[1..];
    }
  }

  /** Exactly when it is stable: the replies of a time keep their order if and only if, for every
      number p from 1, the older replies that stand after exactly p of them are a multiple of p. */
  lemma StableIff(s: seq<Reply>, t: int)
    requires DistinctIds(s)
    ensures PostedAt(Exchanged(s), t) == PostedAt(s, t) <==>
            forall p: nat :: p >= 1 ==> OlderAfter(s, t, p) % p == 0
  {
    hide DistinctIds, Exchanged, Out, Word, FullTurns, LeadingGaps, AllComplete, OlderAfter, PostedAt, Ties;
    hide NoRepeat, RotatedBy;
    ExchangedOut(s, t);
    WordCounts(s, t, 0);
    PostedAtFrom(s, t);
    OutInOrderIff([], [], Word(s, t));
    assert [] + PostedAt(s, t) == PostedAt(s, t);
    NothingRotates(LeadingGaps(Word(s, t)));
    AllCompleteIff(s, t);
  }

  lemma {:induction false} NothingRotates(k: nat)
    ensures RotatedBy([], k) == []
  {
    if k > 0 {
      NothingRotates(k - 1);
    }
  }

  /** No two simultaneous replies stand before an older one. */
  ghost predicate NoTieBeforeOlder(s: seq<Reply>) {
    forall i, j, k :: 0 <= i < j < k < |s| && s[i].at == s[j].at ==> s[i].at <= s[k].at
  }

  lemma {:induction false} NoneOlderAfterOne(s: seq<Reply>, t: int, p: nat)
    requires p >= 1 && forall j, k :: 0 <= j < k < |s| && s[j].at == t ==> t <= s[k].at
    ensures OlderAfter(s, t, p) == 0
    decreases |s|
  {
    if s != [] {
      assert forall i :: 0 <= i < |s[1..]| ==> s[1..][i] == s[i + 1];
      if s[0].at == t {
        NoneOlder(s[1..], t, p - 1);
      } else {
        NoneOlderAfterOne(s[1..], t, p);
      }
    }
  }

  lemma {:induction false} NoneOlder(s: seq<Reply>, t: int, p: nat)
    requires forall k :: 0 <= k < |s| ==> t <= s[k].at
    ensures OlderAfter(s, t, p) == 0
    decreases |s|
  {
    if s != [] {
      NoneOlder(s[1..], t, if s[0].at == t && p > 0 then p - 1 else p);
    }
  }

  lemma {:induction false} NoneOlderAfterTwo(s: seq<Reply>, t: int, p: nat)
    requires p >= 2 && NoTieBeforeOlder(s)
    ensures OlderAfter(s, t, p) == 0
    decreases |s|
  {
    if s != [] {
      assert forall i :: 0 <= i < |s[1..]| ==> s[1..][i] == s[i + 1];
      if s[0].at == t {
        forall j, k | 0 <= j < k < |s[1..]| && s[1..][j].at == t ensures t <= s[1..][k].at {
          assert s[0].at == s[j + 1].at;
        }
        NoneOlderAfterOne(s[1..], t, p - 1);
      } else {
        NoneOlderAfterTwo(s[1..], t, p);
      }
    }
  }

  /** So it is stable whenever no two simultaneous replies stand before an older one, as when the
      server lists replies oldest first. */
  lemma ExchangeStableWithoutTies(s: seq<Reply>, t: int)
    requires DistinctIds(s) && NoTieBeforeOlder(s)
    ensures PostedAt(Exchanged(s), t) == PostedAt(s, t)
  {
    hide Exchanged, PostedAt, NoTieBeforeOlder;
    StableIff(s, t);
    forall p: nat | p >= 1 ensures OlderAfter(s, t, p) % p == 0 {
      if p >= 2 {
        NoneOlderAfterTwo(s, t, p);
      }
    }
  }

  method ExchangeSort(a: array<Reply>)
    modifies a
    ensures a[..] == Exchanged(old(a[..]))
  {
    for i := 0 to a.Length
      invariant Passes(a[..], i) == Exchanged(old(a[..]))
    {
      ghost var start := a[..];
      for j := i + 1 to a.Length
        invariant Pass(a[..], i, j) == Pass(start, i, i + 1)
      {
        if a[j].at < a[i].at {
          a[i], a[j] := a[j], a[i];
        }
      }
    }
  }
}
