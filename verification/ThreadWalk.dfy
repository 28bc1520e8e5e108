/** The thread walk of ListThreadReplies (pkg/database/memdb.go:783-843): a depth-first walk over
    the parent index that skips, together with everything below it, each message that is gone,
    deleted or outside the page filter. */
module ThreadWalk {
  import opened Messages
  import opened Wrappers

  /** A page filter: only IDs below `before` and above `after`. */
  datatype Filter = Filter(before: Option<nat>, after: Option<nat>)

  const EVERYTHING := Filter(None, None)

  predicate Passes(f: Filter, id: nat) {
    && (f.before.Some? ==> id < f.before.value)
    && (f.after.Some? ==> f.after.value < id)
  }

  /** What a walk reads: the parent index, the messages and the highest ID in use. */
  datatype Forest = Forest(byParent: Index, rows: map<nat, Row>, last: nat)

  /** The index is exact and replies come after their parent. */
  ghost predicate Grown(t: Forest) {
    && Exact(t.byParent, t.rows, ByParent)
    && forall id :: id in t.rows ==> id <= t.last && (t.rows[id].parentId.Some? ==> t.rows[id].parentId.value < id)
  }

  predicate Shown(t: Forest, f: Filter, id: nat) {
    Passes(f, id) && id in t.rows && Live(t.rows[id])
  }

  ghost predicate ListedUnder(t: Forest, p: nat, ids: seq<nat>) {
    forall id :: id in ids ==> id in At(t.byParent, p)
  }

  function Below(t: Forest, p: nat): nat {
    if p <= t.last then t.last - p + 1 else 0
  }

  /** The walk below `p`, without a limit. */
  function Walk(t: Forest, f: Filter, p: nat): seq<nat>
    requires Grown(t)
    decreases Below(t, p), 1, 0
  {
    WalkList(t, f, p, At(t.byParent, p))
  }

  /** The part of the walk below `p` that starts at its replies `ids`. */
  function WalkList(t: Forest, f: Filter, p: nat, ids: seq<nat>): seq<nat>
    requires Grown(t) && ListedUnder(t, p, ids)
    decreases Below(t, p), 0, |ids|
  {
    if ids == [] then []
    else
      var id := ids[0];
      assert forall x :: x in ids[1..] ==> x in ids;
      if Shown(t, f, id) then
        assert t.rows[id].parentId == Some(p);
        [id] + Walk(t, f, id) + WalkList(t, f, p, ids[1..])
      else WalkList(t, f, p, ids[1..])
  }

  /** The limit cuts the result; 0 means no limit. */
  function Cut(s: seq<nat>, limit: nat): seq<nat> {
    if limit > 0 && |s| > limit then s[..limit] else s
  }

  lemma CutTwice(a: seq<nat>, b: seq<nat>, limit: nat)
    ensures Cut(Cut(a, limit) + b, limit) == Cut(a + b, limit)
  {
  }

  // ---------------------------------------------------------------- who is in a walk

  /** `id` is live and inside the page filter, and so is every message on the way up from it to
      `top`. */
  predicate Descends(t: Forest, f: Filter, top: nat, id: nat)
    decreases id
  {
    && id in t.rows && t.rows[id].deletedAt == None
    && (f.before.Some? ==> id < f.before.value) && (f.after.Some? ==> id > f.after.value)
    && t.rows[id].parentId.Some?
    && var p := t.rows[id].parentId.value;
       p < id && (p == top || Descends(t, f, top, p))
  }

  lemma {:induction false} DescendsBelow(t: Forest, f: Filter, top: nat, id: nat)
    requires Descends(t, f, top, id)
    ensures top < id
    decreases id
  {
    var p := t.rows[id].parentId.value;
    if p != top {
      DescendsBelow(t, f, top, p);
    }
  }

  /** From a reply `c` of `p`, the way up to `p` passes through `c`. */
  lemma {:induction false} DescendsThrough(t: Forest, f: Filter, p: nat, c: nat, id: nat)
    requires c in t.rows && t.rows[c].parentId == Some(p) && p < c
    requires Descends(t, EVERYTHING, c, id)
    ensures Descends(t, f, p, id) <==> Shown(t, f, c) && Descends(t, f, c, id)
    decreases id
  {
    DescendsBelow(t, EVERYTHING, c, id);
    var q := t.rows[id].parentId.value;
    if q != c {
      DescendsBelow(t, EVERYTHING, c, q);
      DescendsThrough(t, f, p, c, q);
    }
  }

  /** A message below two replies of one parent is below the same reply. */
  lemma {:induction false} OneWayUp(t: Forest, p: nat, c: nat, d: nat, id: nat)
    requires c in t.rows && t.rows[c].parentId == Some(p) && p < c
    requires d in t.rows && t.rows[d].parentId == Some(p) && p < d
    requires id == c || Descends(t, EVERYTHING, c, id)
    requires id == d || Descends(t, EVERYTHING, d, id)
    ensures c == d
    decreases id
  {
    if id == c && c != d {
      DescendsBelow(t, EVERYTHING, d, c);
      if p != d {
        DescendsBelow(t, EVERYTHING, d, p);
      }
      assert false;
    } else if id == d && c != d {
      if p != c {
        DescendsBelow(t, EVERYTHING, c, p);
      }
      assert false;
    } else if c != d {
      OneWayUp(t, p, c, d, t.rows[id].parentId.value);
    }
  }

  /** The walk returns exactly the messages shown together with all their ancestors below `top`. */
  lemma {:induction false} WalkMembers(t: Forest, f: Filter, p: nat, id: nat)
    requires Grown(t)
    ensures id in Walk(t, f, p) <==> Descends(t, f, p, id)
    decreases Below(t, p), 1, 0
  {
    WalkListMembers(t, f, p, At(t.byParent, p), id);
    if Descends(t, f, p, id) {
      var c := TopReply(t, f, p, id);
    }
  }

  /** The reply of `p` under which `id` descends. */
  lemma {:induction false} TopReply(t: Forest, f: Filter, p: nat, id: nat) returns (c: nat)
    requires Grown(t) && Descends(t, f, p, id)
    ensures c in At(t.byParent, p) && Shown(t, f, c) && (c == id || Descends(t, f, c, id))
    decreases id
  {
    var q := t.rows[id].parentId.value;
    if q == p {
      c := id;
    } else {
      c := TopReply(t, f, p, q);
    }
  }

  lemma {:induction false} WalkListMembers(t: Forest, f: Filter, p: nat, ids: seq<nat>, id: nat)
    requires Grown(t) && ListedUnder(t, p, ids)
    ensures id in WalkList(t, f, p, ids) <==>
      exists c :: c in ids && Shown(t, f, c) && (c == id || Descends(t, f, c, id))
    ensures id in WalkList(t, f, p, ids) ==> Descends(t, f, p, id)
    decreases Below(t, p), 0, |ids|
  {
    if ids != [] {
      var c := ids[0];
      assert ids == [c] + ids[1..];
      assert ListedUnder(t, p, ids[1..]) by {
        assert forall x :: x in ids[1..] ==> x in ids;
      }
      WalkListMembers(t, f, p, ids[1..], id);
      if Shown(t, f, c) {
        assert c in At(t.byParent, p) && t.rows[c].parentId == Some(p);
        WalkMembers(t, f, c, id);
        if Descends(t, f, c, id) {
          Widen(t, f, c, id);
          DescendsThrough(t, f, p, c, id);
        }
      }
    }
  }

  /** Whatever passes a filter is there without it. */
  lemma {:induction false} Widen(t: Forest, f: Filter, top: nat, id: nat)
    requires Descends(t, f, top, id)
    ensures Descends(t, EVERYTHING, top, id)
    decreases id
  {
    var p := t.rows[id].parentId.value;
    if p != top {
      Widen(t, f, top, p);
    }
  }

  // ---------------------------------------------------------------- each once, in the walk's order

  predicate NoRepeats(s: seq<nat>) {
    forall i, j :: 0 <= i < j < |s| ==> s[i] != s[j]
  }

  lemma AppendNoRepeats(a: seq<nat>, b: seq<nat>)
    requires NoRepeats(a) && NoRepeats(b) && forall x :: x in a ==> x !in b
    ensures NoRepeats(a + b)
  {
    forall i, j | 0 <= i < j < |a + b| ensures (a + b)[i] != (a + b)[j] {
      if i < |a| <= j {
        assert a[i] in a && b[j - |a|] in b;
      }
    }
  }

  lemma {:induction false} WalkNoRepeats(t: Forest, f: Filter, p: nat)
    requires Grown(t)
    ensures NoRepeats(Walk(t, f, p))
    decreases Below(t, p), 1, 0
  {
    var ids := At(t.byParent, p);
    WalkListNoRepeats(t, f, p, ids);
  }

  /** The replies of `ids` that are present are listed once. */
  ghost predicate PresentOnce(t: Forest, ids: seq<nat>) {
    forall i, j :: 0 <= i < j < |ids| && ids[i] in t.rows ==> ids[i] != ids[j]
  }

  lemma {:induction false} WalkListNoRepeats(t: Forest, f: Filter, p: nat, ids: seq<nat>)
    requires Grown(t) && ListedUnder(t, p, ids) && PresentOnce(t, ids)
    ensures NoRepeats(WalkList(t, f, p, ids))
    decreases Below(t, p), 0, |ids|
  {
    if ids != [] {
      var c, rest := ids[0], ids[1..];
      assert forall x :: x in rest ==> x in ids;
      WalkListNoRepeats(t, f, p, rest);
      if Shown(t, f, c) {
        assert c in At(t.byParent, p);
        WalkNoRepeats(t, f, c);
        var below, later := Walk(t, f, c), WalkList(t, f, p, rest);
        forall x | x in [c] + below ensures x !in later && (x in below ==> x != c) {
          Disjoint(t, f, p, c, rest, x);
        }
        AppendNoRepeats([c], below);
        AppendNoRepeats([c] + below, later);
      }
    }
  }

  lemma Disjoint(t: Forest, f: Filter, p: nat, c: nat, rest: seq<nat>, x: nat)
    requires Grown(t) && ListedUnder(t, p, rest) && c in At(t.byParent, p) && c in t.rows && c !in rest
    requires x == c || x in Walk(t, f, c)
    ensures x !in WalkList(t, f, p, rest)
    ensures x in Walk(t, f, c) ==> x != c
  {
    assert t.rows[c].parentId == Some(p);
    WalkMembers(t, f, c, x);
    if Descends(t, f, c, x) {
      DescendsBelow(t, f, c, x);
      Widen(t, f, c, x);
    }
    WalkListMembers(t, f, p, rest, x);
    if x in WalkList(t, f, p, rest) {
      var d :| d in rest && Shown(t, f, d) && (d == x || Descends(t, f, d, x));
      assert d in At(t.byParent, p) && t.rows[d].parentId == Some(p);
      if d != x {
        Widen(t, f, d, x);
      }
      OneWayUp(t, p, c, d, x);
      assert false;
    }
  }

  // ---------------------------------------------------------------- the order of the walk

  ghost predicate AtOrBelow(t: Forest, f: Filter, c: nat, id: nat) {
    c in t.rows && (id == c || Descends(t, f, c, id))
  }

  /** Among the replies of `q`, the one above `x`, at `i`, is listed before the one above `y`, at `j`. */
  ghost predicate Branches(t: Forest, f: Filter, x: nat, y: nat, q: nat, i: nat, j: nat) {
    var replies := At(t.byParent, q);
    i < j < |replies| && AtOrBelow(t, f, replies[i], x) && AtOrBelow(t, f, replies[j], y)
  }

  /** `y` is below `x`, or on a later branch. */
  ghost predicate Precedes(t: Forest, f: Filter, x: nat, y: nat) {
    Descends(t, f, x, y) || exists q: nat, i: nat, j: nat :: Branches(t, f, x, y, q, i, j)
  }

  ghost predicate InOrder(t: Forest, f: Filter, s: seq<nat>) {
    forall i, j :: 0 <= i < j < |s| ==> Precedes(t, f, s[i], s[j])
  }

  /** The walk is in preorder: every message before those below it, and the replies to one message,
      each with what is below it, in the order in which the index lists them. */
  lemma {:induction false} WalkInOrder(t: Forest, f: Filter, p: nat)
    requires Grown(t)
    ensures InOrder(t, f, Walk(t, f, p))
    decreases Below(t, p), 1, 0
  {
    assert At(t.byParent, p)[0..] == At(t.byParent, p);
    WalkListInOrder(t, f, p, 0, At(t.byParent, p));
  }

  lemma {:induction false} WalkListInOrder(t: Forest, f: Filter, p: nat, k: nat, ids: seq<nat>)
    requires Grown(t) && k <= |At(t.byParent, p)| && ids == At(t.byParent, p)[k..]
    ensures ListedUnder(t, p, ids) && InOrder(t, f, WalkList(t, f, p, ids))
    decreases Below(t, p), 0, |ids|
  {
    assert forall x :: x in ids ==> x in At(t.byParent, p);
    if ids != [] {
      var c, rest := ids[0], ids[1..];
      assert rest == At(t.byParent, p)[k + 1..];
      WalkListInOrder(t, f, p, k + 1, rest);
      if Shown(t, f, c) {
        assert c in At(t.byParent, p) && t.rows[c].parentId == Some(p);
        WalkInOrder(t, f, c);
        BranchInOrder(t, f, p, k, c, rest);
      }
    }
  }

  lemma BranchInOrder(t: Forest, f: Filter, p: nat, k: nat, c: nat, rest: seq<nat>)
    requires Grown(t) && c in t.rows
    requires k < |At(t.byParent, p)| && c == At(t.byParent, p)[k] && rest == At(t.byParent, p)[k + 1..]
    requires ListedUnder(t, p, rest)
    requires InOrder(t, f, Walk(t, f, c)) && InOrder(t, f, WalkList(t, f, p, rest))
    ensures InOrder(t, f, [c] + Walk(t, f, c) + WalkList(t, f, p, rest))
  {
    var below, later := Walk(t, f, c), WalkList(t, f, p, rest);
    hide Walk, WalkList, Precedes, Grown, At;
    forall y | y in below ensures Precedes(t, f, c, y) && AtOrBelow(t, f, c, y) {
      WalkMembers(t, f, c, y);
      BelowComesLater(t, f, c, y);
    }
    forall x, y | AtOrBelow(t, f, c, x) && y in later ensures Precedes(t, f, x, y) {
      WalkListMembers(t, f, p, rest, y);
      var d :| d in rest && Shown(t, f, d) && (d == y || Descends(t, f, d, y));
      LaterBranch(t, f, p, k, rest, d, x, y);
    }
    JoinInOrder(t, f, c, below, later);
  }

  lemma BelowComesLater(t: Forest, f: Filter, x: nat, y: nat)
    requires Descends(t, f, x, y)
    ensures Precedes(t, f, x, y)
  {
  }

  lemma LaterBranch(t: Forest, f: Filter, p: nat, k: nat, rest: seq<nat>, d: nat, x: nat, y: nat)
    requires k < |At(t.byParent, p)| && rest == At(t.byParent, p)[k + 1..] && d in rest
    requires AtOrBelow(t, f, At(t.byParent, p)[k], x) && AtOrBelow(t, f, d, y)
    ensures Precedes(t, f, x, y)
  {
    hide AtOrBelow, Descends;
    var m :| 0 <= m < |rest| && rest[m] == d;
    assert Branches(t, f, x, y, p, k, k + 1 + m);
  }

  lemma JoinInOrder(t: Forest, f: Filter, c: nat, below: seq<nat>, later: seq<nat>)
    requires InOrder(t, f, below) && InOrder(t, f, later)
    requires forall y :: y in below ==> Precedes(t, f, c, y)
    requires forall x, y :: (x == c || x in below) && y in later ==> Precedes(t, f, x, y)
    ensures InOrder(t, f, [c] + below + later)
  {
    hide Precedes;
    var s := [c] + below + later;
    forall i, j | 0 <= i < j < |s| ensures Precedes(t, f, s[i], s[j]) {
      if 1 + |below| <= j {
        assert s[j] == later[j - 1 - |below|] && s[j] in later;
        if i < 1 + |below| {
          assert i > 0 ==> s[i] == below[i - 1] && s[i] in below;
        } else {
          assert s[i] == later[i - 1 - |below|];
        }
      } else {
        assert s[j] == below[j - 1] && s[j] in below;
        assert i > 0 ==> s[i] == below[i - 1];
      }
    }
  }

  lemma WidenTo(t: Forest, f: Filter, c: nat, x: nat)
    requires AtOrBelow(t, f, c, x)
    ensures AtOrBelow(t, EVERYTHING, c, x) && c <= x
  {
    if x != c {
      Widen(t, f, c, x);
      DescendsBelow(t, f, c, x);
    }
  }

  /** The one place in the list of replies to `q` that `x` is at or below. */
  lemma OnePlace(t: Forest, f: Filter, q: nat, i: nat, j: nat, x: nat)
    requires Grown(t) && i < |At(t.byParent, q)| && j < |At(t.byParent, q)|
    requires AtOrBelow(t, f, At(t.byParent, q)[i], x) && AtOrBelow(t, f, At(t.byParent, q)[j], x)
    ensures i == j
  {
    var ids := At(t.byParent, q);
    WidenTo(t, f, ids[i], x);
    WidenTo(t, f, ids[j], x);
    assert ids[i] in ids && ids[j] in ids;
    OneWayUp(t, q, ids[i], ids[j], x);
  }

  /** Of two messages above `x` the one with the later parent is below the other, and so is that
      parent. */
  lemma {:induction false} OneAboveTheOther(t: Forest, f: Filter, c: nat, q: nat, d: nat, r: nat, x: nat)
    requires Grown(t) && AtOrBelow(t, f, c, x) && AtOrBelow(t, f, d, x)
    requires t.rows[c].parentId == Some(q) && t.rows[d].parentId == Some(r) && q < r
    ensures AtOrBelow(t, f, c, r)
    decreases x
  {
    if x == d {
    } else if x == c {
      DescendsBelow(t, f, d, c);
      if q != d {
        DescendsBelow(t, f, d, q);
      }
      assert false;
    } else {
      OneAboveTheOther(t, f, c, q, d, r, t.rows[x].parentId.value);
    }
  }

  lemma {:induction false} FurtherBelow(t: Forest, f: Filter, c: nat, x: nat, y: nat)
    requires AtOrBelow(t, f, c, x) && Descends(t, f, x, y)
    ensures AtOrBelow(t, f, c, y)
    decreases y
  {
    var p := t.rows[y].parentId.value;
    if p != x {
      FurtherBelow(t, f, c, x, p);
    }
  }

  lemma NotBothBranches(t: Forest, f: Filter, x: nat, y: nat, q: nat, i: nat, j: nat, r: nat, k: nat, m: nat)
    requires Grown(t) && Branches(t, f, x, y, q, i, j)
    ensures !Branches(t, f, y, x, r, k, m) || q > r
  {
    hide Descends, AtOrBelow;
    if Branches(t, f, y, x, r, k, m) {
      var a, b := At(t.byParent, q), At(t.byParent, r);
      if q == r {
        OnePlace(t, f, q, i, m, x);
        OnePlace(t, f, q, j, k, y);
        assert false;
      } else if q < r {
        ListedParents(t, f, q, i, x);
        ListedParents(t, f, q, j, y);
        ListedParents(t, f, r, m, x);
        ListedParents(t, f, r, k, y);
        OneAboveTheOther(t, f, a[i], q, b[m], r, x);
        OneAboveTheOther(t, f, a[j], q, b[k], r, y);
        OnePlace(t, f, q, i, j, r);
        assert false;
      }
    }
  }

  lemma ListedParents(t: Forest, f: Filter, q: nat, i: nat, x: nat)
    requires Grown(t) && i < |At(t.byParent, q)| && AtOrBelow(t, f, At(t.byParent, q)[i], x)
    ensures At(t.byParent, q)[i] in t.rows && t.rows[At(t.byParent, q)[i]].parentId == Some(q)
  {
    assert At(t.byParent, q)[i] in At(t.byParent, q);
  }

  lemma NotBelowAndBefore(t: Forest, f: Filter, x: nat, y: nat, q: nat, i: nat, j: nat)
    requires Grown(t) && Descends(t, f, x, y)
    ensures !Branches(t, f, y, x, q, i, j)
  {
    hide Descends, AtOrBelow;
    if Branches(t, f, y, x, q, i, j) {
      FurtherBelow(t, f, At(t.byParent, q)[j], x, y);
      OnePlace(t, f, q, i, j, y);
      assert false;
    }
  }

  /** The order is the only one: when `x` precedes `y`, `y` does not precede `x`. */
  lemma PrecedesOneWay(t: Forest, f: Filter, x: nat, y: nat)
    requires Grown(t) && Precedes(t, f, x, y)
    ensures !Precedes(t, f, y, x)
  {
    hide Branches, Grown;
    if Precedes(t, f, y, x) {
      if Descends(t, f, x, y) {
        DescendsBelow(t, f, x, y);
        if Descends(t, f, y, x) {
          DescendsBelow(t, f, y, x);
          assert false;
        } else {
          var q: nat, i: nat, j: nat :| Branches(t, f, y, x, q, i, j);
          NotBelowAndBefore(t, f, x, y, q, i, j);
          assert false;
        }
      } else {
        var q: nat, i: nat, j: nat :| Branches(t, f, x, y, q, i, j);
        if Descends(t, f, y, x) {
          NotBelowAndBefore(t, f, y, x, q, i, j);
          assert false;
        } else {
          var r: nat, k: nat, m: nat :| Branches(t, f, y, x, r, k, m);
          NotBothBranches(t, f, x, y, q, i, j, r, k, m);
          NotBothBranches(t, f, y, x, r, k, m, q, i, j);
          assert false;
        }
      }
    }
  }

  /** The elements of `s` that are in `keep`, in order. */
  function Select(s: seq<nat>, keep: set<nat>): seq<nat> {
    if s == [] then []
    else if s[0] in keep then [s[0]] + Select(s[1..], keep) else Select(s[1..], keep)
  }

  lemma {:induction false} SelectAppend(a: seq<nat>, b: seq<nat>, keep: set<nat>)
    ensures Select(a + b, keep) == Select(a, keep) + Select(b, keep)
  {
    if a == [] {
      assert a + b == b;
    } else {
      assert (a + b)[1..] == a[1..] + b;
      SelectAppend(a[1..], b, keep);
    }
  }

  lemma {:induction false} SelectSame(s: seq<nat>, a: set<nat>, b: set<nat>)
    requires forall x :: x in s ==> (x in a <==> x in b)
    ensures Select(s, a) == Select(s, b)
  {
    if s != [] {
      assert forall x :: x in s[1..] ==> x in s;
      SelectSame(s[1..], a, b);
    }
  }

  lemma {:induction false} SelectNone(s: seq<nat>, keep: set<nat>)
    requires forall x :: x in s ==> x !in keep
    ensures Select(s, keep) == []
  {
    if s != [] {
      assert forall x :: x in s[1..] ==> x in s;
      SelectNone(s[1..], keep);
    }
  }

  function Descendants(t: Forest, f: Filter, top: nat): set<nat> {
    set id | id in t.rows && Descends(t, f, top, id)
  }

  /** The filtered walk is the full walk with everything dropped that has a filtered-out message
      on its way up: pruning never reorders and never loses a message that should be shown. */
  lemma {:induction false} WalkIsSelection(t: Forest, f: Filter, p: nat)
    requires Grown(t)
    ensures Walk(t, f, p) == Select(Walk(t, EVERYTHING, p), Descendants(t, f, p))
    decreases Below(t, p), 1, 0
  {
    WalkListIsSelection(t, f, p, At(t.byParent, p));
  }

  lemma {:induction false} WalkListIsSelection(t: Forest, f: Filter, p: nat, ids: seq<nat>)
    requires Grown(t) && ListedUnder(t, p, ids)
    ensures WalkList(t, f, p, ids) == Select(WalkList(t, EVERYTHING, p, ids), Descendants(t, f, p))
    decreases Below(t, p), 0, |ids|
  {
    if ids != [] {
      var c, rest, keep := ids[0], ids[1..], Descendants(t, f, p);
      assert forall x :: x in rest ==> x in ids;
      WalkListIsSelection(t, f, p, rest);
      if Shown(t, EVERYTHING, c) {
        assert c in At(t.byParent, p) && t.rows[c].parentId == Some(p);
        var full := Walk(t, EVERYTHING, c);
        forall x | x in full
          ensures x in keep <==> Shown(t, f, c) && x in Descendants(t, f, c)
        {
          WalkMembers(t, EVERYTHING, c, x);
          DescendsThrough(t, f, p, c, x);
        }
        SelectAppend([c] + full, WalkList(t, EVERYTHING, p, rest), keep);
        SelectAppend([c], full, keep);
        if Shown(t, f, c) {
          WalkIsSelection(t, f, c);
          SelectSame(full, keep, Descendants(t, f, c));
          assert Select([c], keep) == [c];
        } else {
          SelectNone(full, keep);
          assert Select([c], keep) == [];
        }
      }
    }
  }

  function UpTo(t: Forest, before: nat): set<nat> {
    set id | id in t.rows && id < before
  }

  /** With only `before`, pruning subtrees is the same as filtering the full walk by ID, because
      everything below a message has a larger ID. */
  lemma BeforeIsPlainFilter(t: Forest, before: nat, p: nat)
    requires Grown(t)
    ensures Walk(t, Filter(Some(before), None), p) == Select(Walk(t, EVERYTHING, p), UpTo(t, before))
  {
    var f := Filter(Some(before), None);
    WalkIsSelection(t, f, p);
    forall x | x in Walk(t, EVERYTHING, p) ensures x in Descendants(t, f, p) <==> x in UpTo(t, before) {
      WalkMembers(t, EVERYTHING, p, x);
      BeforeDescends(t, before, p, x);
    }
    SelectSame(Walk(t, EVERYTHING, p), Descendants(t, f, p), UpTo(t, before));
  }

  lemma {:induction false} BeforeDescends(t: Forest, before: nat, top: nat, id: nat)
    requires Descends(t, EVERYTHING, top, id)
    ensures Descends(t, Filter(Some(before), None), top, id) <==> id < before
    decreases id
  {
    var p := t.rows[id].parentId.value;
    if p != top {
      BeforeDescends(t, before, top, p);
    }
  }

  function Passing(t: Forest, f: Filter): set<nat> {
    set id | id in t.rows && Passes(f, id)
  }

  /** No message of the full walk below `p` passes while the message it answers does not. */
  ghost predicate NoneCutOff(t: Forest, f: Filter, p: nat)
    requires Grown(t)
  {
    forall id :: id in Walk(t, EVERYTHING, p) && Passes(f, id) ==>
      id in t.rows && t.rows[id].parentId.Some?
      && (t.rows[id].parentId.value == p || Passes(f, t.rows[id].parentId.value))
  }

  lemma {:induction false} SelectMember(s: seq<nat>, keep: set<nat>, x: nat)
    ensures x in Select(s, keep) <==> x in s && x in keep
  {
    if s != [] {
      SelectMember(s[1..], keep, x);
    }
  }

  lemma {:induction false} NotCutOffDescends(t: Forest, f: Filter, p: nat, id: nat)
    requires Grown(t) && NoneCutOff(t, f, p) && Descends(t, EVERYTHING, p, id) && Passes(f, id)
    ensures Descends(t, f, p, id)
    decreases id
  {
    WalkMembers(t, EVERYTHING, p, id);
    var q := t.rows[id].parentId.value;
    if q != p {
      NotCutOffDescends(t, f, p, q);
    }
  }

  lemma ParentPasses(t: Forest, f: Filter, top: nat, id: nat)
    requires Descends(t, f, top, id)
    ensures id in t.rows && t.rows[id].parentId.Some?
    ensures t.rows[id].parentId.value == top || Passes(f, t.rows[id].parentId.value)
  {
    var q := t.rows[id].parentId.value;
    if q != top {
      assert Descends(t, f, top, q);
    }
  }

  /** For any filter: the pruned walk is the full walk filtered by ID if and only if no message
      passes below one that does not. */
  lemma FilterIsPlainIff(t: Forest, f: Filter, p: nat)
    requires Grown(t)
    ensures Walk(t, f, p) == Select(Walk(t, EVERYTHING, p), Passing(t, f)) <==> NoneCutOff(t, f, p)
  {
    hide Walk, Descends, Select, Passes;
    var full, kept, plain := Walk(t, EVERYTHING, p), Descendants(t, f, p), Passing(t, f);
    WalkIsSelection(t, f, p);
    forall x | x in full ensures x in t.rows && Descends(t, EVERYTHING, p, x) {
      WalkMembers(t, EVERYTHING, p, x);
      ParentPasses(t, EVERYTHING, p, x);
    }
    if NoneCutOff(t, f, p) {
      forall x | x in full ensures x in kept <==> x in plain {
        DescendsPasses(t, f, p, x);
        if x in plain {
          NotCutOffDescends(t, f, p, x);
        }
      }
      SelectSame(full, kept, plain);
    }
    if Select(full, kept) == Select(full, plain) {
      forall x | x in full && Passes(f, x)
        ensures x in t.rows && t.rows[x].parentId.Some?
        ensures t.rows[x].parentId.value == p || Passes(f, t.rows[x].parentId.value)
      {
        SelectMember(full, kept, x);
        SelectMember(full, plain, x);
        ParentPasses(t, f, p, x);
      }
    }
  }

  lemma DescendsPasses(t: Forest, f: Filter, top: nat, id: nat)
    ensures Descends(t, f, top, id) ==> id in t.rows && Passes(f, id)
  {
  }

  function Above(t: Forest, after: nat): set<nat> {
    set id | id in t.rows && id > after
  }

  /** With only `after`, paging is a plain filter by ID if and only if every newer message of the
      thread answers the message asked about or another newer one. */
  lemma AfterIsPlainFilterIff(t: Forest, after: nat, p: nat)
    requires Grown(t)
    ensures Walk(t, Filter(None, Some(after)), p) == Select(Walk(t, EVERYTHING, p), Above(t, after)) <==>
            forall id :: id in Walk(t, EVERYTHING, p) && id > after ==>
              id in t.rows && t.rows[id].parentId.Some?
              && (t.rows[id].parentId.value == p || t.rows[id].parentId.value > after)
  {
    hide Walk;
    assert Above(t, after) == Passing(t, Filter(None, Some(after)));
    FilterIsPlainIff(t, Filter(None, Some(after)), p);
  }

  /** A thread where it is not: the filter also hides a newer reply below an older one. */
  lemma AfterIsNoPlainFilter(r: Row)
    returns (t: Forest)
    ensures Grown(t)
    ensures Walk(t, EVERYTHING, 1) == [2, 3]
    ensures Walk(t, Filter(None, Some(2)), 1) == []
  {
    var live := r.(deletedAt := None);
    var two, three := live.(id := 2, parentId := Some(1)), live.(id := 3, parentId := Some(2));
    t := Forest(map[1 := [2], 2 := [3]], map[2 := two, 3 := three], 3);
    assert At(t.byParent, 3) == [];
    assert Walk(t, EVERYTHING, 3) == [];
    assert [3][1..] == [] && [2][1..] == [];
    assert WalkList(t, EVERYTHING, 2, [3]) == [3];
    assert Walk(t, EVERYTHING, 2) == [3];
    assert WalkList(t, EVERYTHING, 1, []) == [];
    assert WalkList(t, EVERYTHING, 1, [2]) == [2] + [3] + [];
    assert Walk(t, EVERYTHING, 1) == WalkList(t, EVERYTHING, 1, [2]);
    assert WalkList(t, Filter(None, Some(2)), 1, [2]) == [];
  }
}
