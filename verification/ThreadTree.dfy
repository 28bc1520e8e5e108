/** The client's view of a thread (pkg/client/format.go:125-201): replies in depth-first order,
    and the depth of each, computed by two unrelated traversals of the same parent links. */
module ThreadTree {
  import opened Sets
  import opened ThreadSort
  import opened Wrappers

  // ---------------------------------------------------------------- replies grouped by parent

  /** The replies to `p`, in the order of the list. */
  function Children(replies: seq<Reply>, p: nat): seq<Reply> {
    if replies == [] then []
    else
      var n := |replies| - 1;
      if replies[n].parent == Some(p) then Children(replies[..n], p) + [replies[n]] else Children(replies[..n], p)
  }

  lemma {:induction false} ChildrenMember(replies: seq<Reply>, p: nat, r: Reply)
    ensures r in Children(replies, p) <==> r in replies && r.parent == Some(p)
  {
    if replies != [] {
      var n := |replies| - 1;
      ChildrenMember(replies[..n], p, r);
      assert replies == replies[..n] + [replies[n]];
    }
  }

  lemma {:induction false} ChildrenDistinct(replies: seq<Reply>, p: nat)
    requires DistinctIds(replies)
    ensures DistinctIds(Children(replies, p))
  {
    if replies != [] {
      var n := |replies| - 1;
      ChildrenDistinct(replies[..n], p);
      forall r | r in Children(replies[..n], p) ensures r.id != replies[n].id {
        ChildrenMember(replies[..n], p, r);
        var i :| 0 <= i < n && replies[..n][i] == r;
      }
    }
  }

  lemma {:induction false} ChildrenAppend(a: seq<Reply>, b: seq<Reply>, p: nat)
    ensures Children(a + b, p) == Children(a, p) + Children(b, p)
    decreases |b|
  {
    if b == [] {
      assert a + b == a;
    } else {
      var n := |b| - 1;
      assert (a + b)[..|a| + n] == a + b[..n];
      ChildrenAppend(a, b[..n], p);
    }
  }

  // ---------------------------------------------------------------- groups, sorted

  /** The replies to `p` in the order they are shown. */
  function Group(replies: seq<Reply>, p: nat): seq<Reply> {
    Exchanged(Children(replies, p))
  }

  lemma GroupMember(replies: seq<Reply>, p: nat, r: Reply)
    ensures r in Group(replies, p) <==> r in replies && r.parent == Some(p)
  {
    var c := Children(replies, p);
    ExchangedSorts(c);
    ChildrenMember(replies, p, r);
    assert r in c <==> r in multiset(c);
    assert r in Exchanged(c) <==> r in multiset(Exchanged(c));
  }

  lemma {:induction false} NoRepeatsInMultiset(s: seq<Reply>)
    requires DistinctIds(s)
    ensures forall r :: multiset(s)[r] <= 1
  {
    if s != [] {
      var n := |s| - 1;
      assert s == s[..n] + [s[n]];
      NoRepeatsInMultiset(s[..n]);
      assert s[n] !in s[..n];
    }
  }

  lemma CountedTwice(s: seq<Reply>, i: nat, j: nat)
    requires i < j < |s| && s[i] == s[j]
    ensures multiset(s)[s[j]] >= 2
  {
    assert s == s[..j] + [s[j]] + s[j + 1..];
    assert s[..j][i] == s[j];
    assert s[j] in multiset(s[..j]);
  }

  lemma GroupDistinct(replies: seq<Reply>, p: nat)
    requires DistinctIds(replies)
    ensures DistinctIds(Group(replies, p)) && SortedByTime(Group(replies, p))
  {
    var c, g := Children(replies, p), Group(replies, p);
    ChildrenDistinct(replies, p);
    ExchangedSorts(c);
    NoRepeatsInMultiset(c);
    forall i, j | 0 <= i < j < |g| ensures g[i].id != g[j].id {
      if g[i].id == g[j].id {
        GroupMember(replies, p, g[i]);
        GroupMember(replies, p, g[j]);
        CountedTwice(g, i, j);
      }
    }
  }

  // ---------------------------------------------------------------- chains of replies

  function Top(root: nat, c: seq<Reply>): nat {
    if c == [] then root else c[|c| - 1].id
  }

  /** Each reply in `c` answers the one before it, and the first answers the root. */
  ghost predicate Chain(replies: seq<Reply>, root: nat, c: seq<Reply>) {
    c == [] ||
    var n := |c| - 1;
    Chain(replies, root, c[..n]) && c[n] in replies && c[n].parent == Some(Top(root, c[..n]))
  }

  /** IDs are distinct, and the root's is not one of them. */
  ghost predicate Named(replies: seq<Reply>, root: nat) {
    DistinctIds(replies) && forall i :: 0 <= i < |replies| ==> replies[i].id != root
  }

  /** No chain comes back to an ID that it has passed. */
  ghost predicate LoopFree(replies: seq<Reply>, root: nat) {
    forall c, i: nat :: Chain(replies, root, c) && i < |c| ==> Top(root, c[..i]) != Top(root, c)
  }

  /** What the server guarantees. */
  ghost predicate Tree(replies: seq<Reply>, root: nat): (t: bool)
    ensures t ==> Named(replies, root) && LoopFree(replies, root)
  {
    Named(replies, root) && (NamedIsLoopFree(replies, root); true)
  }

  /** There is one chain to each reply, whatever cycles there are among the others. */
  lemma {:induction false} ChainUnique(replies: seq<Reply>, root: nat, c: seq<Reply>, d: seq<Reply>)
    requires Named(replies, root) && Chain(replies, root, c) && Chain(replies, root, d)
    requires Top(root, c) == Top(root, d)
    ensures c == d
  {
    if c != [] && d != [] {
      var m, n := |c| - 1, |d| - 1;
      assert c[m] in replies && d[n] in replies && c[m] == d[n];
      ChainUnique(replies, root, c[..m], d[..n]);
      assert c == c[..m] + [c[m]] && d == d[..n] + [d[n]];
    }
  }

  lemma NamedIsLoopFree(replies: seq<Reply>, root: nat)
    requires Named(replies, root)
    ensures LoopFree(replies, root)
  {
    hide Chain, Named;
    forall c, i: nat | Chain(replies, root, c) && i < |c| ensures Top(root, c[..i]) != Top(root, c) {
      if Top(root, c[..i]) == Top(root, c) {
        ChainPrefix(replies, root, c, i);
        ChainUnique(replies, root, c[..i], c);
      }
    }
  }

  lemma {:induction false} ChainPrefix(replies: seq<Reply>, root: nat, c: seq<Reply>, i: nat)
    requires Chain(replies, root, c) && i <= |c|
    ensures Chain(replies, root, c[..i])
    ensures i < |c| ==> c[i] in replies && c[i].parent == Some(Top(root, c[..i]))
  {
    var n := |c| - 1;
    if i <= n {
      ChainPrefix(replies, root, c[..n], i);
      assert c[..n][..i] == c[..i];
    } else {
      assert c[..i] == c;
    }
  }

  lemma ChainDistinct(replies: seq<Reply>, root: nat, c: seq<Reply>)
    requires LoopFree(replies, root) && Chain(replies, root, c)
    ensures forall i, j :: 0 <= i < j < |c| ==> c[i] != c[j]
  {
    hide Chain;
    forall i, j | 0 <= i < j < |c| ensures c[i] != c[j] {
      ChainPrefix(replies, root, c, j + 1);
      assert c[..j + 1][..i + 1] == c[..i + 1];
    }
  }

  function Elements(s: seq<Reply>): set<Reply> {
    set r | r in s
  }

  lemma {:induction false} ElementsSize(s: seq<Reply>)
    ensures |Elements(s)| <= |s|
    ensures (forall i, j :: 0 <= i < j < |s| ==> s[i] != s[j]) ==> |Elements(s)| == |s|
  {
    if s != [] {
      var n := |s| - 1;
      ElementsSize(s[..n]);
      assert s == s[..n] + [s[n]];
      assert Elements(s) == Elements(s[..n]) + {s[n]};
    }
  }

  /** No chain is longer than the list of replies. */
  lemma ChainShort(replies: seq<Reply>, root: nat, c: seq<Reply>)
    requires LoopFree(replies, root) && Chain(replies, root, c)
    ensures |c| <= |replies|
  {
    hide LoopFree;
    ChainDistinct(replies, root, c);
    forall i | 0 <= i < |c| ensures c[i] in replies {
      ChainPrefix(replies, root, c, i);
    }
    ElementsSize(c);
    ElementsSize(replies);
    SubsetSize(Elements(c), Elements(replies));
  }

  ghost predicate Within(replies: seq<Reply>, root: nat, n: nat) {
    forall c :: Chain(replies, root, c) ==> |c| <= n
  }

  /** What follows one chain can follow any other that ends at the same ID. */
  lemma {:induction false} Elsewhere(replies: seq<Reply>, root: nat, a: seq<Reply>, b: seq<Reply>, x: seq<Reply>)
    requires Chain(replies, root, a + b) && Chain(replies, root, x) && Top(root, x) == Top(root, a)
    ensures Chain(replies, root, x + b) && Top(root, x + b) == Top(root, a + b)
    decreases |b|
  {
    if b == [] {
      assert a + b == a && x + b == x;
    } else {
      var n := |b| - 1;
      assert (a + b)[..|a| + n] == a + b[..n] && (x + b)[..|x| + n] == x + b[..n];
      Elsewhere(replies, root, a, b[..n], x);
    }
  }

  /** Round and round. */
  lemma {:induction false} LongChain(replies: seq<Reply>, root: nat, c: seq<Reply>, i: nat, n: nat)
    returns (d: seq<Reply>)
    requires Chain(replies, root, c) && i < |c| && Top(root, c[..i]) == Top(root, c)
    ensures Chain(replies, root, d) && Top(root, d) == Top(root, c) && |d| > n
    decreases n
  {
    hide Chain, Top;
    if n == 0 {
      d := c;
    } else {
      var e := LongChain(replies, root, c, i, n - 1);
      assert c[..i] + c[i..] == c;
      Elsewhere(replies, root, c[..i], c[i..], e);
      d := e + c[i..];
    }
  }

  lemma LoopEndless(replies: seq<Reply>, root: nat, n: nat)
    requires !LoopFree(replies, root)
    ensures !Within(replies, root, n)
  {
    hide Chain, Top;
    var c, i: nat :| Chain(replies, root, c) && i < |c| && Top(root, c[..i]) == Top(root, c);
    var d := LongChain(replies, root, c, i, n);
  }

  lemma LoopFreeWithin(replies: seq<Reply>, root: nat)
    requires LoopFree(replies, root)
    ensures Within(replies, root, |replies|)
  {
    hide Chain, LoopFree;
    forall c | Chain(replies, root, c) ensures |c| <= |replies| {
      ChainShort(replies, root, c);
    }
  }

  /** Both traversals follow the chains from the root: their length is bounded, by that of the list,
      if and only if no chain comes back to an ID that it has passed. */
  lemma EndsIff(replies: seq<Reply>, root: nat)
    ensures LoopFree(replies, root) <==> Within(replies, root, |replies|)
    ensures LoopFree(replies, root) <==> exists n: nat :: Within(replies, root, n)
  {
    hide LoopFree, Within;
    if LoopFree(replies, root) {
      LoopFreeWithin(replies, root);
    } else {
      forall n: nat ensures !Within(replies, root, n) {
        LoopEndless(replies, root, n);
      }
    }
  }

  /** For instance: a list whose one reply answers itself, asked for as the thread of that reply. */
  lemma SelfAnswerNeverEnds(at: int)
    ensures forall n: nat :: !Within([Reply(1, Some(1), at)], 1, n)
  {
    var r := Reply(1, Some(1), at);
    assert [r][..0] == [] && Chain([r], 1, []) && Chain([r], 1, [r]);
    assert Top(1, [r][..0]) == Top(1, [r]);
    forall n: nat ensures !Within([r], 1, n) {
      LoopEndless([r], 1, n);
    }
  }

  lemma Extend(replies: seq<Reply>, root: nat, c: seq<Reply>, r: Reply)
    requires LoopFree(replies, root) && Chain(replies, root, c)
    requires r in replies && r.parent == Some(Top(root, c))
    ensures Chain(replies, root, c + [r]) && Top(root, c + [r]) == r.id && |c| < |replies|
  {
    hide LoopFree;
    var d := c + [r];
    assert d[..|c|] == c;
    ChainShort(replies, root, d);
  }

  // ---------------------------------------------------------------- the depth-first order

  ghost predicate AllUnder(replies: seq<Reply>, root: nat, c: seq<Reply>, kids: seq<Reply>) {
    forall r :: r in kids ==> r in replies && r.parent == Some(Top(root, c))
  }

  lemma GroupUnder(replies: seq<Reply>, root: nat, c: seq<Reply>)
    ensures AllUnder(replies, root, c, Group(replies, Top(root, c)))
  {
    forall r | r in Group(replies, Top(root, c)) ensures r in replies && r.parent == Some(Top(root, c)) {
      GroupMember(replies, Top(root, c), r);
    }
  }

  /** The traversal of `kids`, which answer the end of the chain `c`. */
  ghost function Visit(replies: seq<Reply>, root: nat, c: seq<Reply>, kids: seq<Reply>): seq<Reply>
    requires LoopFree(replies, root) && Chain(replies, root, c) && AllUnder(replies, root, c, kids)
    decreases |replies| - |c|, |kids|
  {
    if kids == [] then []
    else
      Extend(replies, root, c, kids[0]);
      GroupUnder(replies, root, c + [kids[0]]);
      assert forall r :: r in kids[1..] ==> r in kids;
      [kids[0]] + Visit(replies, root, c + [kids[0]], Group(replies, kids[0].id))
      + Visit(replies, root, c, kids[1..])
  }

  ghost function Preorder(replies: seq<Reply>, root: nat): seq<Reply>
    requires LoopFree(replies, root)
  {
    GroupUnder(replies, root, []);
    Visit(replies, root, [], Group(replies, root))
  }

  /** `r` hangs below the root. */
  ghost predicate Reachable(replies: seq<Reply>, root: nat, r: Reply) {
    exists c :: Chain(replies, root, c) && c != [] && c[|c| - 1] == r
  }

  /** `d` goes on from `c` through one of `kids`. */
  ghost predicate Through(c: seq<Reply>, kids: seq<Reply>, d: seq<Reply>) {
    |c| < |d| && d[..|c|] == c && d[|c|] in kids
  }

  lemma {:induction false} VisitSound(replies: seq<Reply>, root: nat, c: seq<Reply>, kids: seq<Reply>, r: Reply)
    returns (d: seq<Reply>)
    requires LoopFree(replies, root) && Chain(replies, root, c) && AllUnder(replies, root, c, kids)
    requires r in Visit(replies, root, c, kids)
    ensures Chain(replies, root, d) && Through(c, kids, d) && d[|d| - 1] == r
    decreases |replies| - |c|, |kids|
  {
    hide Chain, LoopFree, Group;
    Extend(replies, root, c, kids[0]);
    GroupUnder(replies, root, c + [kids[0]]);
    if r == kids[0] {
      d := c + [r];
    } else if r in Visit(replies, root, c + [kids[0]], Group(replies, kids[0].id)) {
      d := VisitSound(replies, root, c + [kids[0]], Group(replies, kids[0].id), r);
      assert d[..|c| + 1][|c|] == kids[0];
      assert d[..|c|] == d[..|c| + 1][..|c|];
    } else {
      d := VisitSound(replies, root, c, kids[1..], r);
    }
  }

  lemma {:induction false} VisitComplete(replies: seq<Reply>, root: nat, c: seq<Reply>, kids: seq<Reply>, d: seq<Reply>)
    requires LoopFree(replies, root) && Chain(replies, root, c) && AllUnder(replies, root, c, kids)
    requires Chain(replies, root, d) && Through(c, kids, d)
    ensures d[|d| - 1] in Visit(replies, root, c, kids)
    decreases |replies| - |c|, |kids|
  {
    hide Chain, LoopFree, Group;
    Extend(replies, root, c, kids[0]);
    GroupUnder(replies, root, c + [kids[0]]);
    if d[|c|] == kids[0] {
      if |d| > |c| + 1 {
        ChainPrefix(replies, root, d, |c| + 1);
        GroupMember(replies, kids[0].id, d[|c| + 1]);
        assert d[..|c| + 1] == c + [kids[0]];
        VisitComplete(replies, root, c + [kids[0]], Group(replies, kids[0].id), d);
      }
    } else {
      VisitComplete(replies, root, c, kids[1..], d);
    }
  }

  /** The order lists the replies that hang below the root, and only those. */
  lemma PreorderMembers(replies: seq<Reply>, root: nat, r: Reply)
    requires LoopFree(replies, root)
    ensures r in Preorder(replies, root) <==> Reachable(replies, root, r)
  {
    hide Chain, LoopFree, Group, Visit;
    EmptyChain(replies, root);
    GroupUnder(replies, root, []);
    if r in Preorder(replies, root) {
      var d := VisitSound(replies, root, [], Group(replies, root), r);
    }
    if Reachable(replies, root, r) {
      var d :| Chain(replies, root, d) && d != [] && d[|d| - 1] == r;
      ChainPrefix(replies, root, d, 0);
      GroupMember(replies, root, d[0]);
      VisitComplete(replies, root, [], Group(replies, root), d);
    }
  }

  lemma EmptyChain(replies: seq<Reply>, root: nat)
    ensures Chain(replies, root, []) && Top(root, []) == root
  {
  }

  /** Siblings appear oldest first. */
  ghost predicate SiblingsInOrder(s: seq<Reply>) {
    forall i, j :: 0 <= i < j < |s| && s[i].parent == s[j].parent ==> s[i].at <= s[j].at
  }

  lemma SameParent(replies: seq<Reply>, root: nat, c: seq<Reply>, d: seq<Reply>)
    requires Tree(replies, root) && Chain(replies, root, c) && Chain(replies, root, d) && c != [] && d != []
    requires c[|c| - 1].parent == d[|d| - 1].parent
    ensures c[..|c| - 1] == d[..|d| - 1]
  {
    ChainUnique(replies, root, c[..|c| - 1], d[..|d| - 1]);
  }

  /** Where an entry of a traversal is, seen from the first of its `kids`. */
  lemma BelowKid(replies: seq<Reply>, root: nat, c: seq<Reply>, kid: Reply, r: Reply)
    requires Tree(replies, root) && Chain(replies, root, c) && Chain(replies, root, c + [kid])
    requires AllUnder(replies, root, c + [kid], Group(replies, kid.id))
    requires r in Visit(replies, root, c + [kid], Group(replies, kid.id))
    ensures r.id != kid.id && r.parent != kid.parent
  {
    hide Visit, Chain, Tree, Named, LoopFree, Group;
    var down := c + [kid];
    var d := VisitSound(replies, root, down, Group(replies, kid.id), r);
    if r.id == kid.id {
      ChainUnique(replies, root, d, down);
    }
    if r.parent == kid.parent {
      SameParent(replies, root, d, down);
    }
  }

  lemma BesideKid(replies: seq<Reply>, root: nat, c: seq<Reply>, kid: Reply, others: seq<Reply>, q: Reply)
    requires Tree(replies, root) && Chain(replies, root, c) && Chain(replies, root, c + [kid])
    requires AllUnder(replies, root, c, others) && kid !in others
    requires q in Visit(replies, root, c, others)
    ensures q.id != kid.id && (q.parent == kid.parent ==> q in others)
  {
    hide Visit, Chain, Tree, Named, LoopFree;
    var down := c + [kid];
    var d := VisitSound(replies, root, c, others, q);
    if q.id == kid.id {
      ChainUnique(replies, root, d, down);
    }
    if q.parent == kid.parent {
      SameParent(replies, root, d, down);
      assert |d[..|d| - 1]| == |down[..|down| - 1]|;
    }
  }

  lemma BranchesApart(replies: seq<Reply>, root: nat, c: seq<Reply>, kid: Reply, others: seq<Reply>, r: Reply, q: Reply)
    requires Tree(replies, root) && Chain(replies, root, c) && Chain(replies, root, c + [kid])
    requires AllUnder(replies, root, c, others) && kid !in others
    requires AllUnder(replies, root, c + [kid], Group(replies, kid.id))
    requires r in Visit(replies, root, c + [kid], Group(replies, kid.id)) && q in Visit(replies, root, c, others)
    ensures r.id != q.id && r.parent != q.parent
  {
    hide Visit, Chain, Tree, Named, LoopFree, Group;
    var down := c + [kid];
    var d := VisitSound(replies, root, down, Group(replies, kid.id), r);
    var e := VisitSound(replies, root, c, others, q);
    assert d[..|c| + 1][|c|] == kid;
    if r.id == q.id {
      ChainUnique(replies, root, d, e);
    }
    if r.parent == q.parent {
      SameParent(replies, root, d, e);
    }
  }

  /** No reply is listed twice, and siblings come in order. */
  lemma {:induction false} VisitOrdered(replies: seq<Reply>, root: nat, c: seq<Reply>, kids: seq<Reply>)
    requires Tree(replies, root) && Chain(replies, root, c) && AllUnder(replies, root, c, kids)
    requires DistinctIds(kids) && SortedByTime(kids)
    ensures DistinctIds(Visit(replies, root, c, kids)) && SiblingsInOrder(Visit(replies, root, c, kids))
    decreases |replies| - |c|, |kids|
  {
    hide Chain, Tree, LoopFree, Group;
    if kids != [] {
      var kid, others := kids[0], kids[1..];
      var down := c + [kid];
      Extend(replies, root, c, kid);
      GroupUnder(replies, root, down);
      GroupDistinct(replies, kid.id);
      VisitOrdered(replies, root, down, Group(replies, kid.id));
      VisitOrdered(replies, root, c, others);
      var sub, rest := Visit(replies, root, down, Group(replies, kid.id)), Visit(replies, root, c, others);
      forall r, q | r in sub && q in rest ensures r.id != q.id && r.parent != q.parent {
        BranchesApart(replies, root, c, kid, others, r, q);
      }
      forall r | r in sub ensures r.id != kid.id && r.parent != kid.parent {
        BelowKid(replies, root, c, kid, r);
      }
      forall q | q in rest ensures q.id != kid.id && (q.parent == kid.parent ==> kid.at <= q.at) {
        BesideKid(replies, root, c, kid, others, q);
      }
      JoinOrdered(kid, sub, rest);
    }
  }

  lemma JoinOrdered(kid: Reply, sub: seq<Reply>, rest: seq<Reply>)
    requires DistinctIds(sub) && DistinctIds(rest) && SiblingsInOrder(sub) && SiblingsInOrder(rest)
    requires forall r, q :: r in sub && q in rest ==> r.id != q.id && r.parent != q.parent
    requires forall r :: r in sub ==> r.id != kid.id && r.parent != kid.parent
    requires forall q :: q in rest ==> q.id != kid.id && (q.parent == kid.parent ==> kid.at <= q.at)
    ensures DistinctIds([kid] + sub + rest) && SiblingsInOrder([kid] + sub + rest)
  {
    var s := [kid] + sub + rest;
    forall i, j | 0 <= i < j < |s|
      ensures s[i].id != s[j].id && (s[i].parent == s[j].parent ==> s[i].at <= s[j].at)
    {
      assert 1 <= i <= |sub| ==> s[i] == sub[i - 1];
      assert 1 <= j <= |sub| ==> s[j] == sub[j - 1];
      assert i > |sub| ==> s[i] == rest[i - |sub| - 1];
      assert j > |sub| ==> s[j] == rest[j - |sub| - 1];
    }
  }

  /** Each reply once, siblings oldest first. */
  lemma PreorderOrdered(replies: seq<Reply>, root: nat)
    requires Tree(replies, root)
    ensures DistinctIds(Preorder(replies, root)) && SiblingsInOrder(Preorder(replies, root))
  {
    hide Chain, Tree, LoopFree, Group, Visit;
    EmptyChain(replies, root);
    GroupUnder(replies, root, []);
    GroupDistinct(replies, root);
    VisitOrdered(replies, root, [], Group(replies, root));
  }

  // ---------------------------------------------------------------- the two traversals together

  /** The depths of a thread: the root's is 0 and a reply's the length of its chain. */
  ghost predicate DepthsOf(replies: seq<Reply>, root: nat, depths: map<nat, nat>) {
    && (forall c :: Chain(replies, root, c) ==> Top(root, c) in depths && depths[Top(root, c)] == |c|)
    && (forall id :: id in depths ==> exists c :: Chain(replies, root, c) && Top(root, c) == id)
  }

  function DepthAt(depths: map<nat, nat>, r: Reply): nat {
    if r.id in depths then depths[r.id] else 0
  }

  /** Entry `i` answers entry `j`: the latest entry before it that is one level up. */
  ghost predicate LatestAbove(s: seq<Reply>, depths: map<nat, nat>, i: nat, j: nat)
    requires j < i < |s|
  {
    && s[i].parent == Some(s[j].id) && DepthAt(depths, s[i]) == DepthAt(depths, s[j]) + 1
    && forall k: nat :: j < k < i ==> DepthAt(depths, s[k]) > DepthAt(depths, s[j])
  }

  /** The entries are at `level` or below it, those at it answer `p`, and the depth rises by at
      most one at a time. */
  ghost predicate Climbs(s: seq<Reply>, depths: map<nat, nat>, level: nat, p: nat) {
    && (forall i: nat :: i < |s| ==> DepthAt(depths, s[i]) >= level)
    && (forall i: nat :: i < |s| && DepthAt(depths, s[i]) == level ==> s[i].parent == Some(p))
    && (forall i: nat :: 0 < i < |s| ==> DepthAt(depths, s[i]) <= DepthAt(depths, s[i - 1]) + 1)
    && (s != [] ==> DepthAt(depths, s[0]) == level)
  }

  ghost predicate Answered(s: seq<Reply>, depths: map<nat, nat>, i: nat)
    requires i < |s|
  {
    exists j: nat :: j < i && LatestAbove(s, depths, i, j)
  }

  /** A stretch of the order at and below level `level`, whose top entries answer `p`. */
  ghost predicate Nested(s: seq<Reply>, depths: map<nat, nat>, level: nat, p: nat) {
    && Climbs(s, depths, level, p)
    && forall i: nat :: i < |s| && DepthAt(depths, s[i]) > level ==> Answered(s, depths, i)
  }

  lemma JoinAt(kid: Reply, sub: seq<Reply>, rest: seq<Reply>, i: nat)
    requires i < 1 + |sub| + |rest|
    ensures ([kid] + sub + rest)[i] ==
            if i == 0 then kid else if i <= |sub| then sub[i - 1] else rest[i - |sub| - 1]
  {
  }

  lemma JoinClimbs(kid: Reply, sub: seq<Reply>, rest: seq<Reply>, depths: map<nat, nat>, level: nat, p: nat)
    requires DepthAt(depths, kid) == level && kid.parent == Some(p)
    requires Climbs(sub, depths, level + 1, kid.id) && Climbs(rest, depths, level, p)
    ensures Climbs([kid] + sub + rest, depths, level, p)
  {
    hide DepthAt;
    var s := [kid] + sub + rest;
    forall i: nat | i < |s|
      ensures DepthAt(depths, s[i]) >= level
      ensures DepthAt(depths, s[i]) == level ==> s[i].parent == Some(p)
      ensures i > 0 ==> DepthAt(depths, s[i]) <= DepthAt(depths, s[i - 1]) + 1
    {
      JoinAt(kid, sub, rest, i);
      if i > 0 {
        JoinAt(kid, sub, rest, i - 1);
      }
    }
  }

  /** An answer stays the answer when a stretch is put after `n` other entries. */
  lemma ShiftAnswer(s: seq<Reply>, part: seq<Reply>, n: nat, depths: map<nat, nat>, i: nat)
    requires n + |part| <= |s| && s[n..n + |part|] == part && i < |part| && Answered(part, depths, i)
    ensures Answered(s, depths, n + i)
  {
    hide DepthAt;
    forall k: nat | k < |part| ensures s[n + k] == part[k] {
      assert s[n..n + |part|][k] == s[n + k];
    }
    var j: nat :| j < i && LatestAbove(part, depths, i, j);
    forall k: nat | n + j < k < n + i ensures DepthAt(depths, s[k]) > DepthAt(depths, s[n + j]) {
      assert s[n + (k - n)] == part[k - n];
    }
    assert LatestAbove(s, depths, n + i, n + j);
  }

  lemma FirstAnswers(kid: Reply, sub: seq<Reply>, rest: seq<Reply>, depths: map<nat, nat>, level: nat, i: nat)
    requires DepthAt(depths, kid) == level && 0 < i <= |sub|
    requires Climbs(sub, depths, level + 1, kid.id) && DepthAt(depths, sub[i - 1]) == level + 1
    ensures Answered([kid] + sub + rest, depths, i)
  {
    hide DepthAt;
    var s := [kid] + sub + rest;
    forall k: nat | 0 < k <= i ensures s[k] == sub[k - 1] {
      JoinAt(kid, sub, rest, k);
    }
    assert LatestAbove(s, depths, i, 0);
  }

  lemma JoinNested(kid: Reply, sub: seq<Reply>, rest: seq<Reply>, depths: map<nat, nat>, level: nat, p: nat)
    requires DepthAt(depths, kid) == level && kid.parent == Some(p)
    requires Nested(sub, depths, level + 1, kid.id) && Nested(rest, depths, level, p)
    ensures Nested([kid] + sub + rest, depths, level, p)
  {
    hide DepthAt, Climbs, Answered;
    var s, n := [kid] + sub + rest, |sub|;
    JoinClimbs(kid, sub, rest, depths, level, p);
    forall i: nat | i < |s| && DepthAt(depths, s[i]) > level ensures Answered(s, depths, i) {
      JoinAt(kid, sub, rest, i);
      if i > n {
        assert s[n + 1..n + 1 + |rest|] == rest;
        ShiftAnswer(s, rest, n + 1, depths, i - n - 1);
      } else if DepthAt(depths, s[i]) == level + 1 {
        FirstAnswers(kid, sub, rest, depths, level, i);
      } else {
        assert s[1..1 + n] == sub;
        ShiftAnswer(s, sub, 1, depths, i - 1);
      }
    }
  }

  lemma {:induction false} VisitNested(replies: seq<Reply>, root: nat, c: seq<Reply>, kids: seq<Reply>,
                                       depths: map<nat, nat>)
    requires Tree(replies, root) && Chain(replies, root, c) && AllUnder(replies, root, c, kids)
    requires DepthsOf(replies, root, depths)
    ensures Nested(Visit(replies, root, c, kids), depths, |c| + 1, Top(root, c))
    decreases |replies| - |c|, |kids|
  {
    hide Chain, Tree, Named, LoopFree, Group, Nested;
    if kids == [] {
      EmptyNested(depths, |c| + 1, Top(root, c));
    } else {
      var kid, others := kids[0], kids[1..];
      var down := c + [kid];
      Extend(replies, root, c, kid);
      GroupUnder(replies, root, down);
      VisitNested(replies, root, down, Group(replies, kid.id), depths);
      VisitNested(replies, root, c, others, depths);
      assert DepthAt(depths, kid) == |down|;
      JoinNested(kid, Visit(replies, root, down, Group(replies, kid.id)), Visit(replies, root, c, others),
                 depths, |c| + 1, Top(root, c));
    }
  }

  lemma EmptyNested(depths: map<nat, nat>, level: nat, p: nat)
    ensures Nested([], depths, level, p)
  {
  }

  /** The depth-first order and the breadth-first depths fit together: an entry is either a
      direct reply to the root, at depth 1, or answers the latest entry before it that is one
      level up; the depth rises by at most one from an entry to the next. */
  lemma OrderMatchesDepths(replies: seq<Reply>, root: nat, depths: map<nat, nat>)
    requires Tree(replies, root) && DepthsOf(replies, root, depths)
    ensures Nested(Preorder(replies, root), depths, 1, root)
  {
    hide Chain, Tree, Named, LoopFree, Group, Visit, Nested;
    EmptyChain(replies, root);
    GroupUnder(replies, root, []);
    VisitNested(replies, root, [], Group(replies, root), depths);
  }

  // ---------------------------------------------------------------- the code of format.go

  function Kids(children: map<nat, seq<Reply>>, p: nat): seq<Reply> {
    if p in children then children[p] else []
  }

  /** The map from a parent to its replies, built by both functions of the source. */
  method BuildChildren(replies: seq<Reply>) returns (children: map<nat, seq<Reply>>)
    ensures forall p: nat :: Kids(children, p) == Children(replies, p)
  {
    children := map[];
    for i := 0 to |replies|
      invariant forall p: nat :: Kids(children, p) == Children(replies[..i], p)
    {
      var r := replies[i];
      assert replies[..i + 1][..i] == replies[..i];
      if r.parent.Some? {
        var p := r.parent.value;
        children := children[p := Kids(children, p) + [r]];
      }
    }
    assert replies[..|replies|] == replies;
  }

  /** Sorts every group; the order in which the groups are taken does not matter. */
  method SortGroups(replies: seq<Reply>, children: map<nat, seq<Reply>>) returns (sorted: map<nat, seq<Reply>>)
    requires forall p: nat :: Kids(children, p) == Children(replies, p)
    ensures forall p: nat :: Kids(sorted, p) == Group(replies, p)
  {
    hide Children, Passes;
    sorted := children;
    var todo := children.Keys;
    while todo != {}
      invariant todo <= children.Keys == sorted.Keys
      invariant forall p :: p in sorted ==>
                  sorted[p] == if p in todo then children[p] else Exchanged(children[p])
      decreases |todo|
    {
      var p :| p in todo;
      var group := sorted[p];
      var a := new Reply[|group|](i requires 0 <= i < |group| => group[i]);
      assert a[..] == group;
      ExchangeSort(a);
      sorted := sorted[p := a[..]];
      todo := todo - {p};
    }
    assert Exchanged([]) == [] by { EmptySorted(); }
  }

  lemma EmptySorted()
    ensures Exchanged([]) == []
  {
  }

  /** The closure `traverse`: appends what hangs below `parentID` to the result so far. */
  method Traverse(ghost replies: seq<Reply>, ghost root: nat, ghost c: seq<Reply>,
                  children: map<nat, seq<Reply>>, parentID: nat, acc: seq<Reply>)
    returns (result: seq<Reply>)
    requires LoopFree(replies, root) && Chain(replies, root, c) && Top(root, c) == parentID
    requires forall p: nat :: Kids(children, p) == Group(replies, p)
    ensures AllUnder(replies, root, c, Group(replies, parentID))
    ensures result == acc + Visit(replies, root, c, Group(replies, parentID))
    decreases |replies| - |c|
  {
    hide LoopFree, Chain, Group, AllUnder, Top;
    result := acc;
    GroupUnder(replies, root, c);
    var kids := Kids(children, parentID);
    for i := 0 to |kids|
      invariant AllUnder(replies, root, c, kids[i..])
      invariant result + Visit(replies, root, c, kids[i..]) == acc + Visit(replies, root, c, kids)
    {
      var child := kids[i];
      assert kids[i..][0] == child && kids[i..][1..] == kids[i + 1..];
      OneKid(replies, root, c, kids[i..]);
      result := result + [child];
      result := Traverse(replies, root, c + [child], children, child.id, result);
    }
    assert kids[|kids|..] == [];
  }

  lemma OneKid(replies: seq<Reply>, root: nat, c: seq<Reply>, kids: seq<Reply>)
    requires LoopFree(replies, root) && Chain(replies, root, c) && AllUnder(replies, root, c, kids) && kids != []
    ensures AllUnder(replies, root, c, kids[1..]) && |c| < |replies|
    ensures Chain(replies, root, c + [kids[0]]) && Top(root, c + [kids[0]]) == kids[0].id
    ensures AllUnder(replies, root, c + [kids[0]], Group(replies, kids[0].id))
    ensures Visit(replies, root, c, kids) ==
            [kids[0]] + Visit(replies, root, c + [kids[0]], Group(replies, kids[0].id))
            + Visit(replies, root, c, kids[1..])
  {
    hide LoopFree, Chain, Group;
    Extend(replies, root, c, kids[0]);
    GroupUnder(replies, root, c + [kids[0]]);
  }

  method SortThreadReplies(replies: seq<Reply>, rootID: nat) returns (result: seq<Reply>)
    requires LoopFree(replies, rootID)
    ensures result == Preorder(replies, rootID)
  {
    EmptyChain(replies, rootID);
    EmptySorted();
    if |replies| == 0 {
      return replies;
    }
    hide LoopFree, Chain, Group, Visit, Children, Passes, Exchanged;
    var children := BuildChildren(replies);
    children := SortGroups(replies, children);
    result := Traverse(replies, rootID, [], children, rootID, []);
  }

  // ---------------------------------------------------------------- the breadth-first search

  /** Whatever IDs occur twice: the depth of an ID is the length of the longest chain to it. */
  ghost predicate Longest(replies: seq<Reply>, root: nat, depths: map<nat, nat>) {
    && (forall c :: Chain(replies, root, c) ==> Top(root, c) in depths && |c| <= depths[Top(root, c)])
    && (forall id :: id in depths ==> exists c :: Chain(replies, root, c) && Top(root, c) == id && |c| == depths[id])
  }

  /** With the IDs that the server gives, it is the length of the only one. */
  lemma LongestIsDepths(replies: seq<Reply>, root: nat, depths: map<nat, nat>)
    requires Tree(replies, root) && Longest(replies, root, depths)
    ensures DepthsOf(replies, root, depths)
  {
    hide Chain, Tree, Named, LoopFree;
    forall c | Chain(replies, root, c) ensures Top(root, c) in depths && depths[Top(root, c)] == |c| {
      var d :| Chain(replies, root, d) && Top(root, d) == Top(root, c) && |d| == depths[Top(root, c)];
      ChainUnique(replies, root, c, d);
    }
  }

  /** How many chains go on from `c` through one of `kids`. */
  ghost function Below(replies: seq<Reply>, root: nat, c: seq<Reply>, kids: seq<Reply>): nat
    requires LoopFree(replies, root) && Chain(replies, root, c) && AllUnder(replies, root, c, kids)
    decreases |replies| - |c|, |kids|
  {
    if kids == [] then 0
    else
      Extend(replies, root, c, kids[0]);
      ChildrenUnder(replies, root, c + [kids[0]]);
      assert forall r :: r in kids[1..] ==> r in kids;
      1 + Below(replies, root, c + [kids[0]], Children(replies, kids[0].id)) + Below(replies, root, c, kids[1..])
  }

  lemma ChildrenUnder(replies: seq<Reply>, root: nat, c: seq<Reply>)
    ensures AllUnder(replies, root, c, Children(replies, Top(root, c)))
  {
    forall r | r in Children(replies, Top(root, c)) ensures r in replies && r.parent == Some(Top(root, c)) {
      ChildrenMember(replies, Top(root, c), r);
    }
  }

  ghost predicate AllChains(replies: seq<Reply>, root: nat, chains: seq<seq<Reply>>) {
    forall c :: c in chains ==> Chain(replies, root, c)
  }

  /** How many chains the search has still to take from its queue, where `pending` are. */
  ghost function Remaining(replies: seq<Reply>, root: nat, pending: seq<seq<Reply>>): nat
    requires LoopFree(replies, root) && AllChains(replies, root, pending)
  {
    if pending == [] then 0
    else
      var n := |pending| - 1;
      var c := pending[n];
      ChildrenUnder(replies, root, c);
      assert forall d :: d in pending[..n] ==> d in pending;
      Remaining(replies, root, pending[..n]) + 1 + Below(replies, root, c, Children(replies, Top(root, c)))
  }

  lemma RemainingSnoc(replies: seq<Reply>, root: nat, pending: seq<seq<Reply>>, c: seq<Reply>)
    requires LoopFree(replies, root) && AllChains(replies, root, pending) && Chain(replies, root, c)
    ensures AllChains(replies, root, pending + [c]) && AllUnder(replies, root, c, Children(replies, Top(root, c)))
    ensures Remaining(replies, root, pending + [c]) ==
            Remaining(replies, root, pending) + 1 + Below(replies, root, c, Children(replies, Top(root, c)))
  {
    hide Chain, LoopFree, Below, Children;
    ChildrenUnder(replies, root, c);
    assert (pending + [c])[..|pending|] == pending;
  }

  lemma {:induction false} RemainingFirst(replies: seq<Reply>, root: nat, pending: seq<seq<Reply>>)
    requires LoopFree(replies, root) && AllChains(replies, root, pending) && pending != []
    ensures AllChains(replies, root, pending[1..])
    ensures AllUnder(replies, root, pending[0], Children(replies, Top(root, pending[0])))
    ensures Remaining(replies, root, pending) ==
            Remaining(replies, root, pending[1..]) + 1
            + Below(replies, root, pending[0], Children(replies, Top(root, pending[0])))
    decreases |pending|
  {
    hide Chain, LoopFree, Below, Children, AllUnder;
    var n := |pending| - 1;
    assert forall d :: d in pending[1..] ==> d in pending;
    assert forall d :: d in pending[..n] ==> d in pending;
    ChildrenUnder(replies, root, pending[0]);
    if n == 0 {
      assert pending[1..] == [] && pending[..n] == [];
    } else {
      RemainingFirst(replies, root, pending[..n]);
      assert pending[1..][..n - 1] == pending[..n][1..] && pending[1..][n - 1] == pending[n];
    }
  }

  /** All replies to the end of the chain have been met there. */
  ghost predicate Opened(replies: seq<Reply>, root: nat, seen: seq<seq<Reply>>, c: seq<Reply>) {
    forall r :: r in replies && r.parent == Some(Top(root, c)) ==> c + [r] in seen
  }

  /** The depths so far: none is too small for a chain that has been met, and each is the length of
      some chain. */
  ghost predicate Sound(replies: seq<Reply>, root: nat, depths: map<nat, nat>, seen: seq<seq<Reply>>) {
    && (forall c :: c in seen ==> Top(root, c) in depths && |c| <= depths[Top(root, c)])
    && (forall id :: id in depths ==> exists c :: Chain(replies, root, c) && Top(root, c) == id && |c| == depths[id])
  }

  /** The chains that have been met, `seen`, are no longer than `level` + 1; those not opened yet,
      `pending`, no shorter than `level`, and ordered by length. */
  ghost predicate Levels(seen: seq<seq<Reply>>, pending: seq<seq<Reply>>, level: nat) {
    && (forall c :: c in seen ==> |c| <= level + 1)
    && (forall c :: c in pending ==> c in seen && level <= |c|)
    && (forall i, j :: 0 <= i < j < |pending| ==> |pending[i]| <= |pending[j]|)
  }

  /** The search: `busy` is the chain whose end is being handled, if any. */
  ghost predicate Searching(replies: seq<Reply>, root: nat, depths: map<nat, nat>, seen: seq<seq<Reply>>,
                            pending: seq<seq<Reply>>, busy: Option<seq<Reply>>, level: nat)
  {
    && [] in seen && AllChains(replies, root, seen)
    && Sound(replies, root, depths, seen) && Levels(seen, pending, level)
    && forall c :: c in seen ==> c in pending || busy == Some(c) || Opened(replies, root, seen, c)
  }

  ghost predicate Queued(root: nat, queue: seq<nat>, pending: seq<seq<Reply>>) {
    |queue| == |pending| && forall i :: 0 <= i < |queue| ==> queue[i] == Top(root, pending[i])
  }

  lemma StartSearch(replies: seq<Reply>, root: nat)
    ensures Searching(replies, root, map[root := 0], [[]], [[]], None, 0) && Queued(root, [root], [[]])
  {
    assert Chain(replies, root, []) && Top(root, []) == root;
  }

  /** Taking the first chain from the queue. */
  lemma TakeFirst(replies: seq<Reply>, root: nat, depths: map<nat, nat>, seen: seq<seq<Reply>>,
                  pending: seq<seq<Reply>>, level: nat)
    requires Searching(replies, root, depths, seen, pending, None, level) && pending != []
    ensures var c := pending[0];
      && Chain(replies, root, c) && c in seen && Top(root, c) in depths && |c| <= depths[Top(root, c)]
      && Searching(replies, root, depths, seen, pending[1..], Some(c), |c|)
  {
    hide Chain, Opened, Top;
    var c := pending[0];
    assert forall d :: d in pending <==> d == c || d in pending[1..];
    assert c in pending;
    forall i, j | 0 <= i < j < |pending[1..]| ensures |pending[1..][i]| <= |pending[1..][j]| {
      assert pending[1..][i] == pending[i + 1] && pending[1..][j] == pending[j + 1];
    }
    forall d | d in pending[1..] ensures |c| <= |d| {
      var i :| 0 <= i < |pending[1..]| && pending[1..][i] == d;
      assert pending[i + 1] == d;
    }
  }

  lemma StillSound(replies: seq<Reply>, root: nat, depths: map<nat, nat>, seen: seq<seq<Reply>>, d: seq<Reply>,
                   above: seq<Reply>)
    requires Sound(replies, root, depths, seen) && Chain(replies, root, above) && Top(root, above) == Top(root, d)
    requires |d| <= |above| && forall c :: c in seen ==> |c| <= |above|
    ensures Sound(replies, root, depths[Top(root, d) := |above|], seen + [d])
  {
    hide Chain, Top;
    var next := depths[Top(root, d) := |above|];
    forall id | id in next
      ensures exists e :: Chain(replies, root, e) && Top(root, e) == id && |e| == next[id]
    {
      assert id == Top(root, d) ==> Chain(replies, root, above);
    }
  }

  lemma NextLevel(seen: seq<seq<Reply>>, pending: seq<seq<Reply>>, level: nat, d: seq<Reply>)
    requires Levels(seen, pending, level) && |d| == level + 1
    ensures Levels(seen + [d], pending + [d], level)
  {
  }

  /** Meeting a reply to the end of the chain: its depth becomes that of the end and one more,
      which is not less than before. */
  lemma AddChild(replies: seq<Reply>, root: nat, depths: map<nat, nat>, seen: seq<seq<Reply>>,
                 pending: seq<seq<Reply>>, c: seq<Reply>, child: Reply, above: seq<Reply>)
    requires LoopFree(replies, root) && Searching(replies, root, depths, seen, pending, Some(c), |c|)
    requires c in seen && child in replies && child.parent == Some(Top(root, c))
    requires Chain(replies, root, above) && Top(root, above) == Top(root, c) && |c| <= |above|
    ensures var d := c + [child];
      && Chain(replies, root, d) && Top(root, d) == child.id
      && Searching(replies, root, depths[child.id := |above| + 1], seen + [d], pending + [d], Some(c), |c|)
  {
    hide Chain, LoopFree, Top, Opened, Sound;
    var d := c + [child];
    Extend(replies, root, c, child);
    Extend(replies, root, above, child);
    assert |above + [child]| == |above| + 1;
    StillSound(replies, root, depths, seen, d, above + [child]);
    NextLevel(seen, pending, |c|, d);
    hide Levels;
    forall e | e in seen + [d]
      ensures e in pending + [d] || Some(c) == Some(e) || Opened(replies, root, seen + [d], e)
    {
      if e in seen && e !in pending && e != c {
        StillOpened(replies, root, seen, d, e);
      }
    }
  }

  lemma StillOpened(replies: seq<Reply>, root: nat, seen: seq<seq<Reply>>, d: seq<Reply>, e: seq<Reply>)
    requires Opened(replies, root, seen, e)
    ensures Opened(replies, root, seen + [d], e)
  {
  }

  /** When all replies to its end have been met the chain is done with. */
  lemma CloseParent(replies: seq<Reply>, root: nat, depths: map<nat, nat>, seen: seq<seq<Reply>>,
                    pending: seq<seq<Reply>>, c: seq<Reply>, level: nat)
    requires Searching(replies, root, depths, seen, pending, Some(c), level)
    requires forall k :: 0 <= k < |Children(replies, Top(root, c))| ==> c + [Children(replies, Top(root, c))[k]] in seen
    ensures Searching(replies, root, depths, seen, pending, None, level)
  {
    hide Chain, Top, Children;
    forall r | r in replies && r.parent == Some(Top(root, c)) ensures c + [r] in seen {
      ChildrenMember(replies, Top(root, c), r);
    }
    assert Opened(replies, root, seen, c);
  }

  lemma {:induction false} AllMet(replies: seq<Reply>, root: nat, depths: map<nat, nat>, seen: seq<seq<Reply>>,
                                  level: nat, c: seq<Reply>)
    requires Searching(replies, root, depths, seen, [], None, level) && Chain(replies, root, c)
    ensures c in seen
  {
    hide Chain, Sound, Levels, AllChains;
    if c != [] {
      var n := |c| - 1;
      ChainPrefix(replies, root, c, n);
      AllMet(replies, root, depths, seen, level, c[..n]);
      assert c == c[..n] + [c[n]];
      assert Opened(replies, root, seen, c[..n]);
    }
  }

  /** When the queue is empty the map holds the depths. */
  lemma SearchEnds(replies: seq<Reply>, root: nat, depths: map<nat, nat>, seen: seq<seq<Reply>>, level: nat)
    requires Searching(replies, root, depths, seen, [], None, level)
    ensures Longest(replies, root, depths)
  {
    hide Chain, Top;
    forall c | Chain(replies, root, c) ensures Top(root, c) in depths && |c| <= depths[Top(root, c)] {
      AllMet(replies, root, depths, seen, level, c);
    }
  }

  lemma DepthChain(replies: seq<Reply>, root: nat, depths: map<nat, nat>, seen: seq<seq<Reply>>,
                   pending: seq<seq<Reply>>, busy: Option<seq<Reply>>, level: nat, id: nat)
    returns (above: seq<Reply>)
    requires Searching(replies, root, depths, seen, pending, busy, level) && id in depths
    ensures Chain(replies, root, above) && Top(root, above) == id && |above| == depths[id]
  {
    hide Chain, Top;
    above :| Chain(replies, root, above) && Top(root, above) == id && |above| == depths[id];
  }

  lemma PendingChains(replies: seq<Reply>, root: nat, depths: map<nat, nat>, seen: seq<seq<Reply>>,
                      pending: seq<seq<Reply>>, busy: Option<seq<Reply>>, level: nat)
    requires Searching(replies, root, depths, seen, pending, busy, level)
    ensures AllChains(replies, root, pending)
  {
    hide Chain;
  }

  /** One more reply handled: what it adds to the queue it takes from what is left to meet. */
  lemma OneBelow(replies: seq<Reply>, root: nat, c: seq<Reply>, kids: seq<Reply>)
    requires LoopFree(replies, root) && Chain(replies, root, c) && AllUnder(replies, root, c, kids) && kids != []
    ensures AllUnder(replies, root, c, kids[1..]) && Chain(replies, root, c + [kids[0]])
    ensures Top(root, c + [kids[0]]) == kids[0].id
    ensures AllUnder(replies, root, c + [kids[0]], Children(replies, kids[0].id))
    ensures Below(replies, root, c, kids) ==
            1 + Below(replies, root, c + [kids[0]], Children(replies, kids[0].id)) + Below(replies, root, c, kids[1..])
  {
    hide LoopFree, Chain, Children;
    Extend(replies, root, c, kids[0]);
    ChildrenUnder(replies, root, c + [kids[0]]);
  }

  method CalculateThreadDepths(rootID: nat, replies: seq<Reply>) returns (depths: map<nat, nat>)
    requires LoopFree(replies, rootID)
    ensures Longest(replies, rootID, depths)
    ensures Tree(replies, rootID) ==> DepthsOf(replies, rootID, depths)
  {
    hide *;
    depths := map[rootID := 0];
    var children := BuildChildren(replies);
    var queue := [rootID];
    ghost var seen, pending: seq<seq<Reply>>, level: nat := [[]], [[]], 0;
    StartSearch(replies, rootID);
    PendingChains(replies, rootID, depths, seen, pending, None, level);
    while |queue| > 0
      invariant Queued(rootID, queue, pending) && AllChains(replies, rootID, pending)
      invariant Searching(replies, rootID, depths, seen, pending, None, level)
      decreases Remaining(replies, rootID, pending)
    {
      QueueHead(rootID, queue, pending);
      var parentID := queue[0];
      ghost var chain, before := pending[0], pending;
      TakeFirst(replies, rootID, depths, seen, pending, level);
      RemainingFirst(replies, rootID, pending);
      queue, pending, level := queue[1..], pending[1..], |chain|;
      var parentDepth := depths[parentID];
      ghost var above := DepthChain(replies, rootID, depths, seen, pending, Some(chain), level, parentID);
      var kids := Kids(children, parentID);
      assert kids[0..] == kids;
      for i := 0 to |kids|
        invariant Queued(rootID, queue, pending) && AllChains(replies, rootID, pending)
        invariant Searching(replies, rootID, depths, seen, pending, Some(chain), level) && chain in seen
        invariant forall k :: 0 <= k < i ==> chain + [kids[k]] in seen
        invariant AllUnder(replies, rootID, chain, kids[i..])
        invariant Remaining(replies, rootID, pending) + Below(replies, rootID, chain, kids[i..]) <
                  Remaining(replies, rootID, before)
      {
        var child := kids[i];
        assert kids[i..][0] == child && kids[i..][1..] == kids[i + 1..];
        assert child in kids[i..];
        UnderIs(replies, rootID, chain, kids[i..], child);
        AddChild(replies, rootID, depths, seen, pending, chain, child, above);
        OneBelow(replies, rootID, chain, kids[i..]);
        RemainingSnoc(replies, rootID, pending, chain + [child]);
        QueueSnoc(rootID, queue, pending, chain + [child]);
        depths := depths[child.id := parentDepth + 1];
        queue := queue + [child.id];
        seen, pending := seen + [chain + [child]], pending + [chain + [child]];
      }
      CloseParent(replies, rootID, depths, seen, pending, chain, level);
    }
    QueueEmpty(rootID, queue, pending);
    SearchEnds(replies, rootID, depths, seen, level);
    if Tree(replies, rootID) {
      LongestIsDepths(replies, rootID, depths);
    }
  }

  lemma UnderIs(replies: seq<Reply>, root: nat, c: seq<Reply>, kids: seq<Reply>, r: Reply)
    requires AllUnder(replies, root, c, kids) && r in kids
    ensures r in replies && r.parent == Some(Top(root, c))
  {
  }

  lemma QueueHead(root: nat, queue: seq<nat>, pending: seq<seq<Reply>>)
    requires Queued(root, queue, pending) && queue != []
    ensures pending != [] && queue[0] == Top(root, pending[0]) && Queued(root, queue[1..], pending[1..])
  {
  }

  lemma QueueSnoc(root: nat, queue: seq<nat>, pending: seq<seq<Reply>>, c: seq<Reply>)
    requires Queued(root, queue, pending)
    ensures Queued(root, queue + [Top(root, c)], pending + [c])
  {
  }

  lemma QueueEmpty(root: nat, queue: seq<nat>, pending: seq<seq<Reply>>)
    requires Queued(root, queue, pending) && |queue| == 0
    ensures pending == []
  {
  }
}
