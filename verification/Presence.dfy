/** Broadcasts and the removal cascade (pkg/server/server.go, pkg/server/handlers.go).

    Removing a session notifies the others; every write may fail, and a session whose write
    failed is removed in turn, which notifies again.  Write outcomes are an oracle: `Write`
    returns any answer, so each contract holds for every pattern of failures. */
module Presence {
  import opened Sessions
  import opened Sets
  import opened Wrappers

  datatype Message =
    | ServerPresence(sessionId: nat, nickname: string, userId: Option<int>, admin: bool, online: bool)
    | ChannelPresence(channelId: nat, sessionId: nat, nickname: string, userId: Option<int>, admin: bool, joined: bool)
    | NewMessage(messageId: nat, channelId: nat, parentId: Option<nat>)

  datatype Delivery = Delivery(target: nat, message: Message, ok: bool)

  type Log = seq<Delivery>

  // ---------------------------------------------------------------- the worker split

  const MAX_WORKERS := 40
  const SESSIONS_PER_WORKER := 50

  function WorkerCount(n: nat): (w: nat)
    requires n > 0
    ensures 1 <= w <= 40 && (w - 1) * 50 < n
    ensures w == 40 || n <= w * 50
  {
    var w := (n + SESSIONS_PER_WORKER - 1) / SESSIONS_PER_WORKER;
    if w > MAX_WORKERS then MAX_WORKERS else w
  }

  function ChunkSize(n: nat): (chunk: nat)
    requires n > 0
    ensures chunk > 0
  {
    var w := WorkerCount(n);
    CeilDiv(n, w);
    (n + w - 1) / w
  }

  lemma CeilDiv(n: nat, w: nat)
    requires n > 0 && w > 0
    ensures var chunk := (n + w - 1) / w; 0 < chunk && n <= w * chunk <= n + w - 1
  {
    var q, r := (n + w - 1) / w, (n + w - 1) % w;
    assert n + w - 1 == w * q + r;
  }

  function Low(n: nat, i: nat): nat
    requires n > 0
  {
    i * ChunkSize(n)
  }

  function High(n: nat, i: nat): nat
    requires n > 0
  {
    if Low(n, i) + ChunkSize(n) > n then n else Low(n, i) + ChunkSize(n)
  }

  lemma MulMono(k: nat, x: nat, y: nat)
    requires x <= y
    ensures k * x <= k * y && x * k <= y * k
  {
  }

  lemma LastStart(w: nat, chunk: nat, n: nat)
    requires w > 0 && w * chunk <= n + w - 1 && (w - 1) * (w - 1) <= n
    ensures (w - 1) * chunk <= n
  {
    var a := w - 1;
    if a * chunk > n {
      assert w * chunk == a * chunk + chunk;
      MulMono(a, chunk, a);
    }
  }

  /** No worker's slice starts past the end.  It needs (w - 1)^2 <= n, which the constants give. */
  lemma LastWorkerInRange(n: nat, i: nat)
    requires n > 0 && i < WorkerCount(n)
    ensures Low(n, i) <= n
  {
    var w, chunk := WorkerCount(n), ChunkSize(n);
    CeilDiv(n, w);
    MulMono(w - 1, w - 1, SESSIONS_PER_WORKER);
    LastStart(w, chunk, n);
    MulMono(chunk, i, w - 1);
  }

  /** Position `k` belongs to worker `i`'s slice. */
  ghost predicate InSlice(n: nat, i: nat, k: nat)
    requires n > 0
  {
    i < WorkerCount(n) && Low(n, i) <= k < High(n, i)
  }

  ghost predicate Covered(n: nat, k: nat)
    requires n > 0
  {
    exists i: nat :: InSlice(n, i, k)
  }

  lemma Quotient(w: nat, chunk: nat, n: nat, k: nat) returns (i: nat)
    requires chunk > 0 && n <= w * chunk && k < n
    ensures i < w && i * chunk <= k < i * chunk + chunk
  {
    i := k / chunk;
    assert k == i * chunk + k % chunk;
    if w <= i {
      MulMono(chunk, w, i);
      assert false;
    }
  }

  lemma EveryPositionCovered(n: nat, k: nat)
    requires k < n
    ensures Covered(n, k)
  {
    CeilDiv(n, WorkerCount(n));
    var i := Quotient(WorkerCount(n), ChunkSize(n), n, k);
    assert InSlice(n, i, k);
  }

  lemma SlicesApart(n: nat, i: nat, j: nat)
    requires n > 0 && i < j < WorkerCount(n)
    ensures High(n, i) <= Low(n, j)
  {
    hide ChunkSize, WorkerCount;
    MulMono(ChunkSize(n), i + 1, j);
  }

  /** The slices are in range, and every position lies in exactly one of them. */
  lemma ChunksPartition(n: nat)
    requires n > 0
    ensures forall i :: 0 <= i < WorkerCount(n) ==> Low(n, i) <= High(n, i) <= n
    ensures forall k: nat :: k < n ==> Covered(n, k)
    ensures forall k: nat, i: nat, j: nat :: InSlice(n, i, k) && InSlice(n, j, k) ==> i == j
  {
    forall i | 0 <= i < WorkerCount(n) ensures Low(n, i) <= High(n, i) <= n {
      LastWorkerInRange(n, i);
    }
    forall k: nat | k < n ensures Covered(n, k) {
      EveryPositionCovered(n, k);
    }
    forall k: nat, i: nat, j: nat | InSlice(n, i, k) && InSlice(n, j, k) ensures i == j {
      if i < j {
        SlicesApart(n, i, j);
      } else if j < i {
        SlicesApart(n, j, i);
      }
    }
  }

  // ---------------------------------------------------------------- what a cascade promises

  /** The registered sessions and every write attempted so far. */
  datatype World = World(sessions: Registry, log: Log)

  ghost predicate Got(log: Log, from: nat, d: Delivery) {
    exists i :: from <= i < |log| && log[i] == d
  }

  ghost predicate FailedWrite(log: Log, from: nat, id: nat) {
    exists i :: from <= i < |log| && log[i].target == id && !log[i].ok
  }

  function ServerNotice(s: Session, online: bool): Message {
    ServerPresence(s.id, s.nickname, s.userId, s.admin, online)
  }

  function ChannelNotice(channelId: nat, s: Session, joined: bool): Message {
    ChannelPresence(channelId, s.id, s.nickname, s.userId, s.admin, joined)
  }

  /** A broadcast to a channel is for the sessions that joined it and for its subscribers. */
  function Members(sessions: Registry, channelId: nat): set<nat> {
    set t | t in sessions && (sessions[t].joined == Some(channelId) || channelId in sessions[t].channels)
  }

  /** What is said of a session that has gone. */
  ghost function GoneOffline(s: Session): Message {
    ServerPresence(sessionId := s.id, nickname := s.nickname, userId := s.userId, admin := s.admin, online := false)
  }

  ghost function GoneFrom(channelId: nat, s: Session): Message {
    ChannelPresence(channelId := channelId, sessionId := s.id, nickname := s.nickname, userId := s.userId,
                    admin := s.admin, joined := false)
  }

  ghost predicate InChannel(s: Session, channelId: nat) {
    s.joined == Some(channelId) || channelId in s.channels
  }

  /** Survivor `t` was told, successfully, that `r` is offline and left its channel. */
  ghost predicate Told(sessions: Registry, log: Log, from: nat, r: nat, t: nat)
    requires r in sessions && t in sessions
  {
    var s := sessions[r];
    && Got(log, from, Delivery(t, GoneOffline(s), true))
    && (s.joined.Some? && InChannel(sessions[t], s.joined.value) ==>
          Got(log, from, Delivery(t, GoneFrom(s.joined.value, s), true)))
  }

  /** A write of the message to `target` was attempted. */
  ghost predicate Tried(log: Log, from: nat, target: nat, message: Message) {
    exists i :: from <= i < |log| && log[i].target == target && log[i].message == message
  }

  /** From world `w` to world `v`: sessions only disappear, the others' data is untouched, every
      survivor was told of every removed session that had a nickname, that session itself was sent
      word that it left its channel, and apart from those `asked` for a session is removed only
      after a failed write to it. */
  ghost predicate Cascaded(w: World, asked: set<nat>, v: World) {
    && w.log <= v.log
    && v.sessions.Keys <= w.sessions.Keys
    && (forall t :: t in v.sessions ==> v.sessions[t] == w.sessions[t])
    && (forall r, t :: r in w.sessions && r !in v.sessions && t in v.sessions && w.sessions[r].nickname != "" ==>
          Told(w.sessions, v.log, |w.log|, r, t))
    && (forall r :: r in w.sessions && r !in v.sessions ==>
          w.sessions[r].nickname != "" && w.sessions[r].joined.Some? ==>
            Tried(v.log, |w.log|, w.sessions[r].id, GoneFrom(w.sessions[r].joined.value, w.sessions[r])))
    && (forall r :: r in w.sessions && r !in v.sessions && r !in asked ==> FailedWrite(v.log, |w.log|, r))
  }

  /** What a cascade promises, written out.  Of each removed session with a nickname, each that is
      left got word that it is offline and, if both were in a channel, that it left the channel; and
      that was written to the removed session itself. */
  ghost predicate AllTold(w: World, v: World) {
    && (forall r, t :: r in w.sessions && r !in v.sessions && t in v.sessions ==>
          var s := w.sessions[r];
          s.nickname != "" ==>
            && Got(v.log, |w.log|, Delivery(
                 target := t, ok := true,
                 message := ServerPresence(sessionId := r, nickname := s.nickname, userId := s.userId, admin := s.admin,
                                           online := false)))
            && (s.joined.Some? && (v.sessions[t].joined == s.joined || s.joined.value in v.sessions[t].channels) ==>
                  Got(v.log, |w.log|, Delivery(
                    target := t, ok := true,
                    message := ChannelPresence(channelId := s.joined.value, sessionId := r, nickname := s.nickname,
                                               userId := s.userId, admin := s.admin, joined := false)))))
    && (forall r :: r in w.sessions && r !in v.sessions ==>
          var s := w.sessions[r];
          s.nickname != "" && s.joined.Some? ==>
            Tried(v.log, |w.log|, r, ChannelPresence(
              channelId := s.joined.value, sessionId := r, nickname := s.nickname, userId := s.userId,
              admin := s.admin, joined := false)))
  }

  /** Since `w`, all of `who` still registered in `v` got the message. */
  ghost predicate Delivered(w: World, message: Message, who: set<nat>, v: World) {
    forall t :: t in v.sessions && t in who ==> Got(v.log, |w.log|, Delivery(t, message, true))
  }

  /** From `w` to `v` sessions only disappear and writes are only added. */
  ghost predicate Shrunk(w: World, v: World) {
    && w.log <= v.log
    && v.sessions.Keys <= w.sessions.Keys
    && (forall t :: t in v.sessions ==> v.sessions[t] == w.sessions[t])
  }

  /** The write tells a session registered in `w` that another of them, gone in `v`, is offline or
      has left the channel that both were in, or tells the latter that it left. */
  ghost predicate Notice(w: World, v: World, d: Delivery) {
    match d.message
    case ServerPresence(r, _, _, _, _) =>
      && r in w.sessions && r !in v.sessions && w.sessions[r].nickname != ""
      && d.message == GoneOffline(w.sessions[r])
      && d.target in w.sessions && d.target != r
    case ChannelPresence(channelId, r, _, _, _, _) =>
      && r in w.sessions && r !in v.sessions && w.sessions[r].nickname != ""
      && w.sessions[r].joined == Some(channelId) && d.message == GoneFrom(channelId, w.sessions[r])
      && (d.target == r || (d.target in w.sessions && InChannel(w.sessions[d.target], channelId)))
    case NewMessage(_, _, _) => false
  }

  /** Since `w` nothing was written but notices of sessions that have gone since. */
  ghost predicate OnlyNotices(w: World, v: World) {
    Shrunk(w, v) && forall i :: |w.log| <= i < |v.log| ==> Notice(w, v, v.log[i])
  }

  /** The same, but for the message, written to none but `who`. */
  ghost predicate Sent(w: World, message: Message, who: set<nat>, v: World) {
    && Shrunk(w, v)
    && forall i :: |w.log| <= i < |v.log| ==>
         (v.log[i].message == message && v.log[i].target in who) || Notice(w, v, v.log[i])
  }

  lemma NoticePersists(w: World, v: World, w': World, v': World, d: Delivery)
    requires Notice(w, v, d) && Shrunk(w', w) && Shrunk(v, v')
    ensures Notice(w', v', d)
  {
  }

  lemma NoticesCompose(w0: World, w1: World, w2: World)
    requires OnlyNotices(w0, w1) && OnlyNotices(w1, w2)
    ensures OnlyNotices(w0, w2)
  {
    hide Notice;
    forall i | |w0.log| <= i < |w2.log| ensures Notice(w0, w2, w2.log[i]) {
      if i < |w1.log| {
        assert w2.log[i] == w1.log[i];
        NoticePersists(w0, w1, w0, w2, w1.log[i]);
      } else {
        NoticePersists(w1, w2, w0, w2, w2.log[i]);
      }
    }
  }

  lemma SentThenNotices(w0: World, message: Message, who: set<nat>, w1: World, w2: World)
    requires Sent(w0, message, who, w1) && OnlyNotices(w1, w2)
    ensures Sent(w0, message, who, w2)
  {
    hide Notice;
    forall i | |w0.log| <= i < |w2.log|
      ensures (w2.log[i].message == message && w2.log[i].target in who) || Notice(w0, w2, w2.log[i])
    {
      if i < |w1.log| {
        assert w2.log[i] == w1.log[i];
        if Notice(w0, w1, w1.log[i]) {
          NoticePersists(w0, w1, w0, w2, w1.log[i]);
        }
      } else {
        NoticePersists(w1, w2, w0, w2, w2.log[i]);
      }
    }
  }

  /** One more write of the message. */
  lemma SentOnce(w0: World, message: Message, who: set<nat>, w1: World, target: nat, ok: bool)
    requires Sent(w0, message, who, w1) && target in who
    ensures Sent(w0, message, who, w1.(log := w1.log + [Delivery(target, message, ok)]))
  {
    hide Notice;
    var w2 := w1.(log := w1.log + [Delivery(target, message, ok)]);
    forall i | |w0.log| <= i < |w2.log|
      ensures (w2.log[i].message == message && w2.log[i].target in who) || Notice(w0, w2, w2.log[i])
    {
      if i < |w1.log| {
        assert w2.log[i] == w1.log[i];
        if Notice(w0, w1, w1.log[i]) {
          NoticePersists(w0, w1, w0, w2, w1.log[i]);
        }
      }
    }
  }

  lemma NothingSent(w: World, message: Message, who: set<nat>)
    ensures Sent(w, message, who, w) && OnlyNotices(w, w)
  {
  }

  /** The two notices of a removal are notices. */
  lemma RemovalNotices(w0: World, id: nat, w: World, w1: World, w2: World)
    requires id in w0.sessions && w == w0.(sessions := w0.sessions - {id})
    requires forall r :: r in w0.sessions ==> w0.sessions[r].id == r
    requires var s := w0.sessions[id];
      if s.joined.Some? && s.nickname != ""
      then Sent(w, GoneFrom(s.joined.value, s), Members(w.sessions, s.joined.value) + {id}, w1) else w1 == w
    requires var s := w0.sessions[id];
      if s.nickname != "" then Sent(w1, GoneOffline(s), w1.sessions.Keys, w2) else w2 == w1
    ensures OnlyNotices(w0, w2)
  {
    assert Shrunk(w0, w) && Shrunk(w, w1) && Shrunk(w1, w2);
    forall i | |w0.log| <= i < |w2.log| ensures Notice(w0, w2, w2.log[i]) {
      if i < |w1.log| {
        assert w2.log[i] == w1.log[i];
        if Notice(w, w1, w1.log[i]) {
          NoticePersists(w, w1, w0, w2, w1.log[i]);
        }
      } else if Notice(w1, w2, w2.log[i]) {
        NoticePersists(w1, w2, w0, w2, w2.log[i]);
      }
    }
  }

  lemma GotPersists(l: Log, m: Log, from: nat, from': nat, d: Delivery)
    requires Got(l, from, d) && l <= m && from' <= from
    ensures Got(m, from', d)
  {
    var i :| from <= i < |l| && l[i] == d;
    assert m[i] == d;
  }

  lemma FailurePersists(l: Log, m: Log, from: nat, from': nat, id: nat)
    requires FailedWrite(l, from, id) && l <= m && from' <= from
    ensures FailedWrite(m, from', id)
  {
    var i :| from <= i < |l| && l[i].target == id && !l[i].ok;
    assert m[i] == l[i];
  }

  lemma TriedPersists(l: Log, m: Log, from: nat, from': nat, target: nat, message: Message)
    requires Tried(l, from, target, message) && l <= m && from' <= from
    ensures Tried(m, from', target, message)
  {
    var i :| from <= i < |l| && l[i].target == target && l[i].message == message;
    assert m[i] == l[i];
  }

  lemma ToldPersists(p: Registry, q: Registry, l: Log, m: Log, from: nat, from': nat, r: nat, t: nat)
    requires r in p && t in p && r in q && t in q && p[r] == q[r] && p[t] == q[t]
    requires Told(p, l, from, r, t) && l <= m && from' <= from
    ensures Told(q, m, from', r, t)
  {
    var s := p[r];
    GotPersists(l, m, from, from', Delivery(t, GoneOffline(s), true));
    if s.joined.Some? && InChannel(p[t], s.joined.value) {
      GotPersists(l, m, from, from', Delivery(t, GoneFrom(s.joined.value, s), true));
    }
  }

  lemma CascadesCompose(w0: World, a: set<nat>, w1: World, b: set<nat>, w2: World)
    requires Cascaded(w0, a, w1) && Cascaded(w1, b, w2)
    ensures Cascaded(w0, a + b, w2)
  {
    var p0, p1, p2 := w0.sessions, w1.sessions, w2.sessions;
    forall r, t | r in p0 && r !in p2 && t in p2 && p0[r].nickname != ""
      ensures Told(p0, w2.log, |w0.log|, r, t)
    {
      if r in p1 {
        ToldPersists(p1, p0, w2.log, w2.log, |w1.log|, |w0.log|, r, t);
      } else {
        ToldPersists(p0, p0, w1.log, w2.log, |w0.log|, |w0.log|, r, t);
      }
    }
    forall r | r in p0 && r !in p2 && p0[r].nickname != "" && p0[r].joined.Some?
      ensures Tried(w2.log, |w0.log|, p0[r].id, GoneFrom(p0[r].joined.value, p0[r]))
    {
      if r in p1 {
        TriedPersists(w2.log, w2.log, |w1.log|, |w0.log|, p0[r].id, GoneFrom(p0[r].joined.value, p0[r]));
      } else {
        TriedPersists(w1.log, w2.log, |w0.log|, |w0.log|, p0[r].id, GoneFrom(p0[r].joined.value, p0[r]));
      }
    }
    forall r | r in p0 && r !in p2 && r !in a + b ensures FailedWrite(w2.log, |w0.log|, r) {
      if r in p1 {
        FailurePersists(w2.log, w2.log, |w1.log|, |w0.log|, r);
      } else {
        FailurePersists(w1.log, w2.log, |w0.log|, |w0.log|, r);
      }
    }
  }

  /** Removing a target because its write failed needs no further excuse. */
  lemma FailureExcuses(w0: World, w1: World, target: nat, w2: World)
    requires Cascaded(w0, {}, w1) && Cascaded(w1, {target}, w2)
    requires FailedWrite(w1.log, |w0.log|, target)
    ensures Cascaded(w0, {}, w2)
  {
    CascadesCompose(w0, {}, w1, {target}, w2);
    FailurePersists(w1.log, w2.log, |w0.log|, |w0.log|, target);
  }

  /** One step of a notification loop: a write to `target`, and its removal if that failed. */
  lemma OneMoreTold(w0: World, message: Message, who: set<nat>, w1: World, target: nat, ok: bool, w2: World)
    requires Cascaded(w0, {}, w1) && Delivered(w0, message, who, w1)
    requires Cascaded(w1.(log := w1.log + [Delivery(target, message, ok)]), if ok then {} else {target}, w2)
    requires !ok ==> target !in w2.sessions
    ensures Cascaded(w0, {}, w2) && Delivered(w0, message, who + {target}, w2)
  {
    var d := Delivery(target, message, ok);
    var v := w1.(log := w1.log + [d]);
    assert v.log[|w1.log|] == d;
    CascadesCompose(w0, {}, w1, {}, v);
    if ok {
      CascadesCompose(w0, {}, v, {}, w2);
      assert Got(v.log, |w1.log|, d);
      GotPersists(v.log, w2.log, |w1.log|, |w0.log|, d);
    } else {
      FailureExcuses(w0, v, target, w2);
    }
    forall t | t in w2.sessions && t in who && t != target
      ensures Got(w2.log, |w0.log|, Delivery(t, message, true))
    {
      GotPersists(w1.log, w2.log, |w0.log|, |w0.log|, Delivery(t, message, true));
    }
  }

  /** Once the targets whose write failed are gone, those left got the message. */
  lemma PoolDelivers(w0: World, targets: seq<nat>, message: Message, order: seq<nat>, log: Log, w2: World)
    requires Permutation(order, |targets|) && Wrote(targets, message, order, log, |w0.log|) && log <= w2.log
    requires forall id :: FailedWrite(log, |w0.log|, id) ==> id !in w2.sessions
    ensures Delivered(w0, message, AsSet(targets), w2)
  {
    forall t | t in w2.sessions && t in targets ensures Got(w2.log, |w0.log|, Delivery(t, message, true)) {
      var k :| 0 <= k < |targets| && targets[k] == t;
      assert k in order;
      var i :| 0 <= i < |order| && order[i] == k;
      var d := log[|w0.log| + i];
      assert !FailedWrite(log, |w0.log|, t);
      assert Got(log, |w0.log|, d);
      GotPersists(log, w2.log, |w0.log|, |w0.log|, d);
    }
  }

  lemma PoolSends(w0: World, targets: seq<nat>, message: Message, order: seq<nat>, log: Log)
    requires w0.log <= log && Wrote(targets, message, order, log, |w0.log|)
    ensures Sent(w0, message, AsSet(targets), World(w0.sessions, log))
  {
    forall i | |w0.log| <= i < |log| ensures log[i].message == message && log[i].target in AsSet(targets) {
      var k := i - |w0.log|;
      assert log[|w0.log| + k] == Delivery(targets[order[k]], message, log[i].ok);
    }
  }

  lemma WritesCascade(w0: World, log: Log)
    requires w0.log <= log
    ensures Cascaded(w0, {}, World(w0.sessions, log))
  {
  }

  lemma DeliveredPersists(w0: World, message: Message, who: set<nat>, w1: World, a: set<nat>, w2: World)
    requires Delivered(w0, message, who, w1) && Cascaded(w1, a, w2)
    ensures Delivered(w0, message, who, w2)
  {
    forall t | t in w2.sessions && t in who ensures Got(w2.log, |w0.log|, Delivery(t, message, true)) {
      GotPersists(w1.log, w2.log, |w0.log|, |w0.log|, Delivery(t, message, true));
    }
  }

  /** A removal followed by its two notices. */
  lemma RemovalCascades(w0: World, id: nat, w: World, w1: World, w2: World)
    requires id in w0.sessions && w == w0.(sessions := w0.sessions - {id})
    requires Cascaded(w, {}, w1) && Cascaded(w1, {}, w2)
    requires var s := w0.sessions[id];
      s.joined.Some? && s.nickname != "" ==>
        && Delivered(w, GoneFrom(s.joined.value, s), Members(w.sessions, s.joined.value), w1)
        && Tried(w1.log, |w.log|, s.id, GoneFrom(s.joined.value, s))
    requires var s := w0.sessions[id];
      s.nickname != "" ==> Delivered(w1, GoneOffline(s), w1.sessions.Keys, w2)
    ensures Cascaded(w0, {id}, w2) && id !in w2.sessions
  {
    CascadesCompose(w, {}, w1, {}, w2);
    var p, s := w0.sessions, w0.sessions[id];
    forall r, t | r in p && r !in w2.sessions && t in w2.sessions && p[r].nickname != ""
      ensures Told(p, w2.log, |w0.log|, r, t)
    {
      if r == id {
        GotPersists(w2.log, w2.log, |w1.log|, |w0.log|, Delivery(t, GoneOffline(s), true));
        if s.joined.Some? && InChannel(p[t], s.joined.value) {
          assert t in Members(w.sessions, s.joined.value);
          GotPersists(w1.log, w2.log, |w0.log|, |w0.log|, Delivery(t, GoneFrom(s.joined.value, s), true));
        }
      } else {
        ToldPersists(w.sessions, p, w2.log, w2.log, |w0.log|, |w0.log|, r, t);
      }
    }
    if s.joined.Some? && s.nickname != "" {
      TriedPersists(w1.log, w2.log, |w0.log|, |w0.log|, s.id, GoneFrom(s.joined.value, s));
    }
  }

  lemma CascadeShrinks(w: World, asked: set<nat>, v: World)
    requires Cascaded(w, asked, v)
    ensures |v.sessions| <= |w.sessions|
  {
    SubsetSize(v.sessions.Keys, w.sessions.Keys);
  }

  // ---------------------------------------------------------------- the server

  ghost function AsSet(q: seq<nat>): set<nat> {
    set t | t in q
  }

  /** All elements of a set, in some order. */
  method Elements(s: set<nat>) returns (q: seq<nat>)
    ensures AsSet(q) == s && Distinct(q)
  {
    q := [];
    var rest := s;
    while rest != {}
      invariant rest <= s
      invariant forall x :: x in q <==> x in s && x !in rest
      invariant Distinct(q)
    {
      var x :| x in rest;
      q, rest := q + [x], rest - {x};
    }
  }

  predicate TopLevel(message: Message)
    requires message.NewMessage?
  {
    message.parentId == None || message.parentId == Some(0)
  }

  predicate SeesShadowbanned(s: Session, author: Session) {
    s.id == author.id || (s.userId.Some? && s.admin)
  }

  /** The recipients as a scan over all registered sessions picks them. */
  ghost function Recipients(sessions: Registry, author: Session, message: Message, threadRoot: Option<nat>): set<nat>
    requires message.NewMessage?
  {
    set t | t in sessions
      && (if TopLevel(message) then message.channelId in sessions[t].channels
          else threadRoot.Some? && threadRoot.value in sessions[t].threads)
      && (author.shadowbanned ==> SeesShadowbanned(sessions[t], author))
  }

  datatype Reply = SubscribeOk | NotFound | LimitExceeded

  class Server {
    const sm: SessionManager
    const maxThreads: nat
    const maxChannels: nat
    var log: Log  // every write attempted, with its outcome

    ghost predicate Valid()
      reads this, sm
    {
      && sm.Valid()
      && forall id :: id in sm.sessions ==>
           |sm.sessions[id].threads| <= maxThreads && |sm.sessions[id].channels| <= maxChannels
    }

    ghost function Now(): World
      reads this, sm
    {
      World(sm.sessions, log)
    }

    constructor (maxThreads: nat, maxChannels: nat)
      ensures Valid() && fresh(sm) && sm.sessions == map[] && log == []
      ensures this.maxThreads == maxThreads && this.maxChannels == maxChannels
    {
      sm := new SessionManager();
      this.maxThreads, this.maxChannels, log := maxThreads, maxChannels, [];
    }

    /** One write to a session's connection: the outcome is arbitrary. */
    method Write(target: nat, message: Message) returns (ok: bool)
      modifies this
      ensures log == old(log) + [Delivery(target, message, ok)]
    {
      ok := *;
      log := log + [Delivery(target, message, ok)];
    }

    /** The worker pool: under any interleaving of the workers each target is written to
        exactly once (`order` lists the positions in `targets` as they were written). */
    method BroadcastToSessionsParallel(targets: seq<nat>, message: Message)
      returns (dead: set<nat>, ghost order: seq<nat>)
      modifies this
      ensures old(log) <= log
      ensures Permutation(order, |targets|)
      ensures Wrote(targets, message, order, log, |old(log)|)
      ensures forall id :: id in dead <==> FailedWrite(log, |old(log)|, id)
    {
      dead, order := {}, [];
      if |targets| == 0 {
        return;
      }
      var n := |targets|;
      var workers := WorkerCount(n);
      var next: seq<nat> := seq(workers, i requires 0 <= i < workers => Low(n, i));
      var running: set<nat> := set i: nat | i < workers && Low(n, i) < High(n, i);
      ScheduleStart(n, next, running);
      NothingWritten(targets, message, log);
      hide *;
      while running != {}
        invariant Schedule(n, next, running, order)
        invariant old(log) <= log && Wrote(targets, message, order, log, |old(log)|)
        invariant forall id :: id in dead <==> FailedWrite(log, |old(log)|, id)
        decreases Unwritten(n, order)
      {
        var i :| i in running;
        ScheduleStep(n, next, running, order, i);
        var k := next[i];
        dead := WorkerWrite(targets, message, k, dead, order, |old(log)|);
        order := order + [k];
        next := next[i := k + 1];
        if k + 1 == High(n, i) {
          running := running - {i};
        }
      }
      ScheduleDone(n, next, order);
    }

    /** A worker's write to its next target, recording a failure. */
    method WorkerWrite(targets: seq<nat>, message: Message, k: nat, dead: set<nat>,
                       ghost order: seq<nat>, ghost from: nat) returns (dead': set<nat>)
      requires k < |targets| && Wrote(targets, message, order, log, from)
      requires forall id :: id in dead <==> FailedWrite(log, from, id)
      modifies this
      ensures old(log) <= log && Wrote(targets, message, order + [k], log, from)
      ensures forall id :: id in dead' <==> FailedWrite(log, from, id)
    {
      hide FailedWrite;
      ghost var before := log;
      var ok := Write(targets[k], message);
      FailureAppended(before, Delivery(targets[k], message, ok), from);
      dead' := if ok then dead else dead + {targets[k]};
    }

    /** Sends the message to everyone who joined or subscribed to the channel, and removes each
        session whose write failed. */
    method BroadcastToChannel(channelId: nat, message: Message)
      requires Valid()
      modifies this, sm
      decreases |sm.sessions|, 1
      ensures Valid()
      ensures Sent(old(Now()), message, Members(old(sm.sessions), channelId), Now())
      ensures Cascaded(old(Now()), {}, Now())
      ensures Delivered(old(Now()), message, Members(old(sm.sessions), channelId), Now())
    {
      ghost var w0 := Now();
      hide Cascaded, Delivered, Wrote, Members, FailedWrite, Permutation, OnlyNotices, Sent;
      var targets := ChannelTargets(channelId);
      assert Now() == w0;
      var dead, order := BroadcastToSessionsParallel(targets, message);
      ghost var log1 := log;
      WritesCascade(w0, log1);
      PoolSends(w0, targets, message, order, log1);
      ghost var w1 := Now();
      RemoveDead(dead, w0);
      SentThenNotices(w0, message, AsSet(targets), w1, Now());
      PoolDelivers(w0, targets, message, order, log1, Now());
    }

    /** The sessions a channel broadcast is for, in some order. */
    method ChannelTargets(channelId: nat) returns (targets: seq<nat>)
      requires Valid()
      ensures AsSet(targets) == Members(sm.sessions, channelId) && Distinct(targets)
      ensures forall t :: t in targets <==> t in sm.sessions && InChannel(sm.sessions[t], channelId)
    {
      var members: set<nat> := {};
      var rest := sm.sessions.Keys;
      while rest != {}
        invariant rest <= sm.sessions.Keys
        invariant members == set t | t in sm.sessions && t !in rest && sm.sessions[t].joined == Some(channelId)
      {
        var t :| t in rest;
        if sm.sessions[t].joined == Some(channelId) {
          members := members + {t};
        }
        rest := rest - {t};
      }
      var subscribers := sm.GetChannelSubscribers(channelId);
      members := members + subscribers;
      assert members == Members(sm.sessions, channelId);
      targets := Elements(members);
      assert forall t :: t in targets <==> t in AsSet(targets);
    }

    /** Removes the sessions whose writes failed, in any order. */
    method RemoveDead(dead: set<nat>, ghost w0: World)
      requires Valid() && Cascaded(w0, {}, Now())
      requires forall id :: id in dead ==> FailedWrite(log, |w0.log|, id)
      modifies this, sm
      decreases |sm.sessions|, 0, 1
      ensures Valid()
      ensures old(log) <= log && OnlyNotices(old(Now()), Now())
      ensures Cascaded(w0, {}, Now())
      ensures dead !! sm.sessions.Keys
    {
      hide Cascaded, FailedWrite, OnlyNotices;
      NothingSent(Now(), NewMessage(0, 0, None), {});
      var rest := dead;
      while rest != {}
        invariant rest <= dead
        invariant Valid() && OnlyNotices(old(Now()), Now()) && Cascaded(w0, {}, Now())
        invariant old(log) <= log
        invariant |sm.sessions| <= old(|sm.sessions|)
        invariant (dead - rest) !! sm.sessions.Keys
      {
        var id :| id in rest;
        ghost var w1 := Now();
        FailurePersists(old(log), log, |w0.log|, |w0.log|, id);
        RemoveSession(id);
        CascadeLogs(w1, {id}, Now());
        CascadeShrinks(w1, {id}, Now());
        FailureExcuses(w0, w1, id, Now());
        NoticesCompose(old(Now()), w1, Now());
        rest := rest - {id};
      }
    }

    /** Tells every registered session that `s` came or went; for a session without a nickname
        nothing happens. */
    method NotifyServerPresence(s: Session, online: bool)
      requires Valid()
      modifies this, sm
      decreases |sm.sessions|, 1
      ensures Valid()
      ensures Cascaded(old(Now()), {}, Now())
      ensures s.nickname == "" ==> Now() == old(Now())
      ensures s.nickname != "" ==>
        var notice := ServerPresence(sessionId := s.id, nickname := s.nickname, userId := s.userId, admin := s.admin,
                                     online := online);
        && Delivered(old(Now()), notice, old(sm.sessions).Keys, Now())
        && Sent(old(Now()), notice, old(sm.sessions).Keys, Now())
    {
      NothingHappened(Now());
      if s.nickname == "" {
        return;
      }
      NotifyAll(ServerNotice(s, online));
    }

    /** Sends to every registered session, in any order. */
    method NotifyAll(message: Message)
      requires Valid()
      modifies this, sm
      decreases |sm.sessions|, 0, 2
      ensures Valid()
      ensures Sent(old(Now()), message, old(sm.sessions).Keys, Now())
      ensures Cascaded(old(Now()), {}, Now())
      ensures Delivered(old(Now()), message, old(sm.sessions).Keys, Now())
    {
      hide Cascaded, Delivered, ServerNotice, Sent;
      ghost var w0 := Now();
      NothingHappened(w0);
      NothingSent(w0, message, w0.sessions.Keys);
      NobodyAwaited(w0, message);
      var rest := sm.sessions.Keys;
      ghost var done: set<nat> := {};
      while rest != {}
        invariant Valid() && Sent(w0, message, w0.sessions.Keys, Now()) && done + rest == w0.sessions.Keys
        invariant |sm.sessions| <= |w0.sessions|
        invariant Cascaded(w0, {}, Now()) && Delivered(w0, message, done, Now())
      {
        var target :| target in rest;
        NotifyOne(target, message, w0, done);
        CascadeShrinks(w0, {}, Now());
        rest, done := rest - {target}, done + {target};
      }
    }

    /** One step of that loop: write, and remove the target if the write failed. */
    method NotifyOne(target: nat, message: Message, ghost w0: World, ghost done: set<nat>)
      requires Valid() && Cascaded(w0, {}, Now()) && Delivered(w0, message, done, Now())
      requires target in w0.sessions && Sent(w0, message, w0.sessions.Keys, Now())
      modifies this, sm
      decreases |sm.sessions|, 0, 1
      ensures Valid()
      ensures Sent(w0, message, w0.sessions.Keys, Now())
      ensures Cascaded(w0, {}, Now()) && Delivered(w0, message, done + {target}, Now())
    {
      hide Sent, OnlyNotices;
      ghost var w1 := Now();
      var ok := Write(target, message);
      ghost var w := Now();
      SentOnce(w0, message, w0.sessions.Keys, w1, target, ok);
      NothingHappened(Now());
      if !ok {
        RemoveSession(target);
        SentThenNotices(w0, message, w0.sessions.Keys, w, Now());
      }
      OneMoreTold(w0, message, done, w1, target, ok, Now());
    }

    /** Tells the channel's members, and a session that left it as well, as the last write. */
    method NotifyChannelPresence(channelId: nat, s: Session, joined: bool)
      requires Valid()
      modifies this, sm
      decreases |sm.sessions|, 2
      ensures Valid()
      ensures Cascaded(old(Now()), {}, Now())
      ensures s.nickname == "" ==> Now() == old(Now())
      ensures s.nickname != "" ==>
        var notice := ChannelPresence(channelId := channelId, sessionId := s.id, nickname := s.nickname,
                                      userId := s.userId, admin := s.admin, joined := joined);
        var members := Members(old(sm.sessions), channelId);
        && Delivered(old(Now()), notice, members, Now())
        && Sent(old(Now()), notice, if joined then members else members + {s.id}, Now())
        && (forall t :: t in sm.sessions ==>
              sm.sessions[t].joined == Some(channelId) || channelId in sm.sessions[t].channels ==>
                Got(log, |old(log)|, Delivery(t, notice, true)))
        && (!joined ==>
              |log| > |old(log)| && log[|log| - 1].target == s.id && log[|log| - 1].message == notice)
    {
      hide Cascaded, Delivered, Sent, Members, Got;
      if s.nickname == "" {
        NothingHappened(Now());
        return;
      }
      ghost var w0 := Now();
      var message := ChannelNotice(channelId, s, joined);
      BroadcastToChannel(channelId, message);
      if !joined {
        // a leaving session is no longer among the targets; its own notice may fail freely
        ghost var w1 := Now();
        var ok := Write(s.id, message);
        LastWord(w0, message, Members(w0.sessions, channelId), w1, s.id, ok);
      }
      MembersGot(w0, channelId, message, Now());
    }

    /** Unregisters the session and tells the others; no effect on an unknown ID.  It returns
        for every pattern of write failures, after however many further removals. */
    method RemoveSession(id: nat)
      requires Valid()
      modifies this, sm
      decreases |sm.sessions|, 0, 0
      ensures Valid()
      ensures id !in sm.sessions
      ensures Cascaded(old(Now()), {id}, Now())
      ensures OnlyNotices(old(Now()), Now())
      ensures id !in old(sm.sessions) ==> Now() == old(Now())
      ensures id in old(sm.sessions) && old(sm.sessions)[id].nickname == "" ==>
        sm.sessions == old(sm.sessions) - {id} && log == old(log)
      ensures AllTold(old(Now()), Now())
    {
      hide Cascaded, Delivered, Sent, OnlyNotices, Members, AllTold, SessionManager.Valid;
      NothingSent(Now(), NewMessage(0, 0, None), {});
      OwnIds(sm);
      NothingHappened(Now());
      WasAlreadyGone(Now(), id);
      EveryoneTold(Now(), {}, Now());
      if id !in sm.sessions {
        return;
      }
      ghost var w0 := Now();
      var s := sm.sessions[id];
      SubsetSize(sm.sessions.Keys - {id}, sm.sessions.Keys);
      sm.RemoveSession(id);
      assert sm.sessions.Keys == w0.sessions.Keys - {id};
      ghost var w := Now();
      if s.joined.Some? {
        NotifyChannelPresence(s.joined.value, s, false);
      }
      ghost var w1 := Now();
      CascadeShrinks(w, {}, w1);
      NotifyServerPresence(s, false);
      RemovalCascades(w0, id, w, w1, Now());
      RemovalNotices(w0, id, w, w1, Now());
      EveryoneTold(w0, {id}, Now());
    }

    // -------------------------------------------------------------- subscriptions and new messages

    /** Refused for a missing thread, and at the limit even when already subscribed. */
    method HandleSubscribeThread(id: nat, threadId: nat, thread: Option<nat>) returns (reply: Reply)
      requires Valid() && id in sm.sessions
      modifies sm
      ensures Valid()
      ensures reply == (if thread.None? then NotFound
                        else if |old(sm.sessions)[id].threads| >= maxThreads then LimitExceeded else SubscribeOk)
      ensures sm.sessions == if !reply.SubscribeOk? then old(sm.sessions)
        else var was := old(sm.sessions)[id];
          old(sm.sessions)[id := was.(threads := was.threads[threadId := thread.value])]
    {
      if thread.None? {
        return NotFound;
      }
      if |sm.sessions[id].threads| >= maxThreads {
        return LimitExceeded;
      }
      sm.SubscribeToThread(id, threadId, thread.value);
      reply := SubscribeOk;
    }

    /** A request naming a subchannel is refused: none exist. */
    method HandleSubscribeChannel(id: nat, channelId: nat, channelExists: bool, subchannel: Option<nat>)
      returns (reply: Reply)
      requires Valid() && id in sm.sessions
      modifies sm
      ensures Valid()
      ensures reply == (if !channelExists || subchannel.Some? then NotFound
                        else if |old(sm.sessions)[id].channels| >= maxChannels then LimitExceeded else SubscribeOk)
      ensures sm.sessions == if !reply.SubscribeOk? then old(sm.sessions)
        else old(sm.sessions)[id := old(sm.sessions)[id].(channels := old(sm.sessions)[id].channels + {channelId})]
    {
      if !channelExists || subchannel.Some? {
        return NotFound;
      }
      if |sm.sessions[id].channels| >= maxChannels {
        return LimitExceeded;
      }
      sm.SubscribeToChannel(id, channelId);
      reply := SubscribeOk;
    }

    /** The recipients of a new message, from the reverse indexes, each listed once. */
    method ChooseRecipients(author: Session, message: Message, threadRoot: Option<nat>) returns (targets: seq<nat>)
      requires Valid() && message.NewMessage?
      ensures AsSet(targets) == Recipients(sm.sessions, author, message, threadRoot) && Distinct(targets)
      ensures forall t :: t in targets <==>
        && t in sm.sessions
        && (if message.parentId == None || message.parentId == Some(0)
            then message.channelId in sm.sessions[t].channels
            else threadRoot.Some? && threadRoot.value in sm.sessions[t].threads)
        && (author.shadowbanned ==> t == author.id || (sm.sessions[t].userId.Some? && sm.sessions[t].admin))
    {
      var recipients: set<nat> := {};
      if TopLevel(message) {
        recipients := sm.GetChannelSubscribers(message.channelId);
      } else if threadRoot.Some? {
        recipients := sm.GetThreadSubscribers(threadRoot.value);
      }
      if author.shadowbanned {
        recipients := set t | t in recipients && SeesShadowbanned(sm.sessions[t], author);
      }
      assert recipients == Recipients(sm.sessions, author, message, threadRoot);
      targets := Elements(recipients);
      assert forall t :: t in targets <==> t in AsSet(targets);
    }

    /** A new message goes to the subscribers of its channel (a top-level message) or of its
        thread (a reply), for a shadowbanned author only to the author and admins.  The
        recipients are those a scan over all sessions would pick; each is written to once, and
        nobody else is sent the message. */
    method BroadcastNewMessage(author: Session, message: Message, threadRoot: Option<nat>)
      returns (ghost order: seq<nat>, ghost targets: seq<nat>)
      requires Valid() && message.NewMessage?
      modifies this, sm
      ensures Valid()
      ensures AsSet(targets) == Recipients(old(sm.sessions), author, message, threadRoot) && Distinct(targets)
      ensures forall t :: t in targets <==>
        && t in old(sm.sessions)
        && (if message.parentId == None || message.parentId == Some(0)
            then message.channelId in old(sm.sessions)[t].channels
            else threadRoot.Some? && threadRoot.value in old(sm.sessions)[t].threads)
        && (author.shadowbanned ==> t == author.id || (old(sm.sessions)[t].userId.Some? && old(sm.sessions)[t].admin))
      ensures Permutation(order, |targets|) && |old(log)| + |order| <= |log|
      ensures old(log) <= log && Wrote(targets, message, order, log[..|old(log)| + |order|], |old(log)|)
      ensures OnlyNotices(World(old(sm.sessions), log[..|old(log)| + |order|]), Now())
      ensures Cascaded(old(Now()), {}, Now())
      ensures Delivered(old(Now()), message, Recipients(old(sm.sessions), author, message, threadRoot), Now())
    {
      hide *;
      var recipients := ChooseRecipients(author, message, threadRoot);
      targets := recipients;
      order := SendToAll(recipients, message);
    }

    /** The pool writes to each target, then the sessions whose write failed are removed. */
    method SendToAll(targets: seq<nat>, message: Message) returns (ghost order: seq<nat>)
      requires Valid()
      modifies this, sm
      ensures Valid()
      ensures Permutation(order, |targets|) && |old(log)| + |order| <= |log|
      ensures old(log) <= log && Wrote(targets, message, order, log[..|old(log)| + |order|], |old(log)|)
      ensures OnlyNotices(World(old(sm.sessions), log[..|old(log)| + |order|]), Now())
      ensures Cascaded(old(Now()), {}, Now())
      ensures Delivered(old(Now()), message, AsSet(targets), Now())
    {
      hide Cascaded, Delivered, Wrote, FailedWrite, Permutation, OnlyNotices;
      ghost var w0 := Now();
      var dead, ord := BroadcastToSessionsParallel(targets, message);
      order := ord;
      ghost var log1 := log;
      WritesCascade(w0, log1);
      RemoveDead(dead, w0);
      PoolThenNotices(w0, targets, message, order, log1, Now());
      PoolDelivers(w0, targets, message, order, log1, Now());
    }
  }

  /** The log is what the pool wrote, followed by notices. */
  lemma PoolThenNotices(w: World, targets: seq<nat>, message: Message, order: seq<nat>, m: Log, v: World)
    requires w.log <= m && Wrote(targets, message, order, m, |w.log|) && OnlyNotices(World(w.sessions, m), v)
    ensures w.log <= v.log && m <= v.log && |w.log| + |order| <= |v.log| && v.log[..|w.log| + |order|] == m
  {
  }

  lemma MembersGot(w: World, channelId: nat, message: Message, v: World)
    requires Cascaded(w, {}, v) && Delivered(w, message, Members(w.sessions, channelId), v)
    ensures forall t :: t in v.sessions ==>
      v.sessions[t].joined == Some(channelId) || channelId in v.sessions[t].channels ==>
        Got(v.log, |w.log|, Delivery(t, message, true))
  {
  }

  lemma EveryoneTold(w: World, asked: set<nat>, v: World)
    requires Cascaded(w, asked, v) && forall r :: r in w.sessions ==> w.sessions[r].id == r
    ensures AllTold(w, v)
  {
    hide Got, Tried;
    forall r, t | r in w.sessions && r !in v.sessions && t in v.sessions && w.sessions[r].nickname != ""
      ensures Told(w.sessions, v.log, |w.log|, r, t) && v.sessions[t] == w.sessions[t]
    {
    }
  }

  /** What a leaving session is sent after the others. */
  lemma LastWord(w0: World, message: Message, who: set<nat>, w1: World, target: nat, ok: bool)
    requires Cascaded(w0, {}, w1) && Delivered(w0, message, who, w1) && Sent(w0, message, who, w1)
    ensures w0.log <= w1.log
    ensures var w2 := w1.(log := w1.log + [Delivery(target, message, ok)]);
      Cascaded(w0, {}, w2) && Delivered(w0, message, who, w2) && Sent(w0, message, who + {target}, w2)
  {
    var w2 := w1.(log := w1.log + [Delivery(target, message, ok)]);
    WritesCascade(w1, w2.log);
    CascadesCompose(w0, {}, w1, {}, w2);
    DeliveredPersists(w0, message, who, w1, {}, w2);
    assert Sent(w0, message, who + {target}, w1);
    SentOnce(w0, message, who + {target}, w1, target, ok);
  }

  lemma OwnIds(sm: SessionManager)
    requires sm.Valid()
    ensures forall r :: r in sm.sessions ==> sm.sessions[r].id == r
  {
  }

  lemma WasAlreadyGone(w: World, id: nat)
    ensures Cascaded(w, {id}, w)
  {
  }

  lemma NothingHappened(w: World)
    ensures Cascaded(w, {}, w)
  {
  }

  lemma NobodyAwaited(w: World, message: Message)
    ensures Delivered(w, message, {}, w)
  {
  }

  lemma CascadeLogs(w: World, asked: set<nat>, v: World)
    requires Cascaded(w, asked, v)
    ensures w.log <= v.log && v.sessions.Keys <= w.sessions.Keys
  {
  }

  // ---------------------------------------------------------------- the pool's schedule

  ghost predicate Distinct(order: seq<nat>) {
    forall i, j :: 0 <= i < j < |order| ==> order[i] != order[j]
  }

  /** Each position below `n` once. */
  ghost predicate Permutation(order: seq<nat>, n: nat) {
    Distinct(order) && forall k :: k in order <==> 0 <= k < n
  }

  /** The log holds, from `from` on, one write of `message` per entry of `order`. */
  ghost predicate Wrote(targets: seq<nat>, message: Message, order: seq<nat>, log: Log, from: nat) {
    && |log| == from + |order|
    && forall i :: 0 <= i < |order| ==>
         && order[i] < |targets|
         && log[from + i] == Delivery(targets[order[i]], message, log[from + i].ok)
  }

  /** Worker `i` has written its slice up to `next[i]`; `running` are those with work left. */
  ghost predicate Schedule(n: nat, next: seq<nat>, running: set<nat>, order: seq<nat>)
    requires n > 0
  {
    && |next| == WorkerCount(n)
    && (forall i :: 0 <= i < |next| ==> Low(n, i) <= next[i] <= High(n, i))
    && (forall i :: i in running <==> 0 <= i < |next| && next[i] < High(n, i))
    && (forall i, k :: 0 <= i < |next| && InSlice(n, i, k) ==> (k in order <==> k < next[i]))
    && (forall k :: k in order ==> 0 <= k < n)
    && Distinct(order)
  }

  ghost function Unwritten(n: nat, order: seq<nat>): set<nat> {
    set k: nat | k < n && k !in order
  }

  lemma ScheduleStart(n: nat, next: seq<nat>, running: set<nat>)
    requires n > 0 && |next| == WorkerCount(n) && forall i :: 0 <= i < |next| ==> next[i] == Low(n, i)
    requires running == set i: nat | i < |next| && Low(n, i) < High(n, i)
    ensures Schedule(n, next, running, [])
  {
    ChunksPartition(n);
  }

  lemma NothingWritten(targets: seq<nat>, message: Message, log: Log)
    ensures Wrote(targets, message, [], log, |log|)
    ensures forall id :: !FailedWrite(log, |log|, id)
  {
  }

  lemma ScheduleStep(n: nat, next: seq<nat>, running: set<nat>, order: seq<nat>, i: nat)
    requires n > 0 && Schedule(n, next, running, order) && i in running
    ensures i < |next|
    ensures var k := next[i];
      && k < n && k !in order
      && Unwritten(n, order + [k]) < Unwritten(n, order)
      && Schedule(n, next[i := k + 1], if k + 1 == High(n, i) then running - {i} else running, order + [k])
  {
    ChunksPartition(n);
    var k := next[i];
    assert InSlice(n, i, k);
    assert k in Unwritten(n, order) && k !in Unwritten(n, order + [k]);
    hide Low, High;
    var next', order' := next[i := k + 1], order + [k];
    forall j: nat, m: nat | j < |next'| && InSlice(n, j, m) ensures m in order' <==> m < next'[j] {
    }
  }

  lemma ScheduleDone(n: nat, next: seq<nat>, order: seq<nat>)
    requires n > 0 && Schedule(n, next, {}, order)
    ensures Permutation(order, n)
  {
    forall k: nat | k < n ensures k in order {
      EveryPositionCovered(n, k);
      var i: nat :| InSlice(n, i, k);
      assert i !in {};
    }
  }

  lemma FailureAppended(l: Log, d: Delivery, from: nat)
    requires from <= |l|
    ensures forall id :: FailedWrite(l + [d], from, id) <==> FailedWrite(l, from, id) || (id == d.target && !d.ok)
  {
    forall id ensures FailedWrite(l + [d], from, id) <==> FailedWrite(l, from, id) || (id == d.target && !d.ok) {
      if FailedWrite(l, from, id) {
        FailurePersists(l, l + [d], from, from, id);
      }
      if id == d.target && !d.ok {
        assert (l + [d])[|l|] == d;
      }
    }
  }
}
