/** A snapshot as it runs beside other operations (pkg/database/memdb.go:236-292).  It collects the
    dirty IDs under the read lock, writes the collected messages without a lock, as they are by
    then, and clears the flags of the collected IDs under the write lock.  Between these steps
    messages are posted, edited and deleted, and accounts are deleted. */
module SnapshotSteps {
  import opened Durability
  import opened Messages
  import opened Wrappers

  function RowsOf(messages: map<nat, Message>, ids: set<nat>): map<nat, Row> {
    map id | id in ids && id in messages :: messages[id].row
  }

  /** The second step: the messages to write are shared with the store, so later changes count. */
  function Write(s: State, ids: set<nat>): State {
    s.(rows := Rewritten(s.rows, RowsOf(s.messages, ids)))
  }

  function Clear(s: State, ids: set<nat>): State {
    s.(dirty := s.dirty - ids)
  }

  predicate Between(e: Event) {
    !e.Tick? && !e.ChannelDeleted?
  }

  predicate AllBetween(es: seq<Event>) {
    forall i :: 0 <= i < |es| ==> Between(es[i])
  }

  /** What is written, when `es` happens between the first two steps. */
  function Written(c: State, cutoff: int, es: seq<Event>): State {
    Write(After(c, es), ToWrite(c, cutoff).Keys)
  }

  /** The whole snapshot, collected in state `c`, with `es` before the write and `fs` after it. */
  function Steps(c: State, cutoff: int, es: seq<Event>, fs: seq<Event>): State {
    Clear(After(Written(c, cutoff, es), fs), c.dirty)
  }

  /** With nothing in between this is the snapshot of the store. */
  lemma UndisturbedIsSnapshot(c: State, now: int)
    ensures Steps(c, now - RETENTION, [], []) == Snapshot(c, now)
  {
    hide Rewritten;
    assert RowsOf(c.messages, ToWrite(c, now - RETENTION).Keys) == ToWrite(c, now - RETENTION);
    assert c.dirty - c.dirty == {};
  }

  lemma AfterFirst(s: State, es: seq<Event>)
    requires es != []
    ensures After(s, es) == After(Do(s, es[0]), es[1..])
    ensures LegalRun(s, es) ==> Legal(s, es[0]) && LegalRun(Do(s, es[0]), es[1..])
    ensures AllBetween(es) ==> Between(es[0]) && AllBetween(es[1..])
  {
    hide Do, Legal;
  }

  lemma {:induction false} BetweenIsSafe(s: State, es: seq<Event>)
    requires AllBetween(es)
    ensures SafeRun(s, es)
    decreases |es|
  {
    hide Do;
    if es != [] {
      AfterFirst(s, es);
      BetweenIsSafe(Do(s, es[0]), es[1..]);
    }
  }

  // ---------------------------------------------------------------- one operation

  predicate Touches(e: Event, id: nat) {
    (e.Edited? && e.id == id) || (e.Deleted? && e.id == id)
  }

  /** What an operation that writes to memory alone does to one message. */
  ghost predicate Effect(s: State, s': State, e: Event, id: nat) {
    && s'.rows == s.rows && s.dirty <= s'.dirty && s.lastId <= s'.lastId
    && (id in s.messages ==> id in s'.messages)
    && (id in s.messages && !Touches(e, id) && !(e.Posted? && e.id == id) ==> s'.messages[id].row == s.messages[id].row)
    && (id !in s'.dirty && id in s'.messages ==> id in s.messages && s'.messages[id].row == s.messages[id].row)
    && (id in s.messages && !Live(s.messages[id].row) && !(e.Posted? && e.id == id) ==> !Live(s'.messages[id].row))
    && (id in s'.dirty ==> id in s.dirty || id in s'.messages)
    && (id !in s.messages && id <= s.lastId ==> id !in s'.messages)
  }

  lemma PostEffect(s: State, i: nat, now: int, d: Draft, id: nat)
    requires s.lastId < i
    ensures Effect(s, Do(s, Posted(i, now, d)), Posted(i, now, d), id)
  {
    hide CountUp, Append;
    if Post(s, i, now, d).1.Ok? {
      CountingKeepsMessages(s.messages[i := Message(NewRow(s, i, now, d), 0)], d.parentId);
    }
  }

  lemma EditEffect(s: State, i: nat, owner: Option<int>, content: string, now: int, id: nat)
    ensures Effect(s, Do(s, Edited(i, owner, content, now)), Edited(i, owner, content, now), id)
  {
  }

  lemma DeleteEffect(s: State, i: nat, now: int, id: nat)
    ensures Effect(s, Do(s, Deleted(i, now)), Deleted(i, now), id)
  {
    hide CountDown;
    if SoftDelete(s, i, now).1.Ok? {
      var row := s.messages[i].row.(deletedAt := Some(now));
      CountingKeepsMessages(SetRow(s, i, row).messages, row.parentId);
    }
  }

  lemma MemoryEffect(s: State, e: Event, id: nat)
    requires Between(e) && !e.UserDeleted? && Legal(s, e)
    ensures Effect(s, Do(s, e), e, id)
  {
    hide Effect, Post, Edit, SoftDelete;
    match e
    case Posted(i, now, d) => PostEffect(s, i, now, d, id);
    case Edited(i, owner, content, now) => EditEffect(s, i, owner, content, now, id);
    case Deleted(i, now) => DeleteEffect(s, i, now, id);
  }

  /** No operation takes a message away, clears a flag or adds a row; without a flag a message
      stays as it is. */
  lemma StepTracks(s: State, e: Event, id: nat)
    requires Between(e) && Legal(s, e)
    ensures s.dirty <= Do(s, e).dirty && Do(s, e).rows.Keys == s.rows.Keys && s.lastId <= Do(s, e).lastId
    ensures id in s.messages ==> id in Do(s, e).messages
    ensures id !in Do(s, e).dirty && id in Do(s, e).messages ==>
              id in s.messages && Do(s, e).messages[id].row == s.messages[id].row
    ensures id in Do(s, e).dirty ==> id in s.dirty || id in Do(s, e).messages
    ensures id !in s.messages && id <= s.lastId ==> id !in Do(s, e).messages
  {
    if !e.UserDeleted? {
      hide Do;
      MemoryEffect(s, e, id);
    }
  }

  /** Memory and table go on agreeing about a message that an operation leaves unflagged. */
  lemma CleanAgrees(s: State, e: Event, id: nat)
    requires Between(e) && Legal(s, e) && Agree(s, id) && id !in Do(s, e).dirty
    ensures Agree(Do(s, e), id)
  {
    if e.UserDeleted? {
      UserAgrees(s, e.user, e.nickname, id);
    } else {
      hide Do;
      MemoryEffect(s, e, id);
    }
  }

  lemma UserAgrees(s: State, user: int, nickname: string, id: nat)
    requires Agree(s, id)
    ensures Agree(DeleteUser(s, user, nickname), id)
  {
    assert id in s.messages ==> Rows(s.messages)[id] == s.messages[id].row;
  }

  // ---------------------------------------------------------------- runs of them

  lemma {:induction false} RunTracks(s: State, es: seq<Event>, id: nat)
    requires AllBetween(es) && LegalRun(s, es)
    ensures var t := After(s, es);
      && s.dirty <= t.dirty && t.rows.Keys == s.rows.Keys && s.lastId <= t.lastId
      && (id in s.messages ==> id in t.messages)
      && (id !in t.dirty && id in t.messages ==> id in s.messages && t.messages[id].row == s.messages[id].row)
    decreases |es|
  {
    hide Do, Legal;
    if es != [] {
      AfterFirst(s, es);
      StepTracks(s, es[0], id);
      RunTracks(Do(s, es[0]), es[1..], id);
    }
  }

  lemma {:induction false} RunCleanAgrees(s: State, es: seq<Event>, id: nat)
    requires AllBetween(es) && LegalRun(s, es) && Agree(s, id) && id !in After(s, es).dirty
    ensures Agree(After(s, es), id)
    decreases |es|
  {
    hide Do, Legal, Agree;
    if es != [] {
      AfterFirst(s, es);
      RunTracks(Do(s, es[0]), es[1..], id);
      CleanAgrees(s, es[0], id);
      RunCleanAgrees(Do(s, es[0]), es[1..], id);
    }
  }

  /** A deleted message stays deleted in memory. */
  lemma {:induction false} RunStaysDeleted(s: State, es: seq<Event>, id: nat)
    requires AllBetween(es) && LegalRun(s, es) && id in s.messages && !Live(s.messages[id].row) && id <= s.lastId
    ensures id in After(s, es).messages && !Live(After(s, es).messages[id].row)
    decreases |es|
  {
    hide Do, Legal, Live;
    if es != [] {
      AfterFirst(s, es);
      StepTracks(s, es[0], id);
      DeletedStays(s, es[0], id);
      RunStaysDeleted(Do(s, es[0]), es[1..], id);
    }
  }

  lemma DeletedStays(s: State, e: Event, id: nat)
    requires Between(e) && Legal(s, e) && id in s.messages && !Live(s.messages[id].row) && id <= s.lastId
    ensures id in Do(s, e).messages && !Live(Do(s, e).messages[id].row)
  {
    if !e.UserDeleted? {
      hide Do;
      MemoryEffect(s, e, id);
    }
  }

  // ---------------------------------------------------------------- a row and its message apart

  /** Neither edited nor deleted: what changes them both, an account deletion, is not meant. */
  predicate SameChange(x: Row, y: Row) {
    x.content == y.content && x.editedAt == y.editedAt && x.deletedAt == y.deletedAt
  }

  predicate SameElse(x: Row, y: Row) {
    x == y.(content := x.content, editedAt := x.editedAt, deletedAt := x.deletedAt)
  }

  /** The row of a message differs from it in nothing but later edits and deletions, and has still
      the content and the times of `r`. */
  ghost predicate Follows(s: State, id: nat, r: Row) {
    && id in s.messages && id in s.rows && id <= s.lastId
    && SameElse(s.rows[id], s.messages[id].row) && SameChange(s.rows[id], r)
  }

  lemma UserFollows(s: State, user: int, nickname: string, id: nat, r: Row)
    requires Follows(s, id, r)
    ensures Follows(DeleteUser(s, user, nickname), id, r)
  {
  }

  lemma PostFollows(s: State, i: nat, now: int, d: Draft, id: nat, r: Row)
    requires Follows(s, id, r) && s.lastId < i
    ensures Follows(Do(s, Posted(i, now, d)), id, r)
  {
    hide CountUp, Append;
    if Post(s, i, now, d).1.Ok? {
      CountingKeepsMessages(s.messages[i := Message(NewRow(s, i, now, d), 0)], d.parentId);
    }
  }

  lemma EditFollows(s: State, i: nat, owner: Option<int>, content: string, now: int, id: nat, r: Row)
    requires Follows(s, id, r)
    ensures Follows(Do(s, Edited(i, owner, content, now)), id, r)
  {
  }

  lemma DeleteFollows(s: State, i: nat, now: int, id: nat, r: Row)
    requires Follows(s, id, r)
    ensures Follows(Do(s, Deleted(i, now)), id, r)
  {
    hide CountDown;
    if SoftDelete(s, i, now).1.Ok? {
      var row := s.messages[i].row.(deletedAt := Some(now));
      CountingKeepsMessages(SetRow(s, i, row).messages, row.parentId);
    }
  }

  lemma StepFollows(s: State, e: Event, id: nat, r: Row)
    requires Between(e) && Legal(s, e) && Follows(s, id, r)
    ensures Follows(Do(s, e), id, r)
  {
    hide Follows, Post, Edit, SoftDelete, DeleteUser;
    match e
    case Posted(i, now, d) => PostFollows(s, i, now, d, id, r);
    case Edited(i, owner, content, now) => EditFollows(s, i, owner, content, now, id, r);
    case Deleted(i, now) => DeleteFollows(s, i, now, id, r);
    case UserDeleted(user, nickname) => UserFollows(s, user, nickname, id, r);
  }

  lemma {:induction false} RunFollows(s: State, es: seq<Event>, id: nat, r: Row)
    requires AllBetween(es) && LegalRun(s, es) && Follows(s, id, r)
    ensures Follows(After(s, es), id, r)
    decreases |es|
  {
    hide Do, Legal, Follows;
    if es != [] {
      AfterFirst(s, es);
      StepFollows(s, es[0], id, r);
      RunFollows(Do(s, es[0]), es[1..], id, r);
    }
  }

  /** Rows of the table neither die nor come to life. */
  lemma {:induction false} RunKeepsLiveRows(s: State, es: seq<Event>, id: nat)
    requires AllBetween(es) && LegalRun(s, es)
    ensures LiveIn(After(s, es).rows, id) <==> LiveIn(s.rows, id)
    decreases |es|
  {
    hide Do, Legal;
    if es != [] {
      AfterFirst(s, es);
      StepKeepsLiveRows(s, es[0], id);
      RunKeepsLiveRows(Do(s, es[0]), es[1..], id);
    }
  }

  lemma StepKeepsLiveRows(s: State, e: Event, id: nat)
    requires Between(e) && Legal(s, e)
    ensures LiveIn(Do(s, e).rows, id) <==> LiveIn(s.rows, id)
  {
    if !e.UserDeleted? {
      hide Do;
      MemoryEffect(s, e, id);
    }
  }

  // ---------------------------------------------------------------- the three steps

  /** The rows that the write deletes along with rows it replaces, and does not write itself. */
  function Gone(a: State, ids: set<nat>): set<nat> {
    var written := RowsOf(a.messages, ids).Keys;
    Cascade(a.rows, a.rows.Keys * written) - written
  }

  lemma WriteTable(a: State, ids: set<nat>, id: nat)
    ensures var w := Write(a, ids);
      && w.messages == a.messages && w.dirty == a.dirty && w.lastId == a.lastId
      && (id in ids && id in a.messages ==> id in w.rows && w.rows[id] == a.messages[id].row)
      && (!(id in ids && id in a.messages) ==> (id in w.rows <==> id in a.rows && id !in Gone(a, ids)))
      && (!(id in ids && id in a.messages) && id in w.rows ==> w.rows[id] == a.rows[id])
  {
    hide Cascade;
  }

  /** A message that the write leaves out: memory and table agree about it at the end exactly when
      its row was not deleted along. */
  lemma LeftOutAgreesIff(a: State, ids: set<nat>, fs: seq<Event>, id: nat)
    requires Agree(a, id) && !(id in ids && id in a.messages)
    requires AllBetween(fs) && LegalRun(Write(a, ids), fs) && id !in After(Write(a, ids), fs).dirty
    ensures Agree(After(Write(a, ids), fs), id) <==> (LiveIn(a.rows, id) ==> id !in Gone(a, ids))
  {
    hide Write, Gone, AllBetween, LegalRun, After;
    WriteTable(a, ids, id);
    RunTracks(Write(a, ids), fs, id);
    assert id in a.messages ==> Rows(a.messages)[id] == a.messages[id].row;
    if LiveIn(a.rows, id) ==> id !in Gone(a, ids) {
      RunCleanAgrees(Write(a, ids), fs, id);
    }
  }

  /** Before the write everything is as durable as in any run. */
  lemma BeforeTheWrite(c: State, es: seq<Event>)
    requires Indexed(c) && Durable(c) && !Crashes(c) && LegalRun(c, es) && AllBetween(es)
    ensures Indexed(After(c, es)) && Durable(After(c, es)) && !Crashes(After(c, es))
  {
    hide *;
    BetweenIsSafe(c, es);
    RunDurable(c, es);
  }

  /** Once its flags are cleared the store is durable if and only if memory and table agree about
      every message whose flag was cleared, and the write took along no live row of a message that
      is not flagged by then. */
  lemma ClearedDurableIff(c: State, cutoff: int, es: seq<Event>, fs: seq<Event>)
    requires Indexed(c) && Durable(c) && !Crashes(c) && LegalRun(c, es) && AllBetween(es)
    requires LegalRun(Written(c, cutoff, es), fs) && AllBetween(fs)
    ensures var a, b := After(c, es), After(Written(c, cutoff, es), fs);
      Durable(Steps(c, cutoff, es, fs)) <==>
      && (forall id :: id in c.dirty ==> Agree(b, id))
      && (forall id :: id !in b.dirty && LiveIn(a.rows, id) ==> id !in Gone(a, ToWrite(c, cutoff).Keys))
  {
    hide Indexed, Durable, Crashes, LegalRun, After, Write, Agree, LiveIn, Gone, AllBetween;
    BeforeTheWrite(c, es);
    var a, ids := After(c, es), ToWrite(c, cutoff).Keys;
    var w := Write(a, ids);
    var b, f := After(w, fs), Steps(c, cutoff, es, fs);
    AgreeEverywhere(a);
    AgreeEverywhere(f);
    forall id: nat
      ensures Agree(f, id) <==> Agree(b, id)
      ensures id in c.dirty ==> id in b.dirty
      ensures id !in b.dirty ==> (Agree(b, id) <==> (LiveIn(a.rows, id) ==> id !in Gone(a, ids)))
    {
      SameTables(f, b, id);
      RunTracks(c, es, id);
      WriteTable(a, ids, id);
      RunTracks(w, fs, id);
      if id !in b.dirty {
        LeftOutAgreesIff(a, ids, fs, id);
      }
    }
  }

  lemma SameTables(s: State, t: State, id: nat)
    requires s.messages == t.messages && s.rows == t.rows
    ensures Agree(s, id) <==> Agree(t, id)
  {
  }

  predicate BothDead(x: Row, y: Row) {
    !Live(x) && !Live(y)
  }

  /** About a message that was written, memory and table agree at the end exactly when nothing has
      happened to it since the write, or it was deleted before. */
  lemma CollectedAgreesIff(a: State, ids: set<nat>, fs: seq<Event>, id: nat)
    requires Indexed(a) && id in ids && id in a.messages
    requires LegalRun(Write(a, ids), fs) && AllBetween(fs)
    ensures var b := After(Write(a, ids), fs);
      && id in b.messages
      && (Agree(b, id) <==>
          BothDead(a.messages[id].row, b.messages[id].row) || SameChange(a.messages[id].row, b.messages[id].row))
  {
    hide Indexed, LegalRun, After, Gone, AllBetween, Write;
    var w, b := Write(a, ids), After(Write(a, ids), fs);
    WriteTable(a, ids, id);
    IdInRange(a, id);
    RunFollows(w, fs, id, a.messages[id].row);
    RowAt(b.messages, id);
  }

  /** About a tombstone that was skipped, exactly when the table has no live row of it, or the write
      took that along. */
  lemma SkippedAgreesIff(c: State, cutoff: int, es: seq<Event>, fs: seq<Event>, id: nat)
    requires Indexed(c) && !Crashes(c) && Indexed(After(c, es)) && LegalRun(c, es) && AllBetween(es)
    requires LegalRun(Written(c, cutoff, es), fs) && AllBetween(fs)
    requires id in c.dirty && id !in ToWrite(c, cutoff)
    ensures var a, b := After(c, es), After(Written(c, cutoff, es), fs);
      Agree(b, id) <==> (LiveIn(a.rows, id) ==> id in Gone(a, ToWrite(c, cutoff).Keys))
  {
    hide Indexed, LegalRun, After, Gone, AllBetween, Write;
    var a, ids := After(c, es), ToWrite(c, cutoff).Keys;
    var w := Write(a, ids);
    assert id in c.messages && !Live(c.messages[id].row);
    IdInRange(c, id);
    RunTracks(c, es, id);
    RunStaysDeleted(c, es, id);
    WriteTable(a, ids, id);
    IdInRange(a, id);
    RunStaysDeleted(w, fs, id);
    RunKeepsLiveRows(w, fs, id);
    RowAt(After(w, fs).messages, id);
  }

  /** What the write has to take along of the live rows that it does not write: exactly those of the
      tombstones that were skipped when the snapshot collected, but for messages that are flagged
      anew at the end. */
  ghost predicate WriteKeepsLive(c: State, cutoff: int, a: State, flagged: set<nat>) {
    var ids := ToWrite(c, cutoff).Keys;
    && (forall id :: id in c.dirty && id !in ids && LiveIn(a.rows, id) ==> id in Gone(a, ids))
    && (forall id :: id !in flagged && LiveIn(a.rows, id) ==> id !in Gone(a, ids))
  }

  /** The snapshot leaves the store durable if and only if every message that it collected is as it
      was written, or was deleted by then and is, and the write took along the live rows of skipped
      tombstones and no others. */
  lemma StepsDurableIff(c: State, cutoff: int, es: seq<Event>, fs: seq<Event>)
    requires Indexed(c) && Durable(c) && !Crashes(c) && LegalRun(c, es) && AllBetween(es)
    requires LegalRun(Written(c, cutoff, es), fs) && AllBetween(fs)
    ensures var a, b := After(c, es), After(Written(c, cutoff, es), fs);
      && (forall id :: id in ToWrite(c, cutoff) ==> id in a.messages && id in b.messages)
      && (Durable(Steps(c, cutoff, es, fs)) <==>
          && (forall id :: id in ToWrite(c, cutoff) ==>
                BothDead(a.messages[id].row, b.messages[id].row) || SameChange(a.messages[id].row, b.messages[id].row))
          && WriteKeepsLive(c, cutoff, a, b.dirty))
  {
    hide Indexed, Durable, LegalRun, After, Agree, LiveIn, Gone, AllBetween, Write, BothDead, SameChange;
    BeforeTheWrite(c, es);
    ClearedDurableIff(c, cutoff, es, fs);
    var a, ids := After(c, es), ToWrite(c, cutoff).Keys;
    var b := After(Written(c, cutoff, es), fs);
    forall id | id in ids
      ensures id in a.messages && id in b.messages
      ensures Agree(b, id) <==>
              BothDead(a.messages[id].row, b.messages[id].row) || SameChange(a.messages[id].row, b.messages[id].row)
    {
      RunTracks(c, es, id);
      CollectedAgreesIff(a, ids, fs, id);
    }
    forall id | id in c.dirty && id !in ids ensures Agree(b, id) <==> (LiveIn(a.rows, id) ==> id in Gone(a, ids)) {
      SkippedAgreesIff(c, cutoff, es, fs, id);
    }
    assert forall id :: id in ids ==> id in c.dirty;
  }

  // ---------------------------------------------------------------- which late changes do harm

  /** An edit or a deletion of the message that is not refused. */
  predicate Changes(s: State, e: Event, id: nat) {
    || (e.Edited? && e.id == id && Edit(s, id, e.owner, e.content, e.now).1.Ok?)
    || (e.Deleted? && e.id == id && SoftDelete(s, id, e.now).1.Ok?)
  }

  function LastChange(s: State, es: seq<Event>, id: nat): Option<Event>
    decreases |es|
  {
    if es == [] then None
    else
      var later := LastChange(Do(s, es[0]), es[1..], id);
      if later.Some? then later else if Changes(s, es[0], id) then Some(es[0]) else None
  }

  /** What the last of some changes makes of a row. */
  predicate LeftBy(x: Row, last: Option<Event>, y: Row) {
    match last
    case None => SameChange(x, y)
    case Some(Edited(_, _, content, now)) =>
      Live(x) && Live(y) && y.content == content && y.editedAt == Some(now)
    case Some(Deleted(_, now)) => Live(x) && !Live(y)
    case _ => false
  }

  lemma PostLeaves(s: State, i: nat, now: int, d: Draft, id: nat)
    requires s.lastId < i && id in s.messages && id <= s.lastId
    ensures var s' := Do(s, Posted(i, now, d));
      id in s'.messages && s'.messages[id].row == s.messages[id].row && id <= s'.lastId
  {
    hide CountUp, Append;
    if Post(s, i, now, d).1.Ok? {
      CountingKeepsMessages(s.messages[i := Message(NewRow(s, i, now, d), 0)], d.parentId);
    }
  }

  lemma DeleteLeaves(s: State, i: nat, now: int, id: nat)
    requires id in s.messages
    ensures var s', e := Do(s, Deleted(i, now)), Deleted(i, now);
      && id in s'.messages && s'.lastId == s.lastId
      && LeftBy(s.messages[id].row, if Changes(s, e, id) then Some(e) else None, s'.messages[id].row)
  {
    hide CountDown, Post, Edit, DeleteUser, HardDelete, Snapshot, DeleteChannel;
    if SoftDelete(s, i, now).1.Ok? {
      var row := s.messages[i].row.(deletedAt := Some(now));
      CountingKeepsMessages(SetRow(s, i, row).messages, row.parentId);
    }
  }

  lemma SetRowLeaves(s: State, i: nat, row: Row, id: nat)
    requires i in s.messages && id in s.messages
    ensures var s' := SetRow(s, i, row);
      && id in s'.messages && s'.lastId == s.lastId
      && s'.messages[id].row == if id == i then row else s.messages[id].row
  {
  }

  lemma EditLeaves(s: State, i: nat, owner: Option<int>, content: string, now: int, id: nat)
    requires id in s.messages
    ensures var s', e := Do(s, Edited(i, owner, content, now)), Edited(i, owner, content, now);
      && id in s'.messages && s'.lastId == s.lastId
      && LeftBy(s.messages[id].row, if Changes(s, e, id) then Some(e) else None, s'.messages[id].row)
  {
    hide SetRow, Post, SoftDelete, DeleteUser, HardDelete, Snapshot, DeleteChannel;
    if i in s.messages {
      SetRowLeaves(s, i, s.messages[i].row.(content := content, editedAt := Some(now)), id);
    }
  }

  lemma StepLeaves(s: State, e: Event, id: nat)
    requires Between(e) && Legal(s, e) && id in s.messages && id <= s.lastId
    ensures id in Do(s, e).messages && id <= Do(s, e).lastId
    ensures LeftBy(s.messages[id].row, if Changes(s, e, id) then Some(e) else None, Do(s, e).messages[id].row)
  {
    hide Post, Edit, SoftDelete;
    match e
    case Posted(i, now, d) => PostLeaves(s, i, now, d, id);
    case Edited(i, owner, content, now) => EditLeaves(s, i, owner, content, now, id);
    case Deleted(i, now) => DeleteLeaves(s, i, now, id);
    case UserDeleted(user, nickname) =>
  }

  lemma {:induction false} RunLeaves(s: State, es: seq<Event>, id: nat)
    requires AllBetween(es) && LegalRun(s, es) && id in s.messages && id <= s.lastId
    ensures id in After(s, es).messages
    ensures LeftBy(s.messages[id].row, LastChange(s, es, id), After(s, es).messages[id].row)
    decreases |es|
  {
    hide Do, Legal, Changes;
    if es != [] {
      AfterFirst(s, es);
      StepLeaves(s, es[0], id);
      RunLeaves(Do(s, es[0]), es[1..], id);
    }
  }

  /** No change, or at last an edit to the very content and time that were written. */
  predicate Harmless(x: Row, last: Option<Event>) {
    match last
    case None => true
    case Some(Edited(_, _, content, now)) => content == x.content && x.editedAt == Some(now)
    case _ => false
  }

  /** In terms of what happens late: the snapshot leaves the store durable if and only if no
      message that it collected is changed after the write (or is at last edited back), and the
      write took along the live rows of skipped tombstones and no others. */
  lemma LateChangesIff(c: State, cutoff: int, es: seq<Event>, fs: seq<Event>)
    requires Indexed(c) && Durable(c) && !Crashes(c) && LegalRun(c, es) && AllBetween(es)
    requires LegalRun(Written(c, cutoff, es), fs) && AllBetween(fs)
    ensures var a, w := After(c, es), Written(c, cutoff, es);
      && (forall id :: id in ToWrite(c, cutoff) ==> id in a.messages)
      && (Durable(Steps(c, cutoff, es, fs)) <==>
          && (forall id :: id in ToWrite(c, cutoff) ==> Harmless(a.messages[id].row, LastChange(w, fs, id)))
          && WriteKeepsLive(c, cutoff, a, After(w, fs).dirty))
  {
    hide Indexed, Durable, Crashes, LegalRun, After, WriteKeepsLive, AllBetween, ToWrite, LastChange;
    BeforeTheWrite(c, es);
    StepsDurableIff(c, cutoff, es, fs);
    var a, w, b := After(c, es), Written(c, cutoff, es), After(Written(c, cutoff, es), fs);
    forall id | id in ToWrite(c, cutoff)
      ensures Harmless(a.messages[id].row, LastChange(w, fs, id)) <==>
              BothDead(a.messages[id].row, b.messages[id].row) || SameChange(a.messages[id].row, b.messages[id].row)
    {
      IdInRange(a, id);
      RunLeaves(w, fs, id);
    }
  }

  lemma {:induction false} UntouchedUnchanged(s: State, es: seq<Event>, id: nat)
    requires forall i :: 0 <= i < |es| ==> !Touches(es[i], id)
    ensures LastChange(s, es, id) == None
    decreases |es|
  {
    hide Do, Edit, SoftDelete;
    if es != [] {
      UntouchedUnchanged(Do(s, es[0]), es[1..], id);
    }
  }

  /** So it does if no late edit or deletion is of a message that it collected. */
  lemma NoLateChangeKeepsDurable(c: State, cutoff: int, es: seq<Event>, fs: seq<Event>)
    requires Indexed(c) && Durable(c) && !Crashes(c) && LegalRun(c, es) && AllBetween(es)
    requires LegalRun(Written(c, cutoff, es), fs) && AllBetween(fs)
    requires WriteKeepsLive(c, cutoff, After(c, es), After(Written(c, cutoff, es), fs).dirty)
    requires forall id, i :: id in ToWrite(c, cutoff) && 0 <= i < |fs| ==> !Touches(fs[i], id)
    ensures Durable(Steps(c, cutoff, es, fs))
  {
    hide Indexed, Durable, Crashes, LegalRun, After, WriteKeepsLive, AllBetween, ToWrite, LastChange, Written, Steps;
    LateChangesIff(c, cutoff, es, fs);
    forall id | id in ToWrite(c, cutoff) ensures LastChange(Written(c, cutoff, es), fs, id) == None {
      UntouchedUnchanged(Written(c, cutoff, es), fs, id);
    }
  }

  /** The order matters: a change of a collected message between the write and the clearing of the
      flags is never stored.  The flag is gone, and the table keeps what was written. */
  lemma LateEditIsLost(c: State, cutoff: int, es: seq<Event>, id: nat, content: string, now: int)
    requires Indexed(c) && Durable(c) && !Crashes(c) && LegalRun(c, es) && AllBetween(es)
    requires id in ToWrite(c, cutoff)
    requires id in After(c, es).messages
    requires var row := After(c, es).messages[id].row;
      Live(row) && row.authorUserId.Some? && row.content != content
    ensures var f := Steps(c, cutoff, es, [Edited(id, None, content, now)]);
      && id !in f.dirty && !Durable(f)
      && id in f.messages && Live(f.messages[id].row) && f.messages[id].row.content == content
      && id in f.rows && f.rows[id] == After(c, es).messages[id].row
  {
    hide Indexed, Durable, Crashes, After, LegalRun;
    var a, ids := After(c, es), ToWrite(c, cutoff).Keys;
    var w := Write(a, ids);
    var e := Edited(id, None, content, now);
    WriteTable(a, ids, id);
    OneEvent(w, e);
    assert id in c.dirty;
    hide Write, ToWrite, Cascade;
    EditStored(w, id, content, now);
    var f := Steps(c, cutoff, es, [e]);
    RowAt(f.messages, id);
    AgreeEverywhere(f);
    assert !Agree(f, id);
  }

  /** Nor is a late deletion: the table keeps a live row, which a restart would load. */
  lemma LateDeletionIsLost(c: State, cutoff: int, es: seq<Event>, id: nat, now: int)
    requires Indexed(c) && Durable(c) && !Crashes(c) && LegalRun(c, es) && AllBetween(es)
    requires id in ToWrite(c, cutoff) && id in After(c, es).messages && Live(After(c, es).messages[id].row)
    ensures var f := Steps(c, cutoff, es, [Deleted(id, now)]);
      && id !in f.dirty && !Durable(f)
      && id in f.messages && !Live(f.messages[id].row) && LiveIn(f.rows, id)
  {
    hide Indexed, Durable, Crashes, After, LegalRun;
    var a, ids := After(c, es), ToWrite(c, cutoff).Keys;
    var w := Write(a, ids);
    var e := Deleted(id, now);
    WriteTable(a, ids, id);
    OneEvent(w, e);
    assert id in c.dirty;
    hide Write, ToWrite, Cascade, Do;
    DeleteLeaves(w, id, now, id);
    DeletionMarks(w, id, now);
    var f := Steps(c, cutoff, es, [e]);
    RowAt(f.messages, id);
    AgreeEverywhere(f);
    assert !Agree(f, id);
  }

  lemma DeletionMarks(s: State, id: nat, now: int)
    requires id in s.messages && Live(s.messages[id].row)
    ensures Changes(s, Deleted(id, now), id) && Do(s, Deleted(id, now)).rows == s.rows
  {
    hide CountDown;
  }

  lemma OneEvent(s: State, e: Event)
    ensures After(s, [e]) == Do(s, e)
  {
    hide Do;
    assert [e][1..] == [] && After(s, [e]) == After(Do(s, e), []);
  }

  lemma EditStored(s: State, id: nat, content: string, now: int)
    requires id in s.messages && Live(s.messages[id].row) && s.messages[id].row.authorUserId.Some?
    ensures var t := Do(s, Edited(id, None, content, now));
      && id in t.messages && Live(t.messages[id].row) && t.messages[id].row.content == content && t.rows == s.rows
  {
  }

  /** For instance: a first message is posted, collected and written, then edited, and then its
      flag is cleared. */
  lemma FirstEditLost(d: Draft, content: string)
    requires d.parentId == None && d.authorUserId.Some? && d.content != content
    ensures var c := Do(EMPTY, Posted(1, 0, d));
      var f := Steps(c, 0, [], [Edited(1, None, content, 0)]);
      && f.dirty == {} && 1 in f.messages && f.messages[1].row.content == content
      && 1 in f.rows && f.rows[1].content == d.content
  {
    hide Indexed, Durable, Crashes, Do, Cascade, NewRow;
    var c := Do(EMPTY, Posted(1, 0, d));
    FirstPosted(d);
    LateEditIsLost(c, 0, [], 1, content, 0);
    var f := Steps(c, 0, [], [Edited(1, None, content, 0)]);
    FlagsAfterEdit(c, content);
  }

  lemma FirstPosted(d: Draft)
    requires d.parentId == None
    ensures var c, row := Do(EMPTY, Posted(1, 0, d)), NewRow(EMPTY, 1, 0, d);
      && Indexed(c) && Durable(c) && !Crashes(c)
      && c.messages == map[1 := Message(row, 0)] && c.dirty == {1} && 1 in ToWrite(c, 0)
      && row.channelId == d.channelId && row.authorUserId == d.authorUserId && row.content == d.content && Live(row)
  {
    hide Append, Cascade, SoftDelete, Edit, DeleteUser, Snapshot, HardDelete, DeleteChannel;
    EmptyGood();
    hide Inv, Indexed, Durable, KeepsCounts, CountsSurvive, ChannelSafe, KeepsLive;
    StepKeepsInv(EMPTY, Posted(1, 0, d));
    StepDurable(EMPTY, Posted(1, 0, d));
  }

  lemma EmptyGood()
    ensures Indexed(EMPTY) && Durable(EMPTY) && !Crashes(EMPTY)
  {
  }

  lemma FlagsAfterEdit(c: State, content: string)
    requires c.dirty == {1}
    ensures Steps(c, 0, [], [Edited(1, None, content, 0)]).dirty == {}
  {
    hide Cascade;
    OneEvent(Written(c, 0, []), Edited(1, None, content, 0));
  }
}
