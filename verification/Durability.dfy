/** Runs of the message store: what survives snapshots, and what a restart rebuilds.

    A snapshot writes the dirty rows in one transaction; a failed one changes nothing.  A restart
    loads the rows that are not deleted (pkg/database/memdb.go:71-184, 236-420). */
module Durability {
  import opened Messages
  import opened Wrappers

  // ---------------------------------------------------------------- one snapshot

  ghost predicate LiveIn(rows: map<nat, Row>, id: nat) {
    id in rows && Live(rows[id])
  }

  /** Outside the dirty set, memory and table have the same live rows. */
  ghost predicate Durable(s: State) {
    forall id: nat :: id !in s.dirty ==>
      && (LiveIn(Rows(s.messages), id) <==> LiveIn(s.rows, id))
      && (LiveIn(s.rows, id) ==> s.rows[id] == s.messages[id].row)
  }

  /** A snapshot dereferences every dirty message: one that is gone crashes the server. */
  ghost predicate Crashes(s: State) {
    !(s.dirty <= s.messages.Keys)
  }

  /** The rows that a snapshot deletes along with rows it replaces, and does not write itself. */
  function Lost(s: State, cutoff: int): set<nat> {
    var written := ToWrite(s, cutoff).Keys;
    Cascade(s.rows, s.rows.Keys * written) - written
  }

  /** Of the live rows a snapshot does not write, it deletes exactly those of skipped tombstones. */
  ghost predicate KeepsLive(s: State, cutoff: int) {
    && (forall id :: id in s.dirty && id in s.messages && LiveIn(s.rows, id) ==>
          s.messages[id].row.deletedAt == None || s.messages[id].row.deletedAt.value >= cutoff || id in Lost(s, cutoff))
    && (forall id :: id !in s.dirty && LiveIn(s.rows, id) ==> id !in Lost(s, cutoff))
  }

  /** No dirty message is skipped at all. */
  ghost predicate SkipsNone(s: State, cutoff: int) {
    forall id :: id in s.dirty && id in s.messages ==>
      s.messages[id].row.deletedAt == None || s.messages[id].row.deletedAt.value >= cutoff
  }

  /** What stands in the table after a snapshot. */
  lemma SnapshotTable(s: State, now: int, id: nat)
    ensures var w, rows := ToWrite(s, now - RETENTION), Snapshot(s, now).rows;
      && (id in w ==> id in rows && rows[id] == w[id] == s.messages[id].row)
      && (id !in w ==> (id in rows <==> id in s.rows && id !in Lost(s, now - RETENTION)))
      && (id !in w && id in rows ==> rows[id] == s.rows[id])
  {
    hide Cascade;
  }

  /** A flagged message is written unless it was deleted more than seven days ago; then the table
      has what it had, if that row stays. */
  lemma SnapshotWrites(s: State, now: int, id: nat)
    requires id in s.dirty && id in s.messages
    ensures var deleted, rows := s.messages[id].row.deletedAt, Snapshot(s, now).rows;
      && (deleted == None || deleted.value >= now - 604800000 ==> id in rows && rows[id] == s.messages[id].row)
      && (deleted != None && deleted.value < now - 604800000 ==>
            id in rows ==> id in s.rows && rows[id] == s.rows[id])
  {
    hide Cascade, Rewritten, Snapshot, Lost;
    SnapshotTable(s, now, id);
  }

  /** The rows of the dirty messages `stored` stand in the table, and every other row of it is an old
      one.  An old row that is not stored goes exactly if it hangs below one that is stored anew or
      goes. */
  ghost predicate TableTakes(was: map<nat, Row>, stored: map<nat, Row>, table: map<nat, Row>) {
    var gone := set id | id in was && (id in stored || id !in table);
    && (forall id :: id in stored ==> id in table && table[id] == stored[id])
    && (forall id :: id in table && id !in stored ==> id in was && table[id] == was[id])
    && (forall id :: id in was && id !in stored ==> (id !in table <==> HangsBelow(was[id], id, gone)))
  }

  lemma RewrittenTakes(rows: map<nat, Row>, written: map<nat, Row>)
    ensures TableTakes(rows, written, Rewritten(rows, written))
  {
    var first, table := rows.Keys * written.Keys, Rewritten(rows, written);
    CascadeReasons(rows, first);
    CascadeCloses(rows, first);
    hide Cascade;
    assert Cascade(rows, first) == set id | id in rows && (id in written || id !in table);
  }

  /** The messages that a snapshot at `now` stores: the flagged ones that are live or were deleted in
      the last seven days. */
  ghost function StoredAt(s: State, now: int): map<nat, Row> {
    map id | id in s.dirty && id in s.messages
        && (s.messages[id].row.deletedAt == None || s.messages[id].row.deletedAt.value >= now - 604800000) ::
      s.messages[id].row
  }

  lemma SnapshotTakes(s: State, now: int)
    ensures var t := Snapshot(s, now);
      t == s.(rows := t.rows, dirty := {}) && TableTakes(s.rows, StoredAt(s, now), t.rows)
  {
    hide Rewritten, TableTakes;
    RewrittenTakes(s.rows, ToWrite(s, now - RETENTION));
    assert ToWrite(s, now - RETENTION) == StoredAt(s, now);
  }

  /** The hard delete keeps exactly the messages that are live or were deleted in the last seven days,
      as they are, and lists exactly those where they were listed. */
  lemma HardDeleteKeeps(s: State, now: int)
    ensures var t := HardDelete(s, now);
      && t == s.(messages := t.messages, byChannel := t.byChannel, byParent := t.byParent, byThread := t.byThread)
      && (forall id :: id in t.messages <==>
            id in s.messages
            && (s.messages[id].row.deletedAt == None || s.messages[id].row.deletedAt.value >= now - 604800000))
      && (forall id :: id in t.messages ==> t.messages[id] == s.messages[id])
  {
    hide KeepAll;
  }

  /** A successful snapshot makes the table agree with memory if and only if it deletes no live
      row but those of the tombstones that it skips. */
  lemma SnapshotDurableIff(s: State, now: int)
    requires Durable(s) && !Crashes(s)
    ensures Durable(Snapshot(s, now)) <==> KeepsLive(s, now - RETENTION)
  {
    hide Cascade, Rewritten, Lost, Snapshot;
    var s', cutoff := Snapshot(s, now), now - RETENTION;
    SnapshotKeepsMessages(s, now);
    assert forall id: nat :: id in s.messages ==> id in Rows(s.messages) && Rows(s.messages)[id] == s.messages[id].row;
    if KeepsLive(s, cutoff) {
      forall id: nat
        ensures LiveIn(Rows(s.messages), id) <==> LiveIn(s'.rows, id)
        ensures LiveIn(s'.rows, id) ==> s'.rows[id] == s.messages[id].row
      {
        SnapshotTable(s, now, id);
        assert id in s.dirty ==> id in s.messages;
      }
    } else if id :| id in s.dirty && id in s.messages && Expired(s.messages[id].row, cutoff) && LiveIn(s.rows, id)
                   && id !in Lost(s, cutoff) {
      SnapshotTable(s, now, id);
      assert LiveIn(s'.rows, id) && !LiveIn(Rows(s'.messages), id);
    } else {
      var id :| id !in s.dirty && LiveIn(s.rows, id) && id in Lost(s, cutoff);
      SnapshotTable(s, now, id);
      assert !LiveIn(s'.rows, id) && LiveIn(Rows(s'.messages), id);
    }
  }

  lemma SnapshotKeepsMessages(s: State, now: int)
    ensures Snapshot(s, now).messages == s.messages && Snapshot(s, now).dirty == {}
  {
  }

  /** A stored reply that the snapshot does not write is lost when its parent is written again. */
  lemma RewrittenParentLosesReply(s: State, now: int, parent: nat, reply: nat)
    requires parent in s.rows && parent in ToWrite(s, now - RETENTION)
    requires reply in s.rows && reply !in ToWrite(s, now - RETENTION) && s.rows[reply].parentId == Some(parent)
    ensures reply !in Snapshot(s, now).rows
  {
    var w := ToWrite(s, now - RETENTION);
    CascadeCloses(s.rows, s.rows.Keys * w.Keys);
    hide Cascade;
    assert DependsOn(s.rows[reply], Cascade(s.rows, s.rows.Keys * w.Keys));
  }

  lemma HardDeleteDurable(s: State, now: int)
    requires Durable(s) && s.dirty == {}
    ensures Durable(HardDelete(s, now))
  {
    var s', doomed := HardDelete(s, now), Doomed(s, now - RETENTION);
    RowsMinus(s.messages, doomed);
    forall id: nat
      ensures LiveIn(Rows(s'.messages), id) <==> LiveIn(s.rows, id)
      ensures LiveIn(s.rows, id) ==> s.rows[id] == s'.messages[id].row
    {
      assert id in s.messages ==> Rows(s.messages)[id] == s.messages[id].row;
      assert id in doomed ==> !LiveIn(Rows(s.messages), id);
    }
  }

  // ---------------------------------------------------------------- restart

  /** `t` is what a restart builds from the table. */
  ghost predicate LoadedFrom(rows: map<nat, Row>, t: State) {
    && t.rows == rows && t.dirty == {}
    && Rows(t.messages) == LiveRows(rows)
    && Inv(t)
  }

  function IndexOf(s: State, kind: Kind): Index {
    match kind
    case ByChannel => s.byChannel
    case ByParent => s.byParent
    case ByThread => s.byThread
  }

  lemma LiveRowsAgree(s: State)
    requires Durable(s) && s.dirty == {}
    ensures LiveRows(s.rows) == LiveRows(Rows(s.messages))
  {
    var a, b := LiveRows(s.rows), LiveRows(Rows(s.messages));
    assert forall id: nat :: id in a <==> LiveIn(s.rows, id);
    assert forall id: nat :: id in b <==> LiveIn(Rows(s.messages), id);
    assert a.Keys == b.Keys;
    forall id | id in a ensures a[id] == b[id] {
    }
  }

  lemma LiveRepliesOfLive(rows: map<nat, Row>, p: nat)
    ensures LiveReplies(LiveRows(rows), p) == LiveReplies(rows, p)
  {
  }

  /** After a snapshot nothing visible is lost: a restart has the same live messages, each index
      lists the same live messages under the same keys, and the reply counts, if they were right,
      are the same. */
  lemma RestartRestores(s: State, t: State)
    requires Indexed(s) && Durable(s) && s.dirty == {} && LoadedFrom(s.rows, t)
    ensures Rows(t.messages) == LiveRows(Rows(s.messages))
    ensures forall kind: Kind, k: nat, id :: id in t.messages ==>
      (id in At(IndexOf(t, kind), k) <==> id in At(IndexOf(s, kind), k))
    ensures forall id :: id in t.messages ==>
      id in s.messages && (Inv(s) ==> t.messages[id].replyCount == s.messages[id].replyCount)
  {
    hide Exact, Bounded, Counted, WellFormed, Rows, LiveReplies, Durable, LiveRows, At;
    LiveRowsAgree(s);
    var a, b := Rows(s.messages), Rows(t.messages);
    LiveRowsSub(a);
    forall kind: Kind, k: nat, id | id in t.messages
      ensures id in At(IndexOf(t, kind), k) <==> id in At(IndexOf(s, kind), k)
    {
      RowAt(t.messages, id);
      SameListing(IndexOf(s, kind), a, IndexOf(t, kind), b, kind, k, id);
    }
    forall id | id in t.messages
      ensures id in s.messages && (Inv(s) ==> t.messages[id].replyCount == s.messages[id].replyCount)
    {
      RowAt(t.messages, id);
      KeysSize(s.messages);
      LiveRepliesOfLive(a, id);
      if Inv(s) {
        CountOf(s, id);
        CountOf(t, id);
      }
    }
  }

  lemma LiveRowsSub(rows: map<nat, Row>)
    ensures forall id :: id in LiveRows(rows) ==> id in rows && LiveRows(rows)[id] == rows[id]
  {
  }

  lemma CountOf(s: State, id: nat)
    requires Inv(s) && id in s.messages
    ensures s.messages[id].replyCount == |LiveReplies(Rows(s.messages), id)|
  {
    hide Exact, Bounded, WellFormed;
  }

  lemma SameListing(ai: Index, a: map<nat, Row>, bi: Index, b: map<nat, Row>, kind: Kind, k: nat, id: nat)
    requires Exact(ai, a, kind) && Exact(bi, b, kind) && id in a && id in b && a[id] == b[id]
    ensures id in At(ai, k) <==> id in At(bi, k)
  {
  }

  /** A snapshot followed by a restart brings back exactly the live messages, if and only if the
      snapshot deletes no live row but those of the tombstones that it skips. */
  lemma SnapshotThenRestartIff(s: State, now: int, t: State)
    requires Durable(s) && !Crashes(s) && LoadedFrom(Snapshot(s, now).rows, t)
    ensures Rows(t.messages) == LiveRows(Rows(s.messages)) <==> KeepsLive(s, now - RETENTION)
  {
    hide Cascade, Rewritten, Snapshot, KeepsLive, Inv;
    var s' := Snapshot(s, now);
    SnapshotKeepsMessages(s, now);
    SnapshotDurableIff(s, now);
    if KeepsLive(s, now - RETENTION) {
      LiveRowsAgree(s');
    } else {
      var id: nat :| !((LiveIn(Rows(s'.messages), id) <==> LiveIn(s'.rows, id))
                       && (LiveIn(s'.rows, id) ==> s'.rows[id] == s'.messages[id].row));
      assert id in LiveRows(s'.rows) <==> LiveIn(s'.rows, id);
      assert id in LiveRows(Rows(s.messages)) <==> LiveIn(Rows(s.messages), id);
      assert id in s.messages ==> Rows(s.messages)[id] == s.messages[id].row;
    }
  }

  // ---------------------------------------------------------------- runs

  /** What happens to the store.  `Tick` is one round of the snapshot loop: a snapshot at `now`,
      and when it commits the hard delete right after it. */
  datatype Event =
    | Posted(id: nat, now: int, draft: Draft)
    | Edited(id: nat, owner: Option<int>, content: string, now: int)
    | Deleted(id: nat, now: int)
    | UserDeleted(user: int, nickname: string)
    | Tick(now: int, later: int, commits: bool)
    | ChannelDeleted(channel: nat)

  function Do(s: State, e: Event): State {
    match e
    case Posted(id, now, d) => Post(s, id, now, d).0
    case Edited(id, owner, content, now) => Edit(s, id, owner, content, now).0
    case Deleted(id, now) => SoftDelete(s, id, now).0
    case UserDeleted(user, nickname) => DeleteUser(s, user, nickname)
    case Tick(now, later, commits) => if commits then HardDelete(Snapshot(s, now), later) else s
    case ChannelDeleted(channel) => DeleteChannel(s, channel)
  }

  /** The generator issues growing IDs, and fewer than 2^32 messages are in memory. */
  ghost predicate Legal(s: State, e: Event) {
    && |s.messages| < UINT32 - 1
    && (e.Posted? ==> s.lastId < e.id)
  }

  function After(s: State, es: seq<Event>): State
    decreases |es|
  {
    if es == [] then s else After(Do(s, es[0]), es[1..])
  }

  ghost predicate LegalRun(s: State, es: seq<Event>)
    decreases |es|
  {
    es == [] || (Legal(s, es[0]) && LegalRun(Do(s, es[0]), es[1..]))
  }

  /** A channel deletion that does no harm: nothing in the channel waits for a snapshot, and no live
      message elsewhere goes with its rows. */
  ghost predicate ChannelSafe(s: State, channel: nat) {
    (forall id :: id in s.dirty ==> id !in InChannel(s, channel)) && TakesOnly(s, channel)
  }

  ghost predicate TakesOnly(s: State, channel: nat) {
    forall id :: id !in s.dirty && LiveIn(Rows(s.messages), id) && id in Cascade(s.rows, RowsIn(s.rows, channel)) ==>
      id in InChannel(s, channel)
  }

  ghost predicate Safe(s: State, e: Event) {
    && (e.Tick? && e.commits ==> KeepsLive(s, e.now - RETENTION))
    && (e.ChannelDeleted? ==> ChannelSafe(s, e.channel))
  }

  /** Every snapshot of the run that commits keeps the live rows, and every channel deletion does
      no harm. */
  ghost predicate SafeRun(s: State, es: seq<Event>)
    decreases |es|
  {
    es == [] || (Safe(s, es[0]) && SafeRun(Do(s, es[0]), es[1..]))
  }

  /** The indexes stay exact whatever happens, and the counts right if and only if no channel is
      deleted that holds a live reply to a message elsewhere. */
  lemma StepKeepsInv(s: State, e: Event)
    requires Indexed(s) && Legal(s, e)
    ensures Indexed(Do(s, e))
    ensures Inv(s) ==> (Inv(Do(s, e)) <==> KeepsCounts(s, e))
  {
    hide Inv, Indexed, DeleteChannel, CountsSurvive;
    match e
    case Posted(id, now, d) => PostKeepsInv(s, id, now, d);
    case Edited(id, owner, content, now) => EditKeepsInv(s, id, owner, content, now);
    case Deleted(id, now) => SoftDeleteKeepsInv(s, id, now);
    case UserDeleted(user, nickname) => DeleteUserKeepsInv(s, user, nickname);
    case Tick(now, later, commits) =>
      if commits {
        SnapshotKeepsInv(s, now);
        HardDeleteKeepsInv(Snapshot(s, now), later);
      }
    case ChannelDeleted(channel) => DeleteChannelKeeps(s, channel);
  }

  ghost predicate KeepsCounts(s: State, e: Event) {
    e.ChannelDeleted? ==> CountsSurvive(s, e.channel)
  }

  /** No channel deletion of the run takes a live reply from a message that stays. */
  ghost predicate KeepsCountsRun(s: State, es: seq<Event>)
    decreases |es|
  {
    es == [] || (KeepsCounts(s, es[0]) && KeepsCountsRun(Do(s, es[0]), es[1..]))
  }

  /** On every state that any run reaches the three indexes are exact: snapshots may fail, skip
      tombstones or lose rows, and any channel may be deleted. */
  lemma {:induction false} RunKeepsIndexes(s: State, es: seq<Event>)
    requires Indexed(s) && LegalRun(s, es)
    ensures Indexed(After(s, es))
    decreases |es|
  {
    hide Inv, Indexed, Legal, Do, KeepsCounts;
    if es != [] {
      StepKeepsInv(s, es[0]);
      RunKeepsIndexes(Do(s, es[0]), es[1..]);
    }
  }

  /** And all reply counts are right, as long as no deleted channel holds a live reply to a message
      elsewhere. */
  lemma {:induction false} RunKeepsInv(s: State, es: seq<Event>)
    requires Inv(s) && LegalRun(s, es) && KeepsCountsRun(s, es)
    ensures Inv(After(s, es))
    decreases |es|
  {
    hide Indexed, Legal, Do, KeepsCounts;
    if es != [] {
      StepKeepsInv(s, es[0]);
      RunKeepsInv(Do(s, es[0]), es[1..]);
    }
  }

  /** A channel is deleted that holds a flagged message. */
  ghost predicate DropsFlagged(s: State, e: Event) {
    e.ChannelDeleted? && exists id :: id in s.dirty && id in InChannel(s, e.channel)
  }

  /** Nothing else makes the next snapshot crash. */
  lemma StepCrashesIff(s: State, e: Event)
    requires Indexed(s) && !Crashes(s)
    ensures Crashes(Do(s, e)) <==> DropsFlagged(s, e)
  {
    hide Indexed, Append, CountUp, CountDown, Snapshot, KeepAll;
    match e
    case Posted(id, now, d) =>
      if Post(s, id, now, d).1.Ok? {
        CountingKeepsMessages(s.messages[id := Message(NewRow(s, id, now, d), 0)], d.parentId);
      }
    case Edited(id, owner, content, now) =>
    case Deleted(id, now) =>
      if SoftDelete(s, id, now).1.Ok? {
        var row := s.messages[id].row.(deletedAt := Some(now));
        CountingKeepsMessages(SetRow(s, id, row).messages, row.parentId);
      }
    case UserDeleted(user, nickname) =>
    case Tick(now, later, commits) => SnapshotKeepsMessages(s, now);
    case ChannelDeleted(channel) => SnapshotAfterDeleteChannelCrashesIff(s, channel);
  }

  /** At no moment of the run would a snapshot crash. */
  ghost predicate NeverCrashes(s: State, es: seq<Event>)
    decreases |es|
  {
    !Crashes(s) && (es == [] || NeverCrashes(Do(s, es[0]), es[1..]))
  }

  ghost predicate DropsNoFlagged(s: State, es: seq<Event>)
    decreases |es|
  {
    es == [] || (!DropsFlagged(s, es[0]) && DropsNoFlagged(Do(s, es[0]), es[1..]))
  }

  /** For every run, whatever its snapshots skip or lose: none crashes if and only if no channel is
      deleted that holds a flagged message. */
  lemma {:induction false} RunCrashesIff(s: State, es: seq<Event>)
    requires Indexed(s) && !Crashes(s) && LegalRun(s, es)
    ensures NeverCrashes(s, es) <==> DropsNoFlagged(s, es)
    decreases |es|
  {
    hide Inv, Indexed, Crashes, Legal, Do, KeepsCounts, DropsFlagged;
    if es != [] {
      StepKeepsInv(s, es[0]);
      StepCrashesIff(s, es[0]);
      if !Crashes(Do(s, es[0])) {
        RunCrashesIff(Do(s, es[0]), es[1..]);
      }
    }
  }

  /** Every reply is posted to the channel of its parent. */
  ghost predicate PostsInChannel(s: State, e: Event) {
    e.Posted? && e.draft.parentId.Some? && e.draft.parentId.value in s.messages ==>
      e.draft.channelId == s.messages[e.draft.parentId.value].row.channelId
  }

  ghost predicate PostsInChannelRun(s: State, es: seq<Event>)
    decreases |es|
  {
    es == [] || (PostsInChannel(s, es[0]) && PostsInChannelRun(Do(s, es[0]), es[1..]))
  }

  /** Every present reply is in the channel of its parent. */
  ghost predicate RepliesInChannel(rows: map<nat, Row>) {
    forall id :: id in rows && rows[id].parentId.Some? && rows[id].parentId.value in rows ==>
      rows[id].channelId == rows[rows[id].parentId.value].channelId
  }

  lemma WrittenIsDurable(s: State, s': State, changed: set<nat>)
    requires Durable(s) && s'.rows == s.rows && s'.dirty == s.dirty + changed
    requires s'.messages.Keys == s.messages.Keys + changed
    requires forall id :: id in s.messages && id !in changed ==> s'.messages[id].row == s.messages[id].row
    ensures Durable(s')
  {
    assert forall id: nat :: id !in changed ==> (LiveIn(Rows(s.messages), id) <==> LiveIn(Rows(s'.messages), id));
  }

  lemma CountingKeepsMessages(messages: map<nat, Message>, parent: Option<nat>)
    ensures CountUp(messages, parent).Keys == messages.Keys
    ensures CountDown(messages, parent).Keys == messages.Keys
    ensures forall id :: id in messages ==>
      CountUp(messages, parent)[id].row == messages[id].row && CountDown(messages, parent)[id].row == messages[id].row
  {
  }

  lemma DeleteUserDurable(s: State, user: int, nickname: string)
    requires Durable(s) && !Crashes(s)
    ensures Durable(DeleteUser(s, user, nickname)) && !Crashes(DeleteUser(s, user, nickname))
  {
    var s' := DeleteUser(s, user, nickname);
    forall id: nat | id !in s'.dirty
      ensures LiveIn(Rows(s'.messages), id) <==> LiveIn(s'.rows, id)
      ensures LiveIn(s'.rows, id) ==> s'.rows[id] == s'.messages[id].row
    {
      assert id !in s.dirty;
      assert id in s.messages ==> Rows(s.messages)[id] == s.messages[id].row == s'.messages[id].row;
    }
  }

  lemma StepDurable(s: State, e: Event)
    requires Indexed(s) && Durable(s) && !Crashes(s) && Safe(s, e)
    ensures Durable(Do(s, e)) && !Crashes(Do(s, e))
  {
    hide Indexed, Durable, Crashes, KeepsLive, ChannelSafe, Post, Edit, SoftDelete, DeleteUser, Snapshot;
    hide HardDelete, DeleteChannel;
    match e
    case Posted(id, now, d) => PostDurable(s, id, now, d);
    case Edited(id, owner, content, now) => EditDurable(s, id, owner, content, now);
    case Deleted(id, now) => DeleteDurable(s, id, now);
    case UserDeleted(user, nickname) => DeleteUserDurable(s, user, nickname);
    case Tick(now, later, commits) => TickDurable(s, now, later, commits);
    case ChannelDeleted(channel) => ChannelDurable(s, channel);
  }

  lemma PostDurable(s: State, id: nat, now: int, d: Draft)
    requires Durable(s) && !Crashes(s)
    ensures var s' := Do(s, Posted(id, now, d)); Durable(s') && !Crashes(s')
  {
    hide Durable, CountUp, Append;
    var s' := Post(s, id, now, d).0;
    if Post(s, id, now, d).1.Ok? {
      CountingKeepsMessages(s.messages[id := Message(NewRow(s, id, now, d), 0)], d.parentId);
      WrittenIsDurable(s, s', {id});
    } else {
      WrittenIsDurable(s, s', {});
    }
  }

  lemma EditDurable(s: State, id: nat, owner: Option<int>, content: string, now: int)
    requires Durable(s) && !Crashes(s)
    ensures var s' := Do(s, Edited(id, owner, content, now)); Durable(s') && !Crashes(s')
  {
    hide Durable;
    var (s', result) := Edit(s, id, owner, content, now);
    WrittenIsDurable(s, s', if result.Ok? then {id} else {});
  }

  lemma DeleteDurable(s: State, id: nat, now: int)
    requires Durable(s) && !Crashes(s)
    ensures var s' := Do(s, Deleted(id, now)); Durable(s') && !Crashes(s')
  {
    hide Durable, CountDown;
    if SoftDelete(s, id, now).1.Ok? {
      var row := s.messages[id].row.(deletedAt := Some(now));
      CountingKeepsMessages(SetRow(s, id, row).messages, row.parentId);
      WrittenIsDurable(s, SoftDelete(s, id, now).0, {id});
    }
  }

  lemma TickDurable(s: State, now: int, later: int, commits: bool)
    requires Durable(s) && !Crashes(s) && Safe(s, Tick(now, later, commits))
    ensures var s' := Do(s, Tick(now, later, commits)); Durable(s') && !Crashes(s')
  {
    hide Durable, KeepsLive, Snapshot;
    if commits {
      SnapshotDurableIff(s, now);
      SnapshotKeepsMessages(s, now);
      HardDeleteDurable(Snapshot(s, now), later);
    }
  }

  /** Deleting a channel keeps memory and table in agreement if and only if no live stored message
      of another channel is deleted with it. */
  lemma DeleteChannelDurableIff(s: State, channel: nat)
    requires Indexed(s) && Durable(s)
    ensures Durable(DeleteChannel(s, channel)) <==> TakesOnly(s, channel)
  {
    DeleteChannelKeeps(s, channel);
    TableAfterChannel(s, channel);
    var s', gone := DeleteChannel(s, channel), Cascade(s.rows, RowsIn(s.rows, channel));
    hide Inv, Indexed, Cascade, DeleteChannel, InChannel, LiveIn;
    hide Agree, Durable;
    AgreeEverywhere(s);
    forall id: nat | id !in s.dirty
      ensures Agree(s', id) <==> (LiveIn(Rows(s.messages), id) && id in gone ==> id in InChannel(s, channel))
    {
      AgreeAfterChannel(s, channel, id);
    }
    AgreeEverywhere(s');
  }

  ghost predicate Agree(s: State, id: nat) {
    (LiveIn(Rows(s.messages), id) <==> LiveIn(s.rows, id)) && (LiveIn(s.rows, id) ==> s.rows[id] == s.messages[id].row)
  }

  lemma AgreeEverywhere(s: State)
    ensures Durable(s) <==> forall id: nat :: id !in s.dirty ==> Agree(s, id)
  {
    hide LiveIn;
    if Durable(s) {
      forall id: nat | id !in s.dirty ensures Agree(s, id) {
      }
    }
  }

  /** What the deletion of a channel does to the agreement about one message. */
  lemma AgreeAfterChannel(s: State, channel: nat, id: nat)
    requires Agree(s, id) && DeleteChannel(s, channel).messages == s.messages - InChannel(s, channel)
    ensures Agree(DeleteChannel(s, channel), id) <==>
            (LiveIn(Rows(s.messages), id) && id in Cascade(s.rows, RowsIn(s.rows, channel)) ==>
                id in InChannel(s, channel))
  {
    hide Cascade;
    var s' := DeleteChannel(s, channel);
    assert id in s.messages ==> Rows(s.messages)[id] == s.messages[id].row;
    assert id in s'.messages ==> Rows(s'.messages)[id] == s'.messages[id].row == s.messages[id].row;
  }

  lemma ChannelDurable(s: State, channel: nat)
    requires Indexed(s) && Durable(s) && !Crashes(s) && ChannelSafe(s, channel)
    ensures var s' := Do(s, ChannelDeleted(channel)); Durable(s') && !Crashes(s')
  {
    DeleteChannelDurableIff(s, channel);
    SnapshotAfterDeleteChannelCrashesIff(s, channel);
    hide Durable, Indexed, Crashes, DeleteChannel, InChannel;
  }

  /** Every run of posts, edits, deletions, account and channel deletions and snapshots, committed
      or not, that keeps the live rows: each message that is not dirty is stored as it is, and no
      snapshot crashes. */
  lemma {:induction false} RunDurable(s: State, es: seq<Event>)
    requires Indexed(s) && Durable(s) && !Crashes(s) && LegalRun(s, es) && SafeRun(s, es)
    ensures Indexed(After(s, es)) && Durable(After(s, es)) && !Crashes(After(s, es))
    decreases |es|
  {
    hide Inv, Indexed, Durable, Crashes, Legal, Do, KeepsLive, ChannelSafe, KeepsCounts;
    if es != [] {
      StepKeepsInv(s, es[0]);
      StepDurable(s, es[0]);
      RunDurable(Do(s, es[0]), es[1..]);
    }
  }

  lemma InvIsIndexed(s: State)
    requires Inv(s)
    ensures Indexed(s)
  {
  }

  lemma FreshlyLoaded(rows: map<nat, Row>, s: State)
    requires LoadedFrom(rows, s)
    ensures Inv(s) && Durable(s) && !Crashes(s)
  {
    assert forall id: nat :: LiveIn(rows, id) <==> id in LiveRows(rows);
    assert forall id :: id in s.messages ==> Rows(s.messages)[id] == s.messages[id].row;
  }

  /** From start to restart: run the server from a loaded state, take a last snapshot that
      commits, load again: live messages and index contents are all back, and so are the reply
      counts, unless a channel was deleted with a live reply to a message elsewhere. */
  lemma RunThenRestart(s: State, es: seq<Event>, now: int, t: State)
    requires LoadedFrom(s.rows, s) && LegalRun(s, es) && SafeRun(s, es)
    requires KeepsLive(After(s, es), now - RETENTION)
    requires LoadedFrom(Snapshot(After(s, es), now).rows, t)
    ensures var last := After(s, es);
      && Rows(t.messages) == LiveRows(Rows(last.messages))
      && (forall kind: Kind, k: nat, id :: id in t.messages ==>
            (id in At(IndexOf(t, kind), k) <==> id in At(IndexOf(last, kind), k)))
      && (forall id :: id in t.messages ==>
            id in last.messages
            && (KeepsCountsRun(s, es) ==> t.messages[id].replyCount == last.messages[id].replyCount))
  {
    hide *;
    FreshlyLoaded(s.rows, s);
    InvIsIndexed(s);
    RunDurable(s, es);
    if KeepsCountsRun(s, es) {
      RunKeepsInv(s, es);
    }
    var last := After(s, es);
    SnapshotDurableIff(last, now);
    SnapshotKeepsInv(last, now);
    SnapshotClears(last, now);
    RestartRestores(Snapshot(last, now), t);
  }

  lemma SnapshotClears(s: State, now: int)
    ensures Snapshot(s, now).dirty == {} && Snapshot(s, now).messages == s.messages
    ensures forall kind: Kind :: IndexOf(Snapshot(s, now), kind) == IndexOf(s, kind)
  {
  }

  lemma AfterThree(s: State, a: Event, b: Event, c: Event)
    ensures After(s, [a, b, c]) == Do(Do(Do(s, a), b), c)
  {
    hide Do;
    var s1, s2 := Do(s, a), Do(Do(s, a), b);
    assert [c][1..] == [] && After(s2, [c]) == After(Do(s2, c), []);
    assert [b, c][1..] == [c] && After(s1, [b, c]) == After(s2, [c]);
    assert [a, b, c][1..] == [b, c];
  }

  const EMPTY := State(map[], map[], map[], map[], {}, map[], 0)

  /** The first message of an empty store, once a snapshot has committed. */
  lemma FirstMessageStored(d: Draft)
    requires d.parentId == None
    ensures var row := NewRow(EMPTY, 1, 0, d);
      var s := Do(Do(EMPTY, Posted(1, 0, d)), Tick(0, 0, true));
      s.messages == map[1 := Message(row, 0)] && s.rows == map[1 := row]
  {
    hide Append, KeepAll;
    var row, s1 := NewRow(EMPTY, 1, 0, d), Do(EMPTY, Posted(1, 0, d));
    assert s1.messages == map[1 := Message(row, 0)];
    assert ToWrite(s1, -RETENTION) == map[1 := row];
    assert Doomed(Snapshot(s1, 0), -RETENTION) == {};
  }

  /** The condition is needed.  A stored message is deleted, no snapshot commits for seven days,
      and the next one skips the tombstone: a restart brings the message back to life. */
  lemma SkippedTombstoneComesBack(d: Draft, es: seq<Event>, t: State)
    requires d.parentId == None
    requires es == [Posted(1, 0, d), Tick(0, 0, true), Deleted(1, 0)]
    requires LoadedFrom(Snapshot(After(EMPTY, es), RETENTION + 1).rows, t)
    ensures var s := After(EMPTY, es);
      && 1 in s.messages && !Live(s.messages[1].row)
      && 1 in t.messages && Live(t.messages[1].row)
  {
    hide Post, Append, KeepAll, After, Inv, Cascade;
    FirstMessageStored(d);
    AfterThree(EMPTY, es[0], es[1], es[2]);
    var s2 := Do(Do(EMPTY, es[0]), es[1]);
    hide Do;
    var row, s3 := s2.messages[1].row, SoftDelete(s2, 1, 0).0;
    assert s3.rows.Keys * ToWrite(s3, 1).Keys == {};
    NothingCascades(s3.rows);
    assert LiveRows(Snapshot(s3, RETENTION + 1).rows)[1] == row;
    RowAt(t.messages, 1);
  }

  /** A message and its reply, both stored by one snapshot. */
  lemma ThreadStored(a: Draft, b: Draft)
    requires a.parentId == None && b.parentId == Some(1)
    ensures var s := Do(Do(Do(EMPTY, Posted(1, 0, a)), Posted(2, 0, b)), Tick(0, 0, true));
      && s.rows == Rows(s.messages) && s.messages.Keys == {1, 2} && s.dirty == {}
      && s.messages[1].row.authorUserId == a.authorUserId
      && s.messages[2].row.parentId == Some(1)
      && Live(s.messages[1].row) && Live(s.messages[2].row)
  {
    hide Append, CountUp, Snapshot, HardDelete;
    var s1 := Do(EMPTY, Posted(1, 0, a));
    var with1 := EMPTY.messages[1 := Message(NewRow(EMPTY, 1, 0, a), 0)];
    CountingKeepsMessages(with1, None);
    assert s1.messages.Keys == {1} && s1.dirty == {1};
    var s2 := Do(s1, Posted(2, 0, b));
    CountingKeepsMessages(s1.messages[2 := Message(NewRow(s1, 2, 0, b), 0)], Some(1));
    assert s2.messages.Keys == {1, 2} && s2.dirty == {1, 2};
    FirstTick(s2);
  }

  /** The first snapshot of live messages that were never stored stores them all. */
  lemma FirstTick(s: State)
    requires s.rows == map[] && s.dirty == s.messages.Keys && forall id :: id in s.messages ==> Live(s.messages[id].row)
    ensures var s' := Do(s, Tick(0, 0, true));
      s'.rows == Rows(s.messages) && s'.messages == s.messages && s'.dirty == {}
  {
    hide KeepAll, Cascade;
    assert ToWrite(s, -RETENTION) == Rows(s.messages);
    assert Doomed(Snapshot(s, 0), -RETENTION) == {};
    assert s.messages - {} == s.messages;
  }

  lemma EditMarks(s: State, id: nat, content: string)
    requires id in s.messages && s.messages[id].row.authorUserId.Some? && Live(s.messages[id].row)
    ensures var s' := Do(s, Edited(id, None, content, 0));
      && s'.dirty == s.dirty + {id} && s'.rows == s.rows && s'.messages.Keys == s.messages.Keys
      && (forall i :: i in s.messages && i != id ==> s'.messages[i] == s.messages[i])
      && Live(s'.messages[id].row)
  {
  }

  /** The condition on replaced rows is needed as well.  A message and its reply are stored, the
      message is edited, and the next snapshot, which writes only the message, deletes the reply's
      row: after a restart the reply is gone. */
  lemma EditLosesStoredReply(a: Draft, b: Draft, content: string, es: seq<Event>, t: State)
    requires a.parentId == None && a.authorUserId.Some? && b.parentId == Some(1)
    requires es == [Posted(1, 0, a), Posted(2, 0, b), Tick(0, 0, true)]
    requires LoadedFrom(Snapshot(Do(After(EMPTY, es), Edited(1, None, content, 0)), 0).rows, t)
    ensures var s := Do(After(EMPTY, es), Edited(1, None, content, 0));
      && 2 in s.messages && Live(s.messages[2].row) && 2 !in t.messages
  {
    hide After, Do, Inv, Cascade, Rewritten, Snapshot, Rows, LiveRows;
    AfterThree(EMPTY, es[0], es[1], es[2]);
    ThreadStored(a, b);
    var s3 := After(EMPTY, es);
    EditMarks(s3, 1, content);
    var s4 := Do(s3, Edited(1, None, content, 0));
    RowAt(s3.messages, 1);
    RowAt(s3.messages, 2);
    RewrittenParentLosesReply(s4, 0, 1, 2);
    KeysSize(t.messages);
    LiveRowsSub(Snapshot(s4, 0).rows);
  }

  // ---------------------------------------------------------------- deleting channels

  /** Then deleting a channel takes a thread as a whole, and every count stays right. */
  lemma DeleteChannelKeepsInv(s: State, channel: nat)
    requires Inv(s) && RepliesInChannel(Rows(s.messages))
    ensures Inv(DeleteChannel(s, channel)) && RepliesInChannel(Rows(DeleteChannel(s, channel).messages))
  {
    var s', rows := DeleteChannel(s, channel), Rows(s.messages);
    DeleteChannelKeeps(s, channel);
    RowsMinus(s.messages, InChannel(s, channel));
    hide Inv, DeleteChannel;
    forall p | p in s'.messages ensures LiveReplies(rows, p) !! InChannel(s, channel) {
      assert rows[p] == s.messages[p].row;
      assert forall id :: id in s.messages ==> rows[id] == s.messages[id].row;
    }
  }

  lemma PlacesInChannel(a: map<nat, Row>, b: map<nat, Row>)
    requires RepliesInChannel(a) && b.Keys <= a.Keys && forall id :: id in b ==> SamePlace(a[id], b[id])
    ensures RepliesInChannel(b)
  {
  }

  lemma PostInChannel(s: State, id: nat, now: int, d: Draft)
    requires Indexed(s) && s.lastId < id && RepliesInChannel(Rows(s.messages)) && PostsInChannel(s, Posted(id, now, d))
    ensures RepliesInChannel(Rows(Post(s, id, now, d).0.messages))
  {
    hide Append, CountUp, Exact, Bounded;
    if Post(s, id, now, d).1.Ok? {
      var row, rows := NewRow(s, id, now, d), Rows(s.messages);
      CountingKeepsRows(s.messages[id := Message(row, 0)], d.parentId);
      RowsUpdate(s.messages, id, Message(row, 0));
      forall r | r in rows ensures rows[r].parentId != Some(id) && r != id {
        assert rows[r].id == r <= s.lastId && Grounded(rows[r]);
      }
      if d.parentId.Some? {
        RowAt(s.messages, d.parentId.value);
      }
    }
  }

  lemma DeletedPlace(s: State, i: nat, now: int, id: nat)
    requires id in SoftDelete(s, i, now).0.messages
    ensures id in s.messages && SamePlace(s.messages[id].row, SoftDelete(s, i, now).0.messages[id].row)
  {
    hide CountDown;
    if SoftDelete(s, i, now).1.Ok? {
      var row := s.messages[i].row.(deletedAt := Some(now));
      CountingKeepsMessages(SetRow(s, i, row).messages, row.parentId);
    }
  }

  lemma EditedPlace(s: State, i: nat, owner: Option<int>, content: string, now: int, id: nat)
    requires id in Edit(s, i, owner, content, now).0.messages
    ensures id in s.messages && SamePlace(s.messages[id].row, Edit(s, i, owner, content, now).0.messages[id].row)
  {
  }

  lemma UserPlace(s: State, user: int, nickname: string, id: nat)
    requires id in DeleteUser(s, user, nickname).messages
    ensures id in s.messages && SamePlace(s.messages[id].row, DeleteUser(s, user, nickname).messages[id].row)
  {
  }

  lemma RemovalPlace(s: State, e: Event, id: nat)
    requires (e.Tick? || e.ChannelDeleted?) && id in Do(s, e).messages
    ensures id in s.messages && SamePlace(s.messages[id].row, Do(s, e).messages[id].row)
  {
    hide Cascade, KeepAll, Rewritten, ToWrite, Doomed, Post, Edit, SoftDelete, DeleteUser;
  }

  lemma SameMessagePlace(s: State, e: Event, id: nat)
    requires !e.Posted? && id in Do(s, e).messages
    ensures id in s.messages && SamePlace(s.messages[id].row, Do(s, e).messages[id].row)
  {
    hide Post, Edit, SoftDelete, DeleteUser, HardDelete, DeleteChannel, Snapshot, SamePlace;
    match e
    case Edited(i, owner, content, now) => EditedPlace(s, i, owner, content, now, id);
    case Deleted(i, now) => DeletedPlace(s, i, now, id);
    case UserDeleted(user, nickname) => UserPlace(s, user, nickname, id);
    case _ => RemovalPlace(s, e, id);
  }

  lemma StepInChannel(s: State, e: Event)
    requires Indexed(s) && Legal(s, e) && RepliesInChannel(Rows(s.messages)) && PostsInChannel(s, e)
    ensures RepliesInChannel(Rows(Do(s, e).messages))
  {
    hide RepliesInChannel, Indexed, Rows, SamePlace;
    if e.Posted? {
      PostInChannel(s, e.id, e.now, e.draft);
    } else {
      hide Do;
      var a, b := Rows(s.messages), Rows(Do(s, e).messages);
      forall id | id in b ensures id in a && SamePlace(a[id], b[id]) {
        SameMessagePlace(s, e, id);
        RowAt(s.messages, id);
        RowAt(Do(s, e).messages, id);
      }
      PlacesInChannel(a, b);
    }
  }

  /** So if every reply is posted to the channel of its parent, indexes and counts are exact after
      any run at all, channel deletions included. */
  lemma {:induction false} RunInChannelKeepsInv(s: State, es: seq<Event>)
    requires Inv(s) && RepliesInChannel(Rows(s.messages)) && LegalRun(s, es) && PostsInChannelRun(s, es)
    ensures Inv(After(s, es)) && RepliesInChannel(Rows(After(s, es).messages))
    decreases |es|
  {
    hide Inv, Legal, Do, KeepsCounts, RepliesInChannel, PostsInChannel, Rows;
    if es != [] {
      InvIsIndexed(s);
      StepKeepsInv(s, es[0]);
      InChannelKeepsCounts(s, es[0]);
      StepInChannel(s, es[0]);
      RunInChannelKeepsInv(Do(s, es[0]), es[1..]);
    }
  }

  lemma InChannelKeepsCounts(s: State, e: Event)
    requires Inv(s) && RepliesInChannel(Rows(s.messages))
    ensures KeepsCounts(s, e)
  {
    if e.ChannelDeleted? {
      InvIsIndexed(s);
      DeleteChannelKeepsInv(s, e.channel);
      DeleteChannelKeeps(s, e.channel);
    }
  }

  /** Nothing makes sure of it: a reply in another channel stays counted when that is deleted. */
  lemma ReplyElsewhereStaysCounted(a: Draft, b: Draft)
    requires a.parentId == None && b.parentId == Some(1) && a.channelId != b.channelId
    ensures var s := After(EMPTY, [Posted(1, 0, a), Posted(2, 0, b), ChannelDeleted(b.channelId)]);
      s.messages.Keys == {1} && s.messages[1].replyCount == 1 && LiveReplies(Rows(s.messages), 1) == {}
  {
    hide Cascade, HardDelete, Snapshot, SoftDelete, Edit, DeleteUser;
    var s1 := Do(EMPTY, Posted(1, 0, a));
    assert s1.messages == map[1 := Message(NewRow(EMPTY, 1, 0, a), 0)];
    var s2 := Do(s1, Posted(2, 0, b));
    assert s2.messages.Keys == {1, 2} && s2.messages[1].replyCount == 1;
    assert At(s2.byChannel, b.channelId) == [2];
    AfterThree(EMPTY, Posted(1, 0, a), Posted(2, 0, b), ChannelDeleted(b.channelId));
  }

  /** But the dirty set keeps the dropped IDs: the next snapshot crashes if and only if some
      dirty message was in the channel. */
  lemma SnapshotAfterDeleteChannelCrashesIff(s: State, channel: nat)
    requires Indexed(s) && !Crashes(s)
    ensures Crashes(DeleteChannel(s, channel)) <==> exists id :: id in s.dirty && id in InChannel(s, channel)
  {
    DeleteChannelKeeps(s, channel);
    hide Inv;
    var s' := DeleteChannel(s, channel);
    if id :| id in s.dirty && id in InChannel(s, channel) {
      assert id !in s'.messages.Keys;
    }
  }

  /** The first message of an empty store, deleted with its channel before any snapshot. */
  lemma NewMessageInDeletedChannelCrashes(d: Draft)
    requires d.parentId == None
    ensures Crashes(Do(Do(EMPTY, Posted(1, 0, d)), ChannelDeleted(d.channelId)))
  {
    hide Cascade;
    var s := Do(EMPTY, Posted(1, 0, d));
    assert s.dirty == {1} && At(s.byChannel, d.channelId) == [1];
    var s' := Do(s, ChannelDeleted(d.channelId));
    assert 1 in s'.dirty && 1 !in s'.messages.Keys;
  }

  // ---------------------------------------------------------------- the order of a snapshot's writes

  ghost predicate Ascending(ids: seq<nat>) {
    forall i, j :: 0 <= i < j < |ids| ==> ids[i] < ids[j]
  }

  /** A message is stored or about to be, and so is its parent. */
  ghost predicate HasAnchor(s: State, id: nat)
    requires id in s.messages
  {
    var parent := s.messages[id].row.parentId;
    (id in s.dirty || id in s.rows) && (parent.Some? ==> parent.value in s.messages || parent.value in s.rows)
  }

  ghost predicate Anchored(s: State) {
    forall id {:trigger HasAnchor(s, id)} :: id in s.messages ==> HasAnchor(s, id)
  }

  lemma ParentBefore(s: State, id: nat)
    requires Indexed(s) && id in s.messages && s.messages[id].row.parentId.Some?
    ensures s.messages[id].row.parentId.value < id
  {
    hide Exact, Bounded, Counted;
    assert Rows(s.messages)[id] == s.messages[id].row;
  }

  /** Written in ascending ID order, no row ever precedes its parent: at every prefix of the
      batch the parent is already stored or was written earlier. */
  lemma ParentsFirst(s: State, cutoff: int, ids: seq<nat>, k: nat)
    requires Indexed(s) && Anchored(s) && !Crashes(s) && SkipsNone(s, cutoff)
    requires Ascending(ids) && (forall id :: id in ids <==> id in ToWrite(s, cutoff)) && k < |ids|
    ensures ids[k] in ToWrite(s, cutoff)
    ensures var row := ToWrite(s, cutoff)[ids[k]];
      row.parentId.Some? ==> row.parentId.value in s.rows || row.parentId.value in ids[..k]
  {
    hide Indexed;
    var id := ids[k];
    assert id in ids && id in ToWrite(s, cutoff);
    var row := s.messages[id].row;
    if row.parentId.Some? && row.parentId.value !in s.rows {
      var p := row.parentId.value;
      ParentBefore(s, id);
      assert HasAnchor(s, id) && HasAnchor(s, p);
      assert p in s.dirty && p in ToWrite(s, cutoff);
      var j :| 0 <= j < |ids| && ids[j] == p;
      assert j < k;
      assert ids[..k][j] == p;
    }
  }

  lemma WrittenAnchored(s: State, s': State, changed: set<nat>)
    requires Anchored(s) && s'.rows == s.rows && s'.dirty == s.dirty + changed
    requires s'.messages.Keys == s.messages.Keys + changed
    requires forall id :: id in s.messages ==> s'.messages[id].row.parentId == s.messages[id].row.parentId
    requires forall id :: id in changed && id !in s.messages && s'.messages[id].row.parentId.Some? ==>
      s'.messages[id].row.parentId.value in s.messages
    ensures Anchored(s')
  {
    forall id | id in s'.messages ensures HasAnchor(s', id) {
      assert id in s.messages ==> HasAnchor(s, id);
    }
  }

  lemma PostAnchored(s: State, id: nat, now: int, d: Draft)
    requires Anchored(s) && (id !in s.messages)
    ensures Anchored(Do(s, Posted(id, now, d)))
  {
    hide Anchored, CountUp, Append;
    var s' := Post(s, id, now, d).0;
    if Post(s, id, now, d).1.Ok? {
      CountingKeepsMessages(s.messages[id := Message(NewRow(s, id, now, d), 0)], d.parentId);
      WrittenAnchored(s, s', {id});
    } else {
      WrittenAnchored(s, s', {});
    }
  }

  lemma EditAnchored(s: State, id: nat, owner: Option<int>, content: string, now: int)
    requires Anchored(s)
    ensures Anchored(Do(s, Edited(id, owner, content, now)))
  {
    hide Anchored;
    WrittenAnchored(s, Edit(s, id, owner, content, now).0, if Edit(s, id, owner, content, now).1.Ok? then {id} else {});
  }

  lemma DeleteAnchored(s: State, id: nat, now: int)
    requires Anchored(s)
    ensures Anchored(Do(s, Deleted(id, now)))
  {
    hide Anchored, CountDown;
    if SoftDelete(s, id, now).1.Ok? {
      var row := s.messages[id].row.(deletedAt := Some(now));
      CountingKeepsMessages(SetRow(s, id, row).messages, row.parentId);
      WrittenAnchored(s, SoftDelete(s, id, now).0, {id});
    }
  }

  lemma UserAnchored(s: State, user: int, nickname: string)
    requires Anchored(s)
    ensures Anchored(Do(s, UserDeleted(user, nickname)))
  {
    var s' := DeleteUser(s, user, nickname);
    forall id | id in s'.messages ensures HasAnchor(s', id) {
      assert HasAnchor(s, id);
    }
  }

  lemma SnapshotAnchored(s: State, now: int, id: nat)
    requires Anchored(s) && !Crashes(s) && SkipsNone(s, now - RETENTION) && LosesNone(s, now - RETENTION)
    requires id in s.messages
    ensures var rows, parent := Snapshot(s, now).rows, s.messages[id].row.parentId;
      id in rows && (parent.Some? ==> parent.value in rows)
  {
    hide Cascade, Rewritten, Lost, Snapshot;
    var parent := s.messages[id].row.parentId;
    assert HasAnchor(s, id);
    SnapshotTable(s, now, id);
    if parent.Some? {
      SnapshotTable(s, now, parent.value);
      assert parent.value in s.messages ==> HasAnchor(s, parent.value);
    }
  }

  lemma TickAnchored(s: State, now: int, later: int, commits: bool)
    requires Anchored(s) && !Crashes(s)
    requires commits ==> SkipsNone(s, now - RETENTION) && LosesNone(s, now - RETENTION)
    ensures Anchored(Do(s, Tick(now, later, commits)))
  {
    hide Snapshot, LosesNone, SkipsNone, Anchored;
    if commits {
      SnapshotKeepsMessages(s, now);
      var s' := HardDelete(Snapshot(s, now), later);
      forall id | id in s'.messages ensures HasAnchor(s', id) {
        SnapshotAnchored(s, now, id);
      }
      AnchoredIs(s');
    }
  }

  lemma AnchoredIs(s: State)
    requires forall id {:trigger HasAnchor(s, id)} :: id in s.messages ==> HasAnchor(s, id)
    ensures Anchored(s)
  {
  }

  /** A deletion that takes whole threads, in memory and in the table: of the other messages
      neither row nor parent goes. */
  ghost predicate TakesWholeThreads(s: State, channel: nat) {
    var gone := Cascade(s.rows, RowsIn(s.rows, channel)) + InChannel(s, channel);
    forall id :: id in s.messages && id !in InChannel(s, channel) ==>
      && id !in gone
      && (s.messages[id].row.parentId.Some? ==> s.messages[id].row.parentId.value !in gone)
  }

  lemma ChannelAnchored(s: State, channel: nat)
    requires Indexed(s) && Anchored(s) && TakesWholeThreads(s, channel)
    ensures Anchored(Do(s, ChannelDeleted(channel)))
  {
    hide Inv, WellFormed, IndexesExact, LiveReplies, Cascade, InChannel, RowsIn, DeleteChannel;
    DeleteChannelKeeps(s, channel);
    TableAfterChannel(s, channel);
    var s', dropped := DeleteChannel(s, channel), Cascade(s.rows, RowsIn(s.rows, channel));
    forall id | id in s'.messages ensures HasAnchor(s', id) {
      assert HasAnchor(s, id);
      assert id in s.messages && id !in InChannel(s, channel) && s'.messages[id] == s.messages[id];
      assert id !in dropped + InChannel(s, channel);
    }
  }

  lemma TableAfterChannel(s: State, channel: nat)
    ensures DeleteChannel(s, channel).rows == s.rows - Cascade(s.rows, RowsIn(s.rows, channel))
    ensures DeleteChannel(s, channel).dirty == s.dirty
  {
  }

  /** Neither a message in memory nor the parent of one is deleted along with what is written. */
  ghost predicate LosesNone(s: State, cutoff: int) {
    forall id :: id in s.messages ==>
      && id !in Lost(s, cutoff)
      && (s.messages[id].row.parentId.Some? ==> s.messages[id].row.parentId.value !in Lost(s, cutoff))
  }

  ghost predicate Tidy(s: State, e: Event) {
    && (e.Tick? && e.commits ==> SkipsNone(s, e.now - RETENTION) && LosesNone(s, e.now - RETENTION))
    && (e.ChannelDeleted? ==> !DropsFlagged(s, e) && TakesWholeThreads(s, e.channel))
  }

  lemma StepAnchored(s: State, e: Event)
    requires Indexed(s) && Anchored(s) && !Crashes(s) && Legal(s, e) && Tidy(s, e)
    ensures Anchored(Do(s, e))
  {
    hide Indexed, Anchored, Crashes, SkipsNone, LosesNone, ChannelSafe, TakesWholeThreads;
    hide Post, Edit, SoftDelete, DeleteUser, Snapshot, HardDelete, DeleteChannel;
    match e
    case Posted(id, now, d) =>
      NewToMemory(s, id);
      PostAnchored(s, id, now, d);
    case Edited(id, owner, content, now) => EditAnchored(s, id, owner, content, now);
    case Deleted(id, now) => DeleteAnchored(s, id, now);
    case UserDeleted(user, nickname) => UserAnchored(s, user, nickname);
    case Tick(now, later, commits) => TickAnchored(s, now, later, commits);
    case ChannelDeleted(channel) => ChannelAnchored(s, channel);
  }

  lemma NewToMemory(s: State, id: nat)
    requires Indexed(s) && s.lastId < id
    ensures id !in s.messages
  {
    if id in s.messages {
      IdInRange(s, id);
    }
  }

  /** Every committed snapshot of the run skips and loses nothing, and channel deletions take whole
      threads. */
  ghost predicate TidyRun(s: State, es: seq<Event>)
    decreases |es|
  {
    es == [] || (Tidy(s, es[0]) && TidyRun(Do(s, es[0]), es[1..]))
  }

  /** So at the end of any such run the next snapshot writes parents before their replies. */
  lemma {:induction false} RunAnchored(s: State, es: seq<Event>)
    requires Indexed(s) && Anchored(s) && !Crashes(s) && LegalRun(s, es) && TidyRun(s, es)
    ensures Indexed(After(s, es)) && Anchored(After(s, es)) && !Crashes(After(s, es))
    decreases |es|
  {
    hide Inv, Indexed, Crashes, Legal, Tidy, Do, Anchored, KeepsCounts, DropsFlagged;
    if es != [] {
      StepKeepsInv(s, es[0]);
      StepCrashesIff(s, es[0]);
      TidyDropsNone(s, es[0]);
      StepAnchored(s, es[0]);
      RunAnchored(Do(s, es[0]), es[1..]);
    }
  }

  lemma TidyDropsNone(s: State, e: Event)
    requires Tidy(s, e)
    ensures !DropsFlagged(s, e)
  {
    hide Cascade, Lost, TakesWholeThreads;
  }
}
