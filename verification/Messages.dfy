/** The in-memory message store of pkg/database/memdb.go, as a value, and its operations.

    A message map, three secondary indexes, a cached reply count per message, a set of dirty IDs
    and the durable table (`rows`, SQLite's Message table) are updated side by side by every
    operation.  The class MemDb in MemDb.dfy runs these operations in place. */
module Messages {
  import opened Sets
  import opened Wrappers

  /** The columns of the Message table. */
  datatype Row = Row(
    id: nat, channelId: nat, subchannelId: Option<int>, parentId: Option<nat>, threadRoot: Option<nat>,
    authorUserId: Option<int>, authorNickname: string, content: string,
    createdAt: int, editedAt: Option<int>, deletedAt: Option<int>)

  /** A message in memory: its columns and the cached number of live direct replies (uint32). */
  datatype Message = Message(row: Row, replyCount: nat)

  type Index = map<nat, seq<nat>>

  datatype State = State(
    messages: map<nat, Message>,
    byChannel: Index, byParent: Index, byThread: Index,
    dirty: set<nat>,
    rows: map<nat, Row>,
    lastId: nat)  // the last ID the generator issued

  const UINT32 := 0x1_0000_0000
  const RETENTION := 604800000  // 7 * 24 * 3600 * 1000 milliseconds

  // ---------------------------------------------------------------- views

  function Rows(messages: map<nat, Message>): (r: map<nat, Row>)
    ensures r.Keys == messages.Keys
  {
    map id | id in messages :: messages[id].row
  }

  predicate Live(r: Row) {
    r.deletedAt == None
  }

  function LiveRows(rows: map<nat, Row>): map<nat, Row> {
    map id | id in rows && Live(rows[id]) :: rows[id]
  }

  function LiveReplies(rows: map<nat, Row>, parent: nat): set<nat> {
    set id | id in rows && rows[id].parentId == Some(parent) && Live(rows[id])
  }

  function At(index: Index, key: nat): seq<nat> {
    if key in index then index[key] else []
  }

  datatype Kind = ByChannel | ByParent | ByThread

  /** The key under which an index lists a message, if any. */
  function Key(kind: Kind, r: Row): Option<nat> {
    match kind
    case ByChannel => Some(r.channelId)
    case ByParent => r.parentId
    case ByThread => r.threadRoot
  }

  function Add32(n: nat): nat { (n + 1) % UINT32 }

  /** Adding ^uint32(0) subtracts one modulo 2^32. */
  function Sub32(n: nat): nat { (n + UINT32 - 1) % UINT32 }

  // ---------------------------------------------------------------- operations

  datatype Draft = Draft(
    channelId: nat, subchannelId: Option<int>, parentId: Option<nat>,
    authorUserId: Option<int>, authorNickname: string, content: string)

  datatype Result = Ok | NotFound | AlreadyDeleted | Anonymous | NotOwned | DeletedMessage

  function Append(index: Index, key: Option<nat>, id: nat): Index {
    if key.None? then index else index[key.value := At(index, key.value) + [id]]
  }

  /** The parent's cached count goes up, or down unless it is already zero. */
  function CountUp(messages: map<nat, Message>, parent: Option<nat>): map<nat, Message> {
    if parent.Some? && parent.value in messages
    then var m := messages[parent.value]; messages[parent.value := m.(replyCount := Add32(m.replyCount))]
    else messages
  }

  function CountDown(messages: map<nat, Message>, parent: Option<nat>): map<nat, Message> {
    if parent.Some? && parent.value in messages && messages[parent.value].replyCount > 0
    then var m := messages[parent.value]; messages[parent.value := m.(replyCount := Sub32(m.replyCount))]
    else messages
  }

  /** The row a draft becomes: a reply inherits its parent's thread root. */
  function NewRow(s: State, id: nat, now: int, d: Draft): Row
    requires d.parentId.Some? ==> d.parentId.value in s.messages
  {
    var root := if d.parentId.Some? then s.messages[d.parentId.value].row.threadRoot else Some(id);
    Row(id, d.channelId, d.subchannelId, d.parentId, root, d.authorUserId, d.authorNickname, d.content, now, None, None)
  }

  /** The generator's next ID is consumed even when the parent is missing. */
  function Post(s: State, id: nat, now: int, d: Draft): (State, Result) {
    if d.parentId.Some? && d.parentId.value !in s.messages then (s.(lastId := id), NotFound)
    else
      var row := NewRow(s, id, now, d);
      (State(CountUp(s.messages[id := Message(row, 0)], d.parentId),
             Append(s.byChannel, Key(ByChannel, row), id),
             Append(s.byParent, Key(ByParent, row), id),
             Append(s.byThread, Key(ByThread, row), id),
             s.dirty + {id}, s.rows, id), Ok)
  }

  function SetRow(s: State, id: nat, row: Row): State
    requires id in s.messages
  {
    s.(messages := s.messages[id := s.messages[id].(row := row)], dirty := s.dirty + {id})
  }

  function SoftDelete(s: State, id: nat, now: int): (State, Result) {
    if id !in s.messages then (s, NotFound)
    else if !Live(s.messages[id].row) then (s, AlreadyDeleted)
    else
      var row := s.messages[id].row;
      var s1 := SetRow(s, id, row.(deletedAt := Some(now)));
      (s1.(messages := CountDown(s1.messages, row.parentId)), Ok)
  }

  /** `owner` is None for the administrator's version, which skips the ownership check. */
  function Edit(s: State, id: nat, owner: Option<int>, content: string, now: int): (State, Result) {
    if id !in s.messages then (s, NotFound)
    else
      var row := s.messages[id].row;
      if row.authorUserId.None? then (s, Anonymous)
      else if owner.Some? && row.authorUserId != owner then (s, NotOwned)
      else if !Live(row) then (s, DeletedMessage)
      else (SetRow(s, id, row.(content := content, editedAt := Some(now))), Ok)
  }

  predicate AuthoredBy(r: Row, user: int) {
    r.authorUserId == Some(user)
  }

  function Anonymized(r: Row, nickname: string): Row {
    r.(authorUserId := None, authorNickname := nickname)
  }

  /** A deleted account: its messages stay, without an author, in the table and in memory. */
  function DeleteUser(s: State, user: int, nickname: string): State {
    s.(messages := map id | id in s.messages ::
         if AuthoredBy(s.messages[id].row, user)
         then s.messages[id].(row := Anonymized(s.messages[id].row, nickname)) else s.messages[id],
       dirty := s.dirty + (set id | id in s.messages && AuthoredBy(s.messages[id].row, user)),
       rows := map id | id in s.rows ::
         if AuthoredBy(s.rows[id], user) then Anonymized(s.rows[id], nickname) else s.rows[id])
  }

  /** Soft-deleted before the cutoff. */
  predicate Expired(r: Row, cutoff: int) {
    r.deletedAt.Some? && r.deletedAt.value < cutoff
  }

  // The table's foreign keys: deleting a row deletes the rows whose parent or thread root it is.

  predicate DependsOn(r: Row, gone: set<nat>) {
    (r.parentId.Some? && r.parentId.value in gone) || (r.threadRoot.Some? && r.threadRoot.value in gone)
  }

  /** Everything that goes when the rows `gone` are deleted. */
  function Cascade(rows: map<nat, Row>, gone: set<nat>): (all: set<nat>)
    ensures gone <= all
    decreases rows.Keys - gone
  {
    var more := set id | id in rows && id !in gone && DependsOn(rows[id], gone);
    if more == {} then gone
    else
      assert rows.Keys - (gone + more) < rows.Keys - gone;
      Cascade(rows, gone + more)
  }

  /** What a successful snapshot writes: the dirty messages except expired tombstones. */
  function ToWrite(s: State, cutoff: int): map<nat, Row> {
    map id | id in s.dirty && id in s.messages && !Expired(s.messages[id].row, cutoff) :: s.messages[id].row
  }

  /** INSERT OR REPLACE deletes the row that it replaces, and so everything below that row. */
  function Rewritten(rows: map<nat, Row>, written: map<nat, Row>): map<nat, Row> {
    (rows - Cascade(rows, rows.Keys * written.Keys)) + written
  }

  function Snapshot(s: State, now: int): State {
    s.(rows := Rewritten(s.rows, ToWrite(s, now - RETENTION)), dirty := {})
  }

  /** The IDs of `ids` outside `doomed`, in order. */
  function Keep(ids: seq<nat>, doomed: set<nat>): seq<nat> {
    if ids == [] then []
    else if ids[0] in doomed then Keep(ids[1..], doomed) else [ids[0]] + Keep(ids[1..], doomed)
  }

  function KeepAll(index: Index, doomed: set<nat>): Index {
    map k | k in index :: Keep(index[k], doomed)
  }

  function Doomed(s: State, cutoff: int): set<nat> {
    set id | id in s.messages && Expired(s.messages[id].row, cutoff)
  }

  /** Expired tombstones leave memory and all three indexes. */
  function HardDelete(s: State, now: int): State {
    var doomed := Doomed(s, now - RETENTION);
    s.(messages := s.messages - doomed,
       byChannel := KeepAll(s.byChannel, doomed),
       byParent := KeepAll(s.byParent, doomed),
       byThread := KeepAll(s.byThread, doomed))
  }

  /** The rows of a channel. */
  function RowsIn(rows: map<nat, Row>, channel: nat): set<nat> {
    set id | id in rows && rows[id].channelId == channel
  }

  /** Drops the channel's messages; the parent and thread indexes and the dirty set keep their IDs.
      The table loses the channel's rows and what hangs below them. */
  function DeleteChannel(s: State, channel: nat): State {
    s.(messages := s.messages - (set id | id in At(s.byChannel, channel)),
       byChannel := s.byChannel - {channel},
       rows := s.rows - Cascade(s.rows, RowsIn(s.rows, channel)))
  }

  // ---------------------------------------------------------------- invariants

  /** Restricted to present messages, the index lists each exactly once and under its own key. */
  ghost predicate Exact(index: Index, rows: map<nat, Row>, kind: Kind) {
    && (forall id, k: nat :: id in rows ==> (id in At(index, k) <==> Key(kind, rows[id]) == Some(k)))
    && (forall k, i, j :: k in index && 0 <= i < j < |index[k]| && index[k][i] in rows ==> index[k][i] != index[k][j])
  }

  ghost predicate Bounded(index: Index, last: nat) {
    forall k, id :: k in index && id in index[k] ==> id <= last
  }

  /** A message comes after its parent, and not before its thread root. */
  predicate Grounded(r: Row) {
    (r.parentId.Some? ==> r.parentId.value < r.id) && (r.threadRoot.Some? ==> r.threadRoot.value <= r.id)
  }

  /** IDs name their row, and replies come after their parent and share its thread root. */
  ghost predicate WellFormed(rows: map<nat, Row>, last: nat) {
    && (forall id :: id in rows ==> rows[id].id == id <= last && Grounded(rows[id]))
    && (forall id :: id in rows && rows[id].parentId.Some? && rows[id].parentId.value in rows ==>
          rows[id].threadRoot == rows[rows[id].parentId.value].threadRoot)
  }

  ghost predicate IndexesExact(s: State) {
    var rows := Rows(s.messages);
    && Exact(s.byChannel, rows, ByChannel) && Bounded(s.byChannel, s.lastId)
    && Exact(s.byParent, rows, ByParent) && Bounded(s.byParent, s.lastId)
    && Exact(s.byThread, rows, ByThread) && Bounded(s.byThread, s.lastId)
  }

  /** What every operation keeps, the deletion of any channel included. */
  ghost predicate Indexed(s: State) {
    && WellFormed(Rows(s.messages), s.lastId)
    && IndexesExact(s)
    && forall id :: id in s.dirty || id in s.rows ==> id <= s.lastId
  }

  ghost predicate Inv(s: State) {
    Indexed(s) && Counted(s.messages, Rows(s.messages))
  }

  // ---------------------------------------------------------------- what a deletion takes along

  /** Every row whose parent or thread root is inside `all` is inside as well. */
  ghost predicate Closed(rows: map<nat, Row>, all: set<nat>) {
    forall id :: id in rows && id !in all ==>
      && (rows[id].parentId.Some? ==> rows[id].parentId.value !in all)
      && (rows[id].threadRoot.Some? ==> rows[id].threadRoot.value !in all)
  }

  lemma {:induction false} CascadeCloses(rows: map<nat, Row>, gone: set<nat>)
    ensures Closed(rows, Cascade(rows, gone))
    ensures Cascade(rows, gone) <= gone + rows.Keys
    decreases rows.Keys - gone
  {
    var more := set id | id in rows && id !in gone && DependsOn(rows[id], gone);
    if more == {} {
      forall id | id in rows && DependsOn(rows[id], gone) ensures id in gone {
        assert id !in more;
      }
    } else {
      assert rows.Keys - (gone + more) < rows.Keys - gone;
      CascadeCloses(rows, gone + more);
    }
  }

  /** A cascade deletes no more than it has to. */
  lemma {:induction false} CascadeIsLeast(rows: map<nat, Row>, gone: set<nat>, all: set<nat>)
    requires gone <= all && Closed(rows, all)
    ensures Cascade(rows, gone) <= all
    decreases rows.Keys - gone
  {
    var more := set id | id in rows && id !in gone && DependsOn(rows[id], gone);
    if more != {} {
      assert rows.Keys - (gone + more) < rows.Keys - gone;
      forall id | id in more ensures id in all {
        assert DependsOn(rows[id], all);
      }
      CascadeIsLeast(rows, gone + more, all);
    }
  }

  /** Some other row in `gone` is the parent or the thread root of `r`. */
  ghost predicate HangsBelow(r: Row, id: nat, gone: set<nat>) {
    || (r.parentId.Some? && r.parentId.value != id && r.parentId.value in gone)
    || (r.threadRoot.Some? && r.threadRoot.value != id && r.threadRoot.value in gone)
  }

  /** Whatever a cascade adds hangs below something that goes. */
  lemma {:induction false} CascadeReasons(rows: map<nat, Row>, gone: set<nat>)
    ensures forall id :: id in Cascade(rows, gone) && id !in gone ==>
              id in rows && HangsBelow(rows[id], id, Cascade(rows, gone))
    decreases rows.Keys - gone
  {
    var more := set id | id in rows && id !in gone && DependsOn(rows[id], gone);
    if more != {} {
      assert rows.Keys - (gone + more) < rows.Keys - gone;
      CascadeReasons(rows, gone + more);
      forall id | id in more ensures HangsBelow(rows[id], id, Cascade(rows, gone)) {
        assert DependsOn(rows[id], gone) && id !in gone;
      }
    }
  }

  /** When a channel goes, none of its rows stays, and no row whose parent or thread root went. */
  lemma ChannelRowsGo(rows: map<nat, Row>, channel: nat)
    ensures var left := rows - Cascade(rows, RowsIn(rows, channel));
      && (forall id :: id in left ==> left[id] == rows[id] && left[id].channelId != channel)
      && (forall id :: id in left ==>
            && (left[id].parentId.Some? && left[id].parentId.value in rows ==> left[id].parentId.value in left)
            && (left[id].threadRoot.Some? && left[id].threadRoot.value in rows ==> left[id].threadRoot.value in left))
  {
    CascadeCloses(rows, RowsIn(rows, channel));
    hide Cascade;
    assert forall id :: id in rows && rows[id].channelId == channel ==> id in RowsIn(rows, channel);
  }

  /** And no other row goes: a set that holds its rows, and with a row every reply to it and all of
      its thread, holds all that go. */
  lemma OnlyChannelRowsGo(rows: map<nat, Row>, channel: nat, all: set<nat>)
    requires Closed(rows, all) && forall id :: id in rows && rows[id].channelId == channel ==> id in all
    ensures forall id :: id in rows && id !in all ==> id in rows - Cascade(rows, RowsIn(rows, channel))
  {
    CascadeIsLeast(rows, RowsIn(rows, channel), all);
  }

  lemma NothingCascades(rows: map<nat, Row>)
    ensures Cascade(rows, {}) == {}
  {
    CascadeIsLeast(rows, {}, {});
  }

  // ---------------------------------------------------------------- the indexes

  ghost predicate NotListed(index: Index, id: nat) {
    forall k :: k in index ==> id !in index[k]
  }

  lemma AppendExact(index: Index, rows: map<nat, Row>, kind: Kind, row: Row)
    requires Exact(index, rows, kind) && row.id !in rows && NotListed(index, row.id)
    ensures Exact(Append(index, Key(kind, row), row.id), rows[row.id := row], kind)
  {
    var index', rows' := Append(index, Key(kind, row), row.id), rows[row.id := row];
    forall id, k: nat | id in rows' ensures id in At(index', k) <==> Key(kind, rows'[id]) == Some(k) {
      if Key(kind, row) == Some(k) {
        assert At(index', k) == At(index, k) + [row.id];
      } else {
        assert At(index', k) == At(index, k);
      }
    }
    forall k, i, j | k in index' && 0 <= i < j < |index'[k]| && index'[k][i] in rows'
      ensures index'[k][i] != index'[k][j]
    {
      if Key(kind, row) == Some(k) {
        assert index'[k] == At(index, k) + [row.id];
        assert index'[k][i] == At(index, k)[i] && index'[k][i] in At(index, k);
        assert j < |At(index, k)| ==> k in index && index'[k][j] == index[k][j];
      }
    }
  }

  lemma AppendBounded(index: Index, key: Option<nat>, id: nat, last: nat)
    requires Bounded(index, last) && last < id
    ensures NotListed(index, id) && Bounded(Append(index, key, id), id)
  {
  }

  /** Changes that keep every row's key keep the index exact. */
  lemma SameKeysExact(index: Index, rows: map<nat, Row>, rows': map<nat, Row>, kind: Kind)
    requires Exact(index, rows, kind) && rows'.Keys == rows.Keys
    requires forall id :: id in rows ==> Key(kind, rows'[id]) == Key(kind, rows[id])
    ensures Exact(index, rows', kind)
  {
  }

  lemma {:induction false} KeepIs(ids: seq<nat>, doomed: set<nat>)
    ensures forall id :: id in Keep(ids, doomed) <==> id in ids && id !in doomed
  {
    if ids != [] {
      KeepIs(ids[1..], doomed);
      assert ids == [ids[0]] + ids[1..];
    }
  }

  ghost predicate Once(ids: seq<nat>, id: nat) {
    forall i, j :: 0 <= i < j < |ids| && ids[i] == id ==> ids[j] != id
  }

  lemma {:induction false} KeepOnce(ids: seq<nat>, doomed: set<nat>, id: nat)
    requires Once(ids, id)
    ensures Once(Keep(ids, doomed), id)
  {
    if ids != [] {
      assert Once(ids[1..], id) by {
        forall i, j | 0 <= i < j < |ids[1..]| && ids[1..][i] == id ensures ids[1..][j] != id {
          assert ids[i + 1] == id;
        }
      }
      KeepOnce(ids[1..], doomed, id);
      if ids[0] == id && id !in doomed {
        KeepIs(ids[1..], doomed);
      }
    }
  }

  lemma KeepAllExact(index: Index, rows: map<nat, Row>, kind: Kind, doomed: set<nat>, last: nat)
    requires Exact(index, rows, kind) && Bounded(index, last)
    ensures Exact(KeepAll(index, doomed), rows - doomed, kind) && Bounded(KeepAll(index, doomed), last)
  {
    var index' := KeepAll(index, doomed);
    forall id, k: nat | id in rows - doomed ensures id in At(index', k) <==> Key(kind, rows[id]) == Some(k) {
      KeepIs(At(index, k), doomed);
    }
    forall k, i, j | k in index' && 0 <= i < j < |index'[k]| && index'[k][i] in rows - doomed
      ensures index'[k][i] != index'[k][j]
    {
      var id := index'[k][i];
      assert Once(index[k], id);
      KeepOnce(index[k], doomed, id);
    }
    forall k, id | k in index' && id in index'[k] ensures id <= last {
      KeepIs(index[k], doomed);
    }
  }

  // ---------------------------------------------------------------- the counts

  /** Counting up or down changes no row. */
  lemma CountingKeepsRows(messages: map<nat, Message>, parent: Option<nat>)
    ensures Rows(CountUp(messages, parent)) == Rows(messages)
    ensures Rows(CountDown(messages, parent)) == Rows(messages)
  {
  }

  lemma RowsUpdate(messages: map<nat, Message>, id: nat, m: Message)
    ensures Rows(messages[id := m]) == Rows(messages)[id := m.row]
  {
  }

  /** A count per parent, as a function of the rows alone. */
  ghost predicate Counted(messages: map<nat, Message>, rows: map<nat, Row>) {
    forall id :: id in messages ==> messages[id].replyCount == |LiveReplies(rows, id)|
  }

  lemma SameReplies(a: map<nat, Row>, b: map<nat, Row>)
    requires a.Keys == b.Keys
    requires forall id :: id in a ==> a[id].parentId == b[id].parentId && Live(a[id]) == Live(b[id])
    ensures forall p: nat :: LiveReplies(a, p) == LiveReplies(b, p)
  {
  }

  lemma RepliesBounded(rows: map<nat, Row>, parent: nat)
    ensures |LiveReplies(rows, parent)| <= |rows.Keys|
  {
    SubsetSize(LiveReplies(rows, parent), rows.Keys);
  }

  /** A new live row adds one reply, to its parent. */
  lemma RepliesAfterPost(rows: map<nat, Row>, row: Row, p: nat)
    requires row.id !in rows && Live(row)
    ensures row.id !in LiveReplies(rows, p)
    ensures LiveReplies(rows[row.id := row], p) ==
      if row.parentId == Some(p) then LiveReplies(rows, p) + {row.id} else LiveReplies(rows, p)
  {
  }

  /** A live row that becomes a tombstone takes one reply from its parent. */
  lemma RepliesAfterDelete(rows: map<nat, Row>, id: nat, row: Row, p: nat)
    requires id in rows && Live(rows[id]) && !Live(row) && row.parentId == rows[id].parentId
    ensures LiveReplies(rows[id := row], p) ==
      if row.parentId == Some(p) then LiveReplies(rows, p) - {id} else LiveReplies(rows, p)
    ensures row.parentId == Some(p) ==> id in LiveReplies(rows, p)
  {
  }

  lemma CountUpExact(messages: map<nat, Message>, last: nat, row: Row)
    requires WellFormed(Rows(messages), last) && last < row.id
    requires Counted(messages, Rows(messages)) && |messages| < UINT32 - 1
    requires Live(row) && row.parentId != Some(row.id)
    ensures Counted(CountUp(messages[row.id := Message(row, 0)], row.parentId), Rows(messages)[row.id := row])
  {
    hide LiveReplies, Rows, WellFormed;
    var rows := Rows(messages);
    var after := CountUp(messages[row.id := Message(row, 0)], row.parentId);
    NoRepliesYet(rows, last, row.id);
    KeysSize(messages);
    forall p | p in after ensures after[p].replyCount == |LiveReplies(rows[row.id := row], p)| {
      RepliesAfterPost(rows, row, p);
      RepliesBounded(rows, p);
    }
  }

  lemma KeysSize(messages: map<nat, Message>)
    ensures |messages.Keys| == |messages| && Rows(messages).Keys == messages.Keys
  {
  }

  lemma NoRepliesYet(rows: map<nat, Row>, last: nat, id: nat)
    requires WellFormed(rows, last) && last < id
    ensures id !in rows && LiveReplies(rows, id) == {}
  {
  }

  /** A live reply dies: the guard lets the decrement through and the count stays exact. */
  lemma CountDownExact(messages: map<nat, Message>, id: nat, row: Row)
    requires Counted(messages, Rows(messages)) && id in messages && |messages| < UINT32
    requires Live(messages[id].row) && !Live(row) && row.parentId == messages[id].row.parentId
    requires row.parentId != Some(id)
    ensures row.parentId.Some? && row.parentId.value in messages ==> messages[row.parentId.value].replyCount > 0
    ensures Counted(CountDown(messages[id := messages[id].(row := row)], row.parentId), Rows(messages)[id := row])
  {
    hide LiveReplies, Rows;
    var rows := Rows(messages);
    var after := CountDown(messages[id := messages[id].(row := row)], row.parentId);
    RowAt(messages, id);
    KeysSize(messages);
    forall p | p in after
      ensures after[p].replyCount == |LiveReplies(rows[id := row], p)|
      ensures row.parentId == Some(p) ==> messages[p].replyCount > 0
    {
      RepliesAfterDelete(rows, id, row, p);
      RepliesBounded(rows, p);
    }
  }

  // ---------------------------------------------------------------- the shape of the rows

  lemma PostWellFormed(rows: map<nat, Row>, last: nat, row: Row)
    requires WellFormed(rows, last) && last < row.id
    requires row.parentId.None? ==> row.threadRoot == Some(row.id)
    requires row.parentId.Some? ==>
      row.parentId.value in rows && row.threadRoot == rows[row.parentId.value].threadRoot
    ensures WellFormed(rows[row.id := row], row.id)
  {
  }

  /** Same identity, place and thread. */
  predicate SamePlace(a: Row, b: Row) {
    a.id == b.id && a.channelId == b.channelId && a.parentId == b.parentId && a.threadRoot == b.threadRoot
  }

  ghost predicate SamePlaces(a: map<nat, Row>, b: map<nat, Row>) {
    a.Keys == b.Keys && forall id :: id in a ==> SamePlace(a[id], b[id])
  }

  lemma SamePlacesKeep(s: State, t: State)
    requires SamePlaces(Rows(s.messages), Rows(t.messages))
    requires WellFormed(Rows(s.messages), s.lastId) && IndexesExact(s)
    requires t.byChannel == s.byChannel && t.byParent == s.byParent && t.byThread == s.byThread && t.lastId == s.lastId
    ensures WellFormed(Rows(t.messages), t.lastId) && IndexesExact(t)
  {
    var a, b := Rows(s.messages), Rows(t.messages);
    SameKeysExact(s.byChannel, a, b, ByChannel);
    SameKeysExact(s.byParent, a, b, ByParent);
    SameKeysExact(s.byThread, a, b, ByThread);
    WellFormedPlaces(a, b, s.lastId);
    hide Exact, Bounded, WellFormed;
  }

  lemma WellFormedPlaces(a: map<nat, Row>, b: map<nat, Row>, last: nat)
    requires SamePlaces(a, b) && WellFormed(a, last)
    ensures WellFormed(b, last)
  {
  }

  // ---------------------------------------------------------------- every operation keeps the invariant

  lemma PostKeepsInv(s: State, id: nat, now: int, d: Draft)
    requires Indexed(s) && s.lastId < id
    ensures Indexed(Post(s, id, now, d).0)
    ensures Inv(s) && |s.messages| < UINT32 - 1 ==> Inv(Post(s, id, now, d).0)
  {
    hide Exact, Bounded, WellFormed, Counted, Append, CountUp, LiveReplies, Rows, Key, NotListed;
    if d.parentId.Some? && d.parentId.value !in s.messages {
      LaterIdKeepsInv(s, id);
    } else {
      var row, rows := NewRow(s, id, now, d), Rows(s.messages);
      NewRowKeys(s, id, now, d);
      AppendBounded(s.byChannel, Key(ByChannel, row), id, s.lastId);
      AppendBounded(s.byParent, Key(ByParent, row), id, s.lastId);
      AppendBounded(s.byThread, Key(ByThread, row), id, s.lastId);
      AppendExact(s.byChannel, rows, ByChannel, row);
      AppendExact(s.byParent, rows, ByParent, row);
      AppendExact(s.byThread, rows, ByThread, row);
      PostWellFormed(rows, s.lastId, row);
      if Inv(s) && |s.messages| < UINT32 - 1 {
        CountUpExact(s.messages, s.lastId, row);
      }
      RowsUpdate(s.messages, id, Message(row, 0));
      CountingKeepsRows(s.messages[id := Message(row, 0)], d.parentId);
    }
  }

  lemma NewRowKeys(s: State, id: nat, now: int, d: Draft)
    requires Indexed(s) && s.lastId < id && (d.parentId.Some? ==> d.parentId.value in s.messages)
    ensures var row, rows := NewRow(s, id, now, d), Rows(s.messages);
      && id !in rows && Live(row) && row.parentId != Some(id)
      && (row.parentId.None? ==> row.threadRoot == Some(row.id))
      && (row.parentId.Some? ==> row.parentId.value in rows && row.threadRoot == rows[row.parentId.value].threadRoot)
  {
    hide Exact, Bounded, Counted;
    assert forall m :: m in s.messages ==> m in Rows(s.messages) && Rows(s.messages)[m] == s.messages[m].row;
  }

  lemma LaterIdKeepsInv(s: State, id: nat)
    requires Indexed(s) && s.lastId < id
    ensures Indexed(s.(lastId := id))
    ensures Inv(s) ==> Inv(s.(lastId := id))
  {
    hide Exact, Counted;
  }

  /** Rewriting a row in its place, alive or dead as before. */
  lemma SetRowKeepsInv(s: State, id: nat, row: Row)
    requires Indexed(s) && id in s.messages && SamePlace(s.messages[id].row, row)
    ensures Indexed(SetRow(s, id, row))
    ensures Inv(s) && Live(row) == Live(s.messages[id].row) ==> Inv(SetRow(s, id, row))
  {
    hide Exact, Bounded, WellFormed, LiveReplies, Rows, SamePlace;
    var s' := SetRow(s, id, row);
    RowsUpdate(s.messages, id, s'.messages[id]);
    RowAt(s.messages, id);
    IdInRange(s, id);
    SetRowPlaces(Rows(s.messages), id, row);
    SamePlacesKeep(s, s');
    if Live(row) == Live(s.messages[id].row) {
      SetRowReplies(Rows(s.messages), id, row);
    }
  }

  lemma RowAt(messages: map<nat, Message>, id: nat)
    requires id in messages
    ensures id in Rows(messages) && Rows(messages)[id] == messages[id].row
  {
  }

  lemma IdInRange(s: State, id: nat)
    requires Indexed(s) && id in s.messages
    ensures id <= s.lastId
  {
    hide Exact, Bounded, Counted;
    assert id in Rows(s.messages);
  }

  lemma SetRowPlaces(rows: map<nat, Row>, id: nat, row: Row)
    requires id in rows && SamePlace(rows[id], row)
    ensures SamePlaces(rows, rows[id := row])
  {
  }

  lemma SetRowReplies(rows: map<nat, Row>, id: nat, row: Row)
    requires id in rows && SamePlace(rows[id], row) && Live(row) == Live(rows[id])
    ensures forall p: nat :: LiveReplies(rows, p) == LiveReplies(rows[id := row], p)
  {
  }

  lemma SoftDeleteKeepsInv(s: State, id: nat, now: int)
    requires Indexed(s)
    ensures Indexed(SoftDelete(s, id, now).0)
    ensures Inv(s) && |s.messages| < UINT32 ==> Inv(SoftDelete(s, id, now).0)
  {
    hide Exact, Bounded, WellFormed, Counted, CountDown, LiveReplies, Rows;
    if id in s.messages && Live(s.messages[id].row) {
      var row := s.messages[id].row.(deletedAt := Some(now));
      var s1 := SetRow(s, id, row);
      SetRowKeepsInv(s, id, row);
      IdInRange(s, id);
      NotItsOwnParent(s, id);
      if Inv(s) && |s.messages| < UINT32 {
        CountDownExact(s.messages, id, row);
      }
      RowsUpdate(s.messages, id, s1.messages[id]);
      CountingKeepsRows(s1.messages, row.parentId);
    }
  }

  lemma NotItsOwnParent(s: State, id: nat)
    requires Indexed(s) && id in s.messages
    ensures s.messages[id].row.parentId != Some(id)
  {
    hide Exact, Bounded, Counted;
    assert Rows(s.messages)[id] == s.messages[id].row;
  }

  lemma EditKeepsInv(s: State, id: nat, owner: Option<int>, content: string, now: int)
    requires Indexed(s)
    ensures Indexed(Edit(s, id, owner, content, now).0)
    ensures Inv(s) ==> Inv(Edit(s, id, owner, content, now).0)
  {
    hide Inv, Indexed;
    if Edit(s, id, owner, content, now).1.Ok? {
      SetRowKeepsInv(s, id, s.messages[id].row.(content := content, editedAt := Some(now)));
    }
  }

  lemma DeleteUserKeepsInv(s: State, user: int, nickname: string)
    requires Indexed(s)
    ensures Indexed(DeleteUser(s, user, nickname))
    ensures Inv(s) ==> Inv(DeleteUser(s, user, nickname))
  {
    hide Exact, Bounded, WellFormed, LiveReplies, Rows;
    var s' := DeleteUser(s, user, nickname);
    DeleteUserRows(s, user, nickname);
    SamePlacesKeep(s, s');
    SameReplies(Rows(s.messages), Rows(s'.messages));
    forall id | id in s'.dirty || id in s'.rows ensures id <= s'.lastId {
      if id in s.messages {
        IdInRange(s, id);
      }
    }
  }

  lemma DeleteUserRows(s: State, user: int, nickname: string)
    ensures var a, b := Rows(s.messages), Rows(DeleteUser(s, user, nickname).messages);
      && SamePlaces(a, b)
      && forall id :: id in a ==> a[id].parentId == b[id].parentId && Live(a[id]) == Live(b[id])
  {
  }

  lemma SnapshotKeepsInv(s: State, now: int)
    requires Indexed(s)
    ensures Indexed(Snapshot(s, now))
    ensures Inv(s) ==> Inv(Snapshot(s, now))
  {
    hide Exact, Counted, WellFormed, Cascade;
  }

  /** Taking messages out of memory and out of the indexes. */
  lemma WithoutKeeps(rows: map<nat, Row>, gone: set<nat>, last: nat)
    requires WellFormed(rows, last)
    ensures WellFormed(rows - gone, last)
  {
  }

  lemma RowsMinus(messages: map<nat, Message>, gone: set<nat>)
    ensures Rows(messages - gone) == Rows(messages) - gone
  {
  }

  /** Counts survive when the messages taken away are no live replies of those left. */
  lemma CountedMinus(messages: map<nat, Message>, rows: map<nat, Row>, gone: set<nat>)
    requires Counted(messages, rows)
    ensures Counted(messages - gone, rows - gone) <==>
      forall p :: p in messages - gone ==> LiveReplies(rows, p) !! gone
  {
    hide LiveReplies;
    forall p | p in messages - gone
      ensures (messages - gone)[p].replyCount == |LiveReplies(rows - gone, p)| <==> LiveReplies(rows, p) !! gone
    {
      RepliesMinus(rows, gone, p);
      MinusSize(LiveReplies(rows, p), gone);
    }
  }

  lemma RepliesMinus(rows: map<nat, Row>, gone: set<nat>, p: nat)
    ensures LiveReplies(rows - gone, p) == LiveReplies(rows, p) - gone
  {
  }

  lemma TombstonesAreNoReplies(s: State, cutoff: int)
    ensures forall p: nat :: LiveReplies(Rows(s.messages), p) !! Doomed(s, cutoff)
  {
  }

  lemma HardDeleteKeepsInv(s: State, now: int)
    requires Indexed(s)
    ensures Indexed(HardDelete(s, now))
    ensures Inv(s) ==> Inv(HardDelete(s, now))
  {
    hide Exact, Bounded, WellFormed, Counted, KeepAll, LiveReplies, Rows, Doomed;
    var doomed, rows := Doomed(s, now - RETENTION), Rows(s.messages);
    RowsMinus(s.messages, doomed);
    WithoutKeeps(rows, doomed, s.lastId);
    TombstonesAreNoReplies(s, now - RETENTION);
    if Inv(s) {
      CountedMinus(s.messages, rows, doomed);
    }
    KeepAllExact(s.byChannel, rows, ByChannel, doomed, s.lastId);
    KeepAllExact(s.byParent, rows, ByParent, doomed, s.lastId);
    KeepAllExact(s.byThread, rows, ByThread, doomed, s.lastId);
  }

  /** The messages a channel deletion drops. */
  function InChannel(s: State, channel: nat): set<nat> {
    set id | id in s.messages && s.messages[id].row.channelId == channel
  }

  /** No message outside the channel has a live reply in it. */
  ghost predicate CountsSurvive(s: State, channel: nat) {
    forall p :: p in s.messages - InChannel(s, channel) ==>
      LiveReplies(Rows(s.messages), p) !! InChannel(s, channel)
  }

  lemma DeleteChannelDrops(s: State, channel: nat)
    requires Exact(s.byChannel, Rows(s.messages), ByChannel) && Bounded(s.byChannel, s.lastId)
    ensures var s' := DeleteChannel(s, channel);
      && s' == s.(messages := s.messages - InChannel(s, channel), byChannel := s'.byChannel, rows := s'.rows)
      && s'.rows.Keys <= s.rows.Keys
      && Exact(s'.byChannel, Rows(s.messages) - InChannel(s, channel), ByChannel)
      && Bounded(s'.byChannel, s.lastId)
  {
    hide Rows, Live, Cascade;
    ListedIsInChannel(s, channel);
    WithoutKeyExact(s.byChannel, Rows(s.messages), InChannel(s, channel), channel, s.lastId);
  }

  lemma ListedIsInChannel(s: State, channel: nat)
    requires Exact(s.byChannel, Rows(s.messages), ByChannel)
    ensures s.messages - (set id | id in At(s.byChannel, channel)) == s.messages - InChannel(s, channel)
    ensures forall id :: id in Rows(s.messages) ==>
      (id in InChannel(s, channel) <==> Rows(s.messages)[id].channelId == channel)
  {
    assert forall id :: id in s.messages ==> Rows(s.messages)[id] == s.messages[id].row;
  }

  lemma WithoutKeyExact(index: Index, rows: map<nat, Row>, gone: set<nat>, key: nat, last: nat)
    requires Exact(index, rows, ByChannel) && Bounded(index, last)
    requires forall id :: id in rows ==> (id in gone <==> rows[id].channelId == key)
    ensures Exact(index - {key}, rows - gone, ByChannel) && Bounded(index - {key}, last)
  {
    forall id, k: nat | id in rows - gone
      ensures id in At(index - {key}, k) <==> Key(ByChannel, rows[id]) == Some(k)
    {
      assert id in At(index, k) <==> Key(ByChannel, rows[id]) == Some(k);
    }
  }

  lemma FewerRowsExact(index: Index, rows: map<nat, Row>, kind: Kind, gone: set<nat>)
    requires Exact(index, rows, kind)
    ensures Exact(index, rows - gone, kind)
  {
  }

  /** Deleting a channel keeps all three indexes exact for the messages that are left, and keeps
      the reply counts right if and only if no message left has a live reply inside the channel. */
  lemma DeleteChannelKeeps(s: State, channel: nat)
    requires Indexed(s)
    ensures var s' := DeleteChannel(s, channel);
      && s'.messages == s.messages - InChannel(s, channel) && s'.dirty == s.dirty && Indexed(s')
      && (Inv(s) ==> (Inv(s') <==> CountsSurvive(s, channel)))
  {
    hide Exact, Bounded, WellFormed, Counted, LiveReplies, Rows, InChannel, DeleteChannel;
    var s', gone, rows := DeleteChannel(s, channel), InChannel(s, channel), Rows(s.messages);
    DeleteChannelDrops(s, channel);
    RowsMinus(s.messages, gone);
    WithoutKeeps(rows, gone, s.lastId);
    if Inv(s) {
      CountedMinus(s.messages, rows, gone);
    }
    FewerRowsExact(s.byParent, rows, ByParent, gone);
    FewerRowsExact(s.byThread, rows, ByThread, gone);
  }
}
