/** The in-memory database of pkg/database/memdb.go, updated in place.

    Each method is proved against the operation of the same name in Messages.dfy; the loops
    (snapshot batches, hard delete, loading, counting, the thread walk) are the source's own. */
module MemDb {
  import opened Durability
  import opened Loading
  import opened Messages
  import opened MemSessions
  import opened ThreadWalk
  import opened Upserts
  import opened Wrappers

  const BATCH_SIZE := 500

  // ---------------------------------------------------------------- batches

  function Concat(batches: seq<seq<Row>>): seq<Row> {
    if batches == [] then [] else Concat(batches[..|batches|-1]) + batches[|batches|-1]
  }

  /** The statements so far have written the first `i` rows of the list. */
  ghost predicate WrittenUpTo(rows: map<nat, Row>, list: seq<Row>, i: nat, tx: map<nat, Row>, batches: seq<seq<Row>>)
    requires i <= |list|
  {
    tx == Upsert(rows, list[..i]) && Concat(batches) == list[..i]
  }

  lemma OneBatchMore(rows: map<nat, Row>, list: seq<Row>, i: nat, end: nat, tx: map<nat, Row>, batches: seq<seq<Row>>)
    requires i <= end <= |list| && WrittenUpTo(rows, list, i, tx, batches)
    ensures WrittenUpTo(rows, list, end, Upsert(tx, list[i..end]), batches + [list[i..end]])
  {
    hide Upsert;
    UpsertAppend(rows, list[..i], list[i..end]);
    assert list[..i] + list[i..end] == list[..end];
    assert (batches + [list[i..end]])[..|batches|] == batches;
  }

  lemma NothingToWrite(rows: map<nat, Row>)
    ensures Upsert(rows, []) == rows && Concat([]) == []
  {
  }

  /** `row` put in at `k` keeps the order. */
  lemma PutInOrder(sorted: seq<Row>, k: nat, row: Row)
    requires AscendingIds(sorted) && k <= |sorted|
    requires forall j :: 0 <= j < k ==> sorted[j].id < row.id
    requires k < |sorted| ==> row.id < sorted[k].id
    ensures AscendingIds(sorted[..k] + [row] + sorted[k..])
    ensures forall r :: r in sorted[..k] + [row] + sorted[k..] <==> r in sorted || r == row
  {
    assert sorted == sorted[..k] + sorted[k..];
  }

  /** Where a row belongs in a sorted list. */
  method Position(sorted: seq<Row>, row: Row) returns (k: nat)
    ensures k <= |sorted| && (forall j :: 0 <= j < k ==> sorted[j].id < row.id)
    ensures k < |sorted| ==> row.id <= sorted[k].id
  {
    k := 0;
    while k < |sorted| && sorted[k].id < row.id
      invariant 0 <= k <= |sorted|
      invariant forall j :: 0 <= j < k ==> sorted[j].id < row.id
    {
      k := k + 1;
    }
  }

  lemma OtherIds(list: seq<Row>, sorted: seq<Row>, i: nat)
    requires forall i, j :: 0 <= i < j < |list| ==> list[i].id != list[j].id
    requires i < |list| && forall r :: r in sorted <==> r in list[..i]
    ensures forall j :: 0 <= j < |sorted| ==> sorted[j].id != list[i].id
  {
    forall j | 0 <= j < |sorted| ensures sorted[j].id != list[i].id {
      assert sorted[j] in sorted;
      var m :| 0 <= m < i && list[m] == sorted[j];
    }
  }

  /** Stands for sort.Slice on the collected messages, whose IDs are distinct. */
  method SortById(list: seq<Row>) returns (sorted: seq<Row>)
    requires forall i, j :: 0 <= i < j < |list| ==> list[i].id != list[j].id
    ensures AscendingIds(sorted)
    ensures forall r :: r in sorted <==> r in list
  {
    hide AscendingIds;
    sorted := [];
    NothingInOrder();
    for i := 0 to |list|
      invariant AscendingIds(sorted)
      invariant forall r :: r in sorted <==> r in list[..i]
    {
      var k := Position(sorted, list[i]);
      OtherIds(list, sorted, i);
      PutInOrder(sorted, k, list[i]);
      sorted := sorted[..k] + [list[i]] + sorted[k..];
      assert list[..i+1] == list[..i] + [list[i]];
    }
    assert list[..|list|] == list;
  }

  lemma NothingInOrder()
    ensures AscendingIds([])
  {
  }

  // ---------------------------------------------------------------- splicing an index

  function RemoveFirst(ids: seq<nat>, id: nat): seq<nat> {
    if ids == [] then [] else if ids[0] == id then ids[1..] else [ids[0]] + RemoveFirst(ids[1..], id)
  }

  /** Finds the ID and closes the gap. */
  method Splice(ids: seq<nat>, id: nat) returns (r: seq<nat>)
    ensures r == RemoveFirst(ids, id)
  {
    for i := 0 to |ids|
      invariant forall j :: 0 <= j < i ==> ids[j] != id
    {
      if ids[i] == id {
        RemoveFirstAt(ids, id, i);
        return ids[..i] + ids[i+1..];
      }
    }
    RemoveAbsent(ids, id);
    r := ids;
  }

  lemma {:induction false} RemoveFirstAt(ids: seq<nat>, id: nat, i: nat)
    requires i < |ids| && ids[i] == id && forall j :: 0 <= j < i ==> ids[j] != id
    ensures RemoveFirst(ids, id) == ids[..i] + ids[i+1..]
  {
    if i > 0 {
      RemoveFirstAt(ids[1..], id, i - 1);
      assert ids[..i] == [ids[0]] + ids[1..][..i-1];
      assert ids[1..][i..] == ids[i+1..];
    }
  }

  lemma {:induction false} RemoveAbsent(ids: seq<nat>, id: nat)
    requires forall j :: 0 <= j < |ids| ==> ids[j] != id
    ensures RemoveFirst(ids, id) == ids
  {
    if ids != [] {
      RemoveAbsent(ids[1..], id);
    }
  }

  lemma {:induction false} KeepAbsent(ids: seq<nat>, id: nat)
    requires forall j :: 0 <= j < |ids| ==> ids[j] != id
    ensures Keep(ids, {id}) == ids
  {
    if ids != [] {
      KeepAbsent(ids[1..], id);
    }
  }

  lemma {:induction false} RemoveOnlyIsKeep(ids: seq<nat>, id: nat)
    requires Once(ids, id)
    ensures RemoveFirst(ids, id) == Keep(ids, {id})
  {
    if ids != [] {
      forall i, j | 0 <= i < j < |ids[1..]| && ids[1..][i] == id ensures ids[1..][j] != id {
        assert ids[i + 1] == id;
      }
      if ids[0] == id {
        KeepAbsent(ids[1..], id);
      } else {
        RemoveOnlyIsKeep(ids[1..], id);
      }
    }
  }

  lemma {:induction false} KeepTwice(ids: seq<nat>, a: set<nat>, b: set<nat>)
    ensures Keep(Keep(ids, a), b) == Keep(ids, a + b)
  {
    if ids != [] {
      KeepTwice(ids[1..], a, b);
      if ids[0] !in a {
        assert ([ids[0]] + Keep(ids[1..], a))[1..] == Keep(ids[1..], a);
      }
    }
  }

  function SpliceIndex(index: Index, key: Option<nat>, id: nat): Index {
    if key.None? || key.value !in index then index
    else index[key.value := RemoveFirst(index[key.value], id)]
  }

  lemma SpliceAt(index: Index, rows: map<nat, Row>, kind: Kind, id: nat, k: nat)
    requires Exact(index, rows, kind) && id in rows && k in index
    ensures SpliceIndex(index, Key(kind, rows[id]), id)[k] == Keep(index[k], {id})
  {
    hide Keep, RemoveFirst, Key;
    assert id in At(index, k) <==> Key(kind, rows[id]) == Some(k);
    if Key(kind, rows[id]) == Some(k) {
      assert Once(index[k], id);
      RemoveOnlyIsKeep(index[k], id);
    } else {
      KeepAbsent(index[k], id);
    }
  }

  /** Splicing a present message out of the one list it is in removes it everywhere. */
  lemma SpliceIsKeep(index: Index, rows: map<nat, Row>, kind: Kind, id: nat)
    requires Exact(index, rows, kind) && id in rows
    ensures SpliceIndex(index, Key(kind, rows[id]), id) == KeepAll(index, {id})
  {
    hide Exact, Keep, RemoveFirst, Key;
    forall k | k in index ensures SpliceIndex(index, Key(kind, rows[id]), id)[k] == Keep(index[k], {id}) {
      SpliceAt(index, rows, kind, id, k);
    }
  }

  lemma KeepAllTwice(index: Index, a: set<nat>, b: set<nat>)
    ensures KeepAll(KeepAll(index, a), b) == KeepAll(index, a + b)
  {
    forall k | k in index ensures Keep(Keep(index[k], a), b) == Keep(index[k], a + b) {
      KeepTwice(index[k], a, b);
    }
  }

  lemma {:induction false} KeepNothing(ids: seq<nat>)
    ensures Keep(ids, {}) == ids
  {
    if ids != [] {
      KeepNothing(ids[1..]);
    }
  }

  lemma KeepAllNothing(index: Index)
    ensures KeepAll(index, {}) == index
  {
    forall k | k in index ensures Keep(index[k], {}) == index[k] {
      KeepNothing(index[k]);
    }
  }

  /** `left` is `ids` without the IDs in `gone`, in the order they had: `from` tells the place of
      each. */
  ghost predicate Leaves(ids: seq<nat>, gone: set<nat>, left: seq<nat>, from: seq<nat>) {
    && |from| == |left|
    && (forall i, j :: 0 <= i < j < |from| ==> from[i] < from[j])
    && (forall i :: 0 <= i < |left| ==> from[i] < |ids| && left[i] == ids[from[i]])
    && (forall k: nat :: k < |ids| ==> (k in from <==> ids[k] !in gone))
  }

  ghost predicate LeavesOnly(ids: seq<nat>, gone: set<nat>, left: seq<nat>) {
    exists from :: Leaves(ids, gone, left, from)
  }

  /** Every list of the index has lost the IDs in `gone`, and nothing else has changed. */
  ghost predicate IndexLeaves(index: Index, gone: set<nat>, left: Index) {
    left.Keys == index.Keys && forall k :: k in index ==> LeavesOnly(index[k], gone, left[k])
  }

  lemma {:induction false} KeepOneMore(ids: seq<nat>, gone: set<nat>, id: nat)
    ensures Keep(ids + [id], gone) == Keep(ids, gone) + if id in gone then [] else [id]
  {
    if ids == [] {
      assert [] + [id] == [id] && [id][1..] == [];
    } else {
      assert (ids + [id])[1..] == ids[1..] + [id];
      KeepOneMore(ids[1..], gone, id);
    }
  }

  lemma OneLeft(ids: seq<nat>, n: nat, gone: set<nat>, left: seq<nat>, from: seq<nat>)
    requires n + 1 == |ids| && ids[n] !in gone && Leaves(ids[..n], gone, left, from)
    ensures Leaves(ids, gone, left + [ids[n]], from + [n])
  {
    var more, places := left + [ids[n]], from + [n];
    assert forall k: nat :: k in places <==> k in from || k == n;
    forall i | 0 <= i < |more| ensures places[i] < |ids| && more[i] == ids[places[i]] {
      if i < |left| {
        assert from[i] < n && left[i] == ids[..n][from[i]];
      }
    }
    forall i, j | 0 <= i < j < |places| ensures places[i] < places[j] {
      assert from[i] < n;
    }
    forall k: nat | k < |ids| ensures k in places <==> ids[k] !in gone {
      if k < n {
        assert ids[..n][k] == ids[k];
      }
    }
  }

  lemma NotLeft(ids: seq<nat>, n: nat, gone: set<nat>, left: seq<nat>, from: seq<nat>)
    requires n + 1 == |ids| && ids[n] in gone && Leaves(ids[..n], gone, left, from)
    ensures Leaves(ids, gone, left, from)
  {
    assert forall k: nat :: k < n ==> ids[..n][k] == ids[k];
    assert forall i :: 0 <= i < |from| ==> from[i] < n;
  }

  lemma OneMoreLeaves(ids: seq<nat>, n: nat, gone: set<nat>, left: seq<nat>, more: seq<nat>)
    requires n + 1 == |ids| && LeavesOnly(ids[..n], gone, left)
    requires more == if ids[n] in gone then left else left + [ids[n]]
    ensures LeavesOnly(ids, gone, more)
  {
    hide Leaves;
    var from :| Leaves(ids[..n], gone, left, from);
    if ids[n] in gone {
      NotLeft(ids, n, gone, left, from);
    } else {
      OneLeft(ids, n, gone, left, from);
    }
  }

  lemma {:induction false} KeepLeaves(ids: seq<nat>, gone: set<nat>)
    ensures LeavesOnly(ids, gone, Keep(ids, gone))
  {
    if ids == [] {
      assert Leaves([], gone, [], []);
    } else {
      hide Leaves, LeavesOnly, Keep;
      var n: nat := |ids| - 1;
      KeepLeaves(ids[..n], gone);
      assert ids == ids[..n] + [ids[n]];
      KeepOneMore(ids[..n], gone, ids[n]);
      assert Keep(ids[..n], gone) + [] == Keep(ids[..n], gone);
      OneMoreLeaves(ids, n, gone, Keep(ids[..n], gone), Keep(ids, gone));
    }
  }

  lemma KeepAllLeaves(index: Index, gone: set<nat>)
    ensures IndexLeaves(index, gone, KeepAll(index, gone))
  {
    hide Keep, LeavesOnly;
    forall k | k in index ensures LeavesOnly(index[k], gone, KeepAll(index, gone)[k]) {
      KeepLeaves(index[k], gone);
    }
  }

  /** `t` is `s` without the `count` messages that were deleted more than seven days before `now`:
      what is live or was deleted since stays as it is, and stays listed where it was. */
  ghost predicate WithoutOldTombstones(s: State, now: int, t: State, count: nat) {
    var gone := s.messages.Keys - t.messages.Keys;
    && t == s.(messages := t.messages, byChannel := t.byChannel, byParent := t.byParent, byThread := t.byThread)
    && (forall id :: id in t.messages <==>
          id in s.messages
          && (s.messages[id].row.deletedAt == None || s.messages[id].row.deletedAt.value >= now - 604800000))
    && (forall id :: id in t.messages ==> t.messages[id] == s.messages[id])
    && count == |gone|
    && IndexLeaves(s.byChannel, gone, t.byChannel)
    && IndexLeaves(s.byParent, gone, t.byParent)
    && IndexLeaves(s.byThread, gone, t.byThread)
  }

  lemma RoundIs(s: State, now: int, later: int)
    ensures Do(s, Tick(now, later, true)) == HardDelete(Messages.Snapshot(s, now), later)
    ensures Do(s, Tick(now, later, false)) == s
  {
  }

  lemma TombstonesCounted(s: State, now: int, t: State, count: nat)
    requires WithoutOldTombstones(s, now, t, count)
    ensures count == |s.messages.Keys - t.messages.Keys| && t.rows == s.rows && t.dirty == s.dirty
  {
  }

  lemma HardDeleteLeaves(s: State, now: int)
    ensures WithoutOldTombstones(s, now, HardDelete(s, now), |Doomed(s, now - RETENTION)|)
  {
    HardDeleteKeeps(s, now);
    hide KeepAll, IndexLeaves;
    var doomed := Doomed(s, now - RETENTION);
    assert doomed == s.messages.Keys - HardDelete(s, now).messages.Keys;
    KeepAllLeaves(s.byChannel, doomed);
    KeepAllLeaves(s.byParent, doomed);
    KeepAllLeaves(s.byThread, doomed);
  }

  /** One iteration of the hard delete, on one index. */
  lemma SpliceStep(index: Index, rows: map<nat, Row>, kind: Kind, gone: set<nat>, id: nat, last: nat)
    requires Exact(index, rows, kind) && Bounded(index, last) && id in rows && id !in gone
    ensures SpliceIndex(KeepAll(index, gone), Key(kind, rows[id]), id) == KeepAll(index, gone + {id})
  {
    KeepAllExact(index, rows, kind, gone, last);
    assert (rows - gone)[id] == rows[id];
    hide Exact, KeepAll, SpliceIndex;
    SpliceIsKeep(KeepAll(index, gone), rows - gone, kind, id);
    KeepAllTwice(index, gone, {id});
  }

  // ---------------------------------------------------------------- the database

  // ---------------------------------------------------------------- facts for loading and reading

  ghost predicate IdsUpTo(table: map<nat, Row>, last: nat) {
    forall id :: id in table ==> id <= last
  }

  lemma ListingIndexes(list: seq<Row>, table: map<nat, Row>, last: nat)
    requires Listing(list, table) && IdsUpTo(table, last)
    ensures var rows := Rows(MessagesOf(list));
      && rows == LiveRows(table)
      && (forall kind: Kind :: Exact(BuildIndex(list, kind), rows, kind) && Bounded(BuildIndex(list, kind), last))
      && (forall kind: Kind :: ListsOnly(BuildIndex(list, kind), rows))
  {
    ListingRows(list);
    var rows := Rows(MessagesOf(list));
    assert rows.Keys == LiveRows(table).Keys;
    assert rows == LiveRows(table);
    forall kind: Kind
      ensures Exact(BuildIndex(list, kind), rows, kind) && Bounded(BuildIndex(list, kind), last)
      ensures ListsOnly(BuildIndex(list, kind), rows)
    {
      BuildIndexExact(list, kind);
      ListsOnlyBounded(BuildIndex(list, kind), rows, table, last);
      hide Exact, Bounded, ListsOnly;
    }
  }

  lemma ListsOnlyBounded(index: Index, rows: map<nat, Row>, table: map<nat, Row>, last: nat)
    requires ListsOnly(index, rows) && rows == LiveRows(table) && IdsUpTo(table, last)
    ensures Bounded(index, last)
  {
    forall k, id | k in index && id in index[k] ensures id <= last {
      assert id in rows && id in table;
    }
  }

  lemma SortedIndexes(list: seq<Row>, table: map<nat, Row>, last: nat, c: Index, p: Index, t: Index)
    requires Listing(list, table) && IdsUpTo(table, last)
    requires Permuted(c, BuildIndex(list, ByChannel)) && Permuted(p, BuildIndex(list, ByParent))
    requires Permuted(t, BuildIndex(list, ByThread))
    ensures var rows := Rows(MessagesOf(list));
      && Exact(c, rows, ByChannel) && Bounded(c, last)
      && Exact(p, rows, ByParent) && Bounded(p, last)
      && Exact(t, rows, ByThread) && Bounded(t, last)
  {
    ListingIndexes(list, table, last);
    hide Exact, Bounded, Permuted, Rows, Listing, IdsUpTo;
    var rows := Rows(MessagesOf(list));
    PermutedExact(c, BuildIndex(list, ByChannel), rows, ByChannel, last);
    PermutedExact(p, BuildIndex(list, ByParent), rows, ByParent, last);
    PermutedExact(t, BuildIndex(list, ByThread), rows, ByThread, last);
  }

  /** The store that loading builds, whatever the rows refer to. */
  ghost predicate BuiltFrom(table: map<nat, Row>, s: State) {
    && s.rows == table && s.dirty == {}
    && Rows(s.messages) == LiveRows(table)
    && IndexesExact(s) && Counted(s.messages, Rows(s.messages))
  }

  /** Written out: the messages are the table's live rows, each with the number of live replies to
      it, and the indexes list each under its channel, its parent and its thread root. */
  lemma BuiltMessages(table: map<nat, Row>, s: State)
    requires BuiltFrom(table, s)
    ensures forall id :: id in s.messages <==> id in table && table[id].deletedAt == None
    ensures forall id :: id in s.messages ==>
              && s.messages[id].row == table[id]
              && s.messages[id].replyCount ==
                 |set m | m in s.messages
                     && s.messages[m].row.parentId == Some(id) && s.messages[m].row.deletedAt == None|
    ensures forall id, k: nat :: id in s.messages ==>
              && (id in At(s.byChannel, k) <==> table[id].channelId == k)
              && (id in At(s.byParent, k) <==> table[id].parentId == Some(k))
              && (id in At(s.byThread, k) <==> table[id].threadRoot == Some(k))
  {
    hide IndexesExact, Counted, Rows, LiveRows, At;
    BuiltRows(table, s.messages);
    BuiltCounts(s.messages);
    BuiltLists(s);
  }

  lemma BuiltRows(table: map<nat, Row>, messages: map<nat, Message>)
    requires Rows(messages) == LiveRows(table)
    ensures forall id :: id in messages <==> id in table && table[id].deletedAt == None
    ensures forall id :: id in messages ==> messages[id].row == table[id]
  {
    KeysSize(messages);
    forall id | id in messages ensures messages[id].row == table[id] {
      RowAt(messages, id);
    }
  }

  lemma BuiltCounts(messages: map<nat, Message>)
    requires Counted(messages, Rows(messages))
    ensures forall id :: id in messages ==>
      messages[id].replyCount ==
      |set m | m in messages && messages[m].row.parentId == Some(id) && messages[m].row.deletedAt == None|
  {
    hide LiveReplies;
    forall id | id in messages
      ensures messages[id].replyCount ==
        |set m | m in messages && messages[m].row.parentId == Some(id) && messages[m].row.deletedAt == None|
    {
      LiveRepliesAre(messages, id);
    }
  }

  lemma BuiltLists(s: State)
    requires IndexesExact(s)
    ensures forall id, k: nat :: id in s.messages ==>
              && (id in At(s.byChannel, k) <==> s.messages[id].row.channelId == k)
              && (id in At(s.byParent, k) <==> s.messages[id].row.parentId == Some(k))
              && (id in At(s.byThread, k) <==> s.messages[id].row.threadRoot == Some(k))
  {
    forall id, k: nat | id in s.messages
      ensures (id in At(s.byChannel, k) <==> s.messages[id].row.channelId == k)
      ensures (id in At(s.byParent, k) <==> s.messages[id].row.parentId == Some(k))
      ensures (id in At(s.byThread, k) <==> s.messages[id].row.threadRoot == Some(k))
    {
      RowAt(s.messages, id);
      hide Rows, Bounded, At;
    }
  }

  /** From a well-formed table it meets the whole invariant. */
  lemma BuiltIsLoaded(table: map<nat, Row>, s: State)
    requires BuiltFrom(table, s) && WellFormed(table, s.lastId)
    ensures LoadedFrom(table, s)
  {
    hide IndexesExact, Counted;
  }

  lemma LoadedState(list: seq<Row>, table: map<nat, Row>, s: State)
    requires Listing(list, table) && IdsUpTo(table, s.lastId)
    requires Rows(s.messages) == Rows(MessagesOf(list)) && Counted(s.messages, Rows(s.messages))
    requires IndexesExact(s)
    requires Sorted(s.byChannel, Rows(s.messages)) && Sorted(s.byParent, Rows(s.messages))
            && Sorted(s.byThread, Rows(s.messages))
    requires s.dirty == {} && s.rows == table
    ensures BuiltFrom(table, s)
    ensures var rows := Rows(s.messages);
      InTimeOrder(s.byChannel, rows) && InTimeOrder(s.byParent, rows) && InTimeOrder(s.byThread, rows)
  {
    ListingIndexes(list, table, s.lastId);
    hide Exact, Bounded, Counted;
  }

  /** The messages with the key that a count is about, found by looking at all of them. */
  ghost function Selected(messages: map<nat, Message>, kind: Kind, k: nat, q: Query): set<nat> {
    set id | id in messages && Key(kind, messages[id].row) == Some(k) && Matches(q, messages[id].row)
  }

  lemma ListedInIndex(s: State, kind: Kind, k: nat, q: Query)
    requires Indexed(s) && kind != ByParent
    ensures var index := if kind == ByThread then s.byThread else s.byChannel;
      && (forall id :: id in s.messages && id in At(index, k) ==> Once(At(index, k), id))
      && Matching(Rows(s.messages), q, At(index, k)) == Selected(s.messages, kind, k, q)
  {
    var index, rows := if kind == ByThread then s.byThread else s.byChannel, Rows(s.messages);
    hide Bounded, WellFormed, Counted, Exact, Matching, Once, LiveReplies;
    MatchingIsAll(index, rows, kind, k, q);
    SelectedRows(s.messages, kind, k, q);
    hide Rows;
    KeysSize(s.messages);
  }

  lemma SelectedRows(messages: map<nat, Message>, kind: Kind, k: nat, q: Query)
    ensures Selected(messages, kind, k, q) ==
      set id | id in Rows(messages) && Key(kind, Rows(messages)[id]) == Some(k) && Matches(q, Rows(messages)[id])
  {
    hide Key, Matches;
  }

  // The same sets, written out.

  lemma SelectedInThread(messages: map<nat, Message>, k: nat, since: int)
    ensures Selected(messages, ByThread, k, Query(Some(since), None)) ==
            set id | id in messages && messages[id].row.threadRoot == Some(k)
              && messages[id].row.deletedAt == None && messages[id].row.createdAt > since
  {
  }

  lemma SelectedInChannel(messages: map<nat, Message>, k: nat, subchannel: Option<int>, since: int)
    ensures Selected(messages, ByChannel, k, Query(Some(since), Some(subchannel))) ==
            set id | id in messages && messages[id].row.channelId == k
              && messages[id].row.subchannelId == subchannel
              && messages[id].row.deletedAt == None && messages[id].row.createdAt > since
  {
  }

  lemma LiveRepliesAre(messages: map<nat, Message>, id: nat)
    ensures LiveReplies(Rows(messages), id) ==
            set m | m in messages && messages[m].row.parentId == Some(id) && messages[m].row.deletedAt == None
  {
  }

  lemma InvGrows(s: State)
    requires Indexed(s)
    ensures Grown(Forest(s.byParent, Rows(s.messages), s.lastId))
  {
    hide Exact;
  }

  lemma WalkStart(t: Forest, f: Filter, p: nat, found: seq<nat>, limit: nat)
    requires Grown(t) && Cut(found, limit) == found
    ensures ListedUnder(t, p, At(t.byParent, p)) && Walk(t, f, p) == WalkList(t, f, p, At(t.byParent, p))
    ensures limit > 0 && |found| >= limit ==> Cut(found + Walk(t, f, p), limit) == found
  {
    hide WalkList;
  }

  lemma WalkEnd(t: Forest, f: Filter, p: nat, ids: seq<nat>, found: seq<nat>)
    requires Grown(t) && ids == []
    ensures ListedUnder(t, p, ids) && found + WalkList(t, f, p, ids) == found
  {
  }

  lemma WalkListStep(t: Forest, f: Filter, p: nat, ids: seq<nat>)
    requires Grown(t) && ListedUnder(t, p, ids) && ids != []
    ensures ListedUnder(t, p, ids[1..])
    ensures WalkList(t, f, p, ids) ==
      if Shown(t, f, ids[0]) then [ids[0]] + Walk(t, f, ids[0]) + WalkList(t, f, p, ids[1..])
      else WalkList(t, f, p, ids[1..])
    ensures Shown(t, f, ids[0]) ==> Below(t, ids[0]) < Below(t, p)
  {
    hide Walk;
    assert forall x :: x in ids[1..] ==> x in ids;
    assert ids[0] in At(t.byParent, p);
  }

  lemma NotShown(messages: map<nat, Message>, f: Filter, id: nat, t: Forest)
    requires t.rows == Rows(messages) && !(Passes(f, id) && id in messages && Live(messages[id].row))
    ensures !Shown(t, f, id)
  {
  }

  lemma FullPage(found: seq<nat>, rest: seq<nat>, limit: nat)
    requires Cut(found, limit) == found && limit > 0 && |found| >= limit
    ensures Cut(found + rest, limit) == found
  {
  }

  lemma PageStep(found: seq<nat>, id: nat, below: seq<nat>, rest: seq<nat>, limit: nat)
    requires Cut(found, limit) == found && (limit > 0 ==> |found| < limit)
    ensures Cut(found + [id], limit) == found + [id]
    ensures Cut(Cut(found + [id] + below, limit) + rest, limit) == Cut(found + ([id] + below + rest), limit)
    ensures Cut(Cut(found + [id] + below, limit), limit) == Cut(found + [id] + below, limit)
  {
    CutTwice(found + [id] + below, rest, limit);
    assert found + [id] + below + rest == found + ([id] + below + rest);
  }

  ghost function Listed(ids: seq<nat>): set<nat> {
    set id | id in ids
  }

  // the state of DeleteUser's loop: the messages outside `rest` are done
  ghost function AnonymizedOutside(messages: map<nat, Message>, rest: set<nat>, user: int, nickname: string)
    : map<nat, Message>
  {
    map id | id in messages ::
      if id !in rest && AuthoredBy(messages[id].row, user)
      then messages[id].(row := Anonymized(messages[id].row, nickname)) else messages[id]
  }

  ghost function AuthoredOutside(messages: map<nat, Message>, rest: set<nat>, user: int): set<nat> {
    set id | id in messages && id !in rest && AuthoredBy(messages[id].row, user)
  }

  lemma AnonymizeOne(messages: map<nat, Message>, rest: set<nat>, user: int, nickname: string, id: nat)
    requires id in rest && rest <= messages.Keys
    ensures var before := AnonymizedOutside(messages, rest, user, nickname);
      && id in before && before[id] == messages[id]
      && AnonymizedOutside(messages, rest - {id}, user, nickname) ==
           (if AuthoredBy(messages[id].row, user)
            then before[id := messages[id].(row := Anonymized(messages[id].row, nickname))] else before)
      && AuthoredOutside(messages, rest - {id}, user) ==
           AuthoredOutside(messages, rest, user) + (if AuthoredBy(messages[id].row, user) then {id} else {})
  {
  }

  lemma NoneAnonymized(messages: map<nat, Message>, user: int, nickname: string)
    ensures AnonymizedOutside(messages, messages.Keys, user, nickname) == messages
    ensures AuthoredOutside(messages, messages.Keys, user) == {}
  {
  }

  lemma AllAnonymized(s: State, user: int, nickname: string)
    ensures Messages.DeleteUser(s, user, nickname) ==
            s.(messages := AnonymizedOutside(s.messages, {}, user, nickname),
               dirty := s.dirty + AuthoredOutside(s.messages, {}, user),
               rows := map id | id in s.rows ::
                 if AuthoredBy(s.rows[id], user) then Anonymized(s.rows[id], nickname) else s.rows[id])
  {
    hide AuthoredBy, Anonymized;
    assert AnonymizedOutside(s.messages, {}, user, nickname) == Messages.DeleteUser(s, user, nickname).messages;
    assert s.dirty + AuthoredOutside(s.messages, {}, user) == Messages.DeleteUser(s, user, nickname).dirty;
  }

  /** What a deleted account leaves, field by field. */
  lemma WithoutAuthor(s: State, user: int, nickname: string)
    ensures var t := Messages.DeleteUser(s, user, nickname);
      && t == s.(messages := t.messages, dirty := t.dirty, rows := t.rows)
      && t.messages.Keys == s.messages.Keys && t.rows.Keys == s.rows.Keys
      && (forall id :: id in t.messages ==>
            t.messages[id] == if s.messages[id].row.authorUserId != Some(user) then s.messages[id]
                              else s.messages[id].(row := s.messages[id].row.(
                                authorUserId := None, authorNickname := nickname)))
      && (forall id :: id in t.rows ==>
            t.rows[id] == if s.rows[id].authorUserId != Some(user) then s.rows[id]
                          else s.rows[id].(authorUserId := None, authorNickname := nickname))
      && t.dirty == s.dirty + set id | id in s.messages && s.messages[id].row.authorUserId == Some(user)
  {
  }

  /** What posting adds to memory, field by field. */
  ghost predicate NewMessageIn(s: State, id: nat, now: int, d: Draft, t: State) {
    && t.messages.Keys == s.messages.Keys + {id} && t.dirty == s.dirty + {id} && t.rows == s.rows && t.lastId == id
    && t.messages[id].row == Row(
         id := id, channelId := d.channelId, subchannelId := d.subchannelId, parentId := d.parentId,
         threadRoot := if d.parentId.Some? && d.parentId.value in s.messages
                       then s.messages[d.parentId.value].row.threadRoot else Some(id),
         authorUserId := d.authorUserId, authorNickname := d.authorNickname, content := d.content,
         createdAt := now, editedAt := None, deletedAt := None)
    && (d.parentId != Some(id) ==> t.messages[id].replyCount == 0)
    && (forall m :: m in s.messages && m != id ==>
          t.messages[m] == if d.parentId == Some(m)
                           then s.messages[m].(replyCount := (s.messages[m].replyCount + 1) % 0x1_0000_0000)
                           else s.messages[m])
    && t.byChannel == s.byChannel[d.channelId := At(s.byChannel, d.channelId) + [id]]
    && t.byParent == (if d.parentId.None? then s.byParent
                      else s.byParent[d.parentId.value := At(s.byParent, d.parentId.value) + [id]])
    && t.byThread == (var root := t.messages[id].row.threadRoot;
                      if root.None? then s.byThread
                      else s.byThread[root.value := At(s.byThread, root.value) + [id]])
  }

  lemma PostAdds(s: State, id: nat, now: int, d: Draft)
    ensures Post(s, id, now, d).1 == Ok ==> NewMessageIn(s, id, now, d, Post(s, id, now, d).0)
  {
    hide At;
  }

  /** What the database answers to one snapshot: to BEGIN, to each INSERT statement, and to COMMIT. */
  datatype Answers = Answers(begins: bool, executes: nat -> bool, commits: bool)

  /** It takes `rows` rows, 500 in a statement. */
  ghost predicate Takes(a: Answers, rows: nat) {
    a.begins && a.commits && forall k: nat :: 500 * k < rows ==> a.executes(k)
  }

  lemma Refuses(a: Answers, rows: nat)
    requires !a.begins
    ensures !Takes(a, rows)
  {
  }

  lemma RefusesStatement(a: Answers, rows: nat, k: nat)
    requires 500 * k < rows && !a.executes(k)
    ensures !Takes(a, rows)
  {
  }

  lemma TakesAll(a: Answers, rows: nat, statements: nat)
    requires a.begins && rows <= 500 * statements && forall k: nat :: k < statements ==> a.executes(k)
    ensures Takes(a, rows) <==> a.commits
  {
  }

  datatype Outcome = Committed(written: nat, skipped: nat) | Failed | Crashed

  class MemDb {
    var messages: map<nat, Message>
    var byChannel: Index
    var byParent: Index
    var byThread: Index
    var dirty: set<nat>
    var rows: map<nat, Row>  // SQLite's Message table
    var lastId: nat
    const sessions: SessionTable

    ghost function Now(): State
      reads this
    {
      State(messages, byChannel, byParent, byThread, dirty, rows, lastId)
    }

    /** Creates a message under the generator's next ID. */
    method PostMessage(id: nat, now: int, d: Draft) returns (result: Result)
      modifies this
      ensures Now() == Post(old(Now()), id, now, d).0 && result == Post(old(Now()), id, now, d).1
      ensures result == if d.parentId.Some? && d.parentId.value !in old(messages) then NotFound else Ok
      ensures result != Ok ==> Now() == old(Now()).(lastId := id)
      ensures result == Ok ==> NewMessageIn(old(Now()), id, now, d, Now())
    {
      PostAdds(Now(), id, now, d);
      hide NewMessageIn;
      lastId := id;
      var root := Some(id);
      if d.parentId.Some? {
        if d.parentId.value !in messages {
          return NotFound;
        }
        root := messages[d.parentId.value].row.threadRoot;
      }
      var row := Row(id, d.channelId, d.subchannelId, d.parentId, root,
                     d.authorUserId, d.authorNickname, d.content, now, None, None);
      messages := messages[id := Message(row, 0)];
      dirty := dirty + {id};
      byChannel := byChannel[d.channelId := At(byChannel, d.channelId) + [id]];
      if d.parentId.Some? {
        var p := d.parentId.value;
        byParent := byParent[p := At(byParent, p) + [id]];
        messages := messages[p := messages[p].(replyCount := Add32(messages[p].replyCount))];
      }
      if root.Some? {
        byThread := byThread[root.value := At(byThread, root.value) + [id]];
      }
      result := Ok;
    }

    method SoftDeleteMessage(id: nat, now: int) returns (result: Result)
      modifies this
      ensures Now() == SoftDelete(old(Now()), id, now).0 && result == SoftDelete(old(Now()), id, now).1
      ensures result == if id !in old(messages) then NotFound
                        else if old(messages)[id].row.deletedAt != None then AlreadyDeleted else Ok
      ensures result != Ok ==> Now() == old(Now())
      ensures result == Ok ==>
        && Now() == old(Now()).(messages := messages, dirty := old(dirty) + {id})
        && messages.Keys == old(messages).Keys
        && (forall m :: m in messages ==>
              && messages[m].row == (if m == id then old(messages)[m].row.(deletedAt := Some(now))
                                     else old(messages)[m].row)
              && messages[m].replyCount ==
                 (var n := old(messages)[m].replyCount;
                  if old(messages)[id].row.parentId == Some(m) && n > 0 then (n + 0xFFFF_FFFF) % 0x1_0000_0000 else n))
    {
      if id !in messages {
        return NotFound;
      }
      if messages[id].row.deletedAt.Some? {
        return AlreadyDeleted;
      }
      var row := messages[id].row.(deletedAt := Some(now));
      messages := messages[id := messages[id].(row := row)];
      dirty := dirty + {id};
      if row.parentId.Some? {
        var p := row.parentId.value;
        if p in messages && messages[p].replyCount > 0 {
          messages := messages[p := messages[p].(replyCount := Sub32(messages[p].replyCount))];
        }
      }
      result := Ok;
    }

    /** `owner` is None for AdminUpdateMessage. */
    method UpdateMessage(id: nat, owner: Option<int>, content: string, now: int) returns (result: Result)
      modifies this
      ensures Now() == Edit(old(Now()), id, owner, content, now).0
      ensures result == Edit(old(Now()), id, owner, content, now).1
      ensures result == if id !in old(messages) then NotFound
                        else if old(messages)[id].row.authorUserId == None then Anonymous
                        else if owner != None && old(messages)[id].row.authorUserId != owner then NotOwned
                        else if old(messages)[id].row.deletedAt != None then DeletedMessage else Ok
      ensures result == Ok <==>
        && id in old(messages) && old(messages)[id].row.authorUserId.Some? && old(messages)[id].row.deletedAt == None
        && (owner == None || owner == old(messages)[id].row.authorUserId)
      ensures result != Ok ==> Now() == old(Now())
      ensures result == Ok ==>
        && Now() == old(Now()).(messages := messages, dirty := old(dirty) + {id})
        && messages == old(messages)[id := old(messages)[id].(
             row := old(messages)[id].row.(content := content, editedAt := Some(now)))]
    {
      if id !in messages {
        return NotFound;
      }
      var row := messages[id].row;
      if row.authorUserId.None? {
        return Anonymous;
      }
      if owner.Some? && row.authorUserId != owner {
        return NotOwned;
      }
      if row.deletedAt.Some? {
        return DeletedMessage;
      }
      messages := messages[id := messages[id].(row := row.(content := content, editedAt := Some(now)))];
      dirty := dirty + {id};
      result := Ok;
    }

    /** Deletes the channel's row, which takes its messages' rows along, and then its messages from
        memory, one by one; nothing if the database refuses (`deleted` is its answer). */
    method DeleteChannel(channel: nat, deleted: bool)
      modifies this
      ensures Now() == if deleted then Messages.DeleteChannel(old(Now()), channel) else old(Now())
      ensures deleted ==>
        && messages == old(messages) - (set id | channel in old(byChannel) && id in old(byChannel)[channel])
        && byChannel == old(byChannel) - {channel}
        && Now() == old(Now()).(messages := messages, byChannel := byChannel, rows := rows)
        && rows.Keys <= old(rows).Keys && (forall id :: id in rows ==> rows[id] == old(rows)[id])
        && (forall id :: id in rows ==> rows[id].channelId != channel)
    {
      ChannelRowsGo(rows, channel);
      hide Cascade;
      if !deleted {
        return;
      }
      rows := rows - Cascade(rows, RowsIn(rows, channel));
      var ids := At(byChannel, channel);
      ghost var was := messages;
      for i := 0 to |ids|
        invariant messages == was - Listed(ids[..i])
        invariant Now() == old(Now()).(messages := messages, rows := rows)
        invariant rows == old(rows) - Cascade(old(rows), RowsIn(old(rows), channel))
      {
        messages := messages - {ids[i]};
        assert ids[..i+1] == ids[..i] + [ids[i]];
        assert Listed(ids[..i+1]) == Listed(ids[..i]) + {ids[i]};
      }
      assert ids[..|ids|] == ids;
      byChannel := byChannel - {channel};
    }

    /** Once the account is gone from the table (`account` is its nickname there, if it exists),
        its sessions leave memory, and its messages follow, in any order. */
    method DeleteUser(user: int, account: Option<string>) returns (found: bool)
      requires sessions.Valid()
      modifies this, sessions
      ensures found == account.Some?
      ensures sessions.Valid()
      ensures sessions.users == if found then WithoutUser(old(sessions.users), user) else old(sessions.users)
      ensures Now() == if found then Messages.DeleteUser(old(Now()), user, account.value) else old(Now())
      ensures found ==>
        && sessions.users == (map id | id in old(sessions.users) && old(sessions.users)[id] != Some(user) ::
                                old(sessions.users)[id])
        && Now() == old(Now()).(messages := messages, dirty := dirty, rows := rows)
        && messages.Keys == old(messages).Keys && rows.Keys == old(rows).Keys
        && (forall id :: id in messages ==>
              messages[id] == if old(messages)[id].row.authorUserId != Some(user) then old(messages)[id]
                              else old(messages)[id].(row := old(messages)[id].row.(
                                authorUserId := None, authorNickname := account.value)))
        && (forall id :: id in rows ==>
              rows[id] == if old(rows)[id].authorUserId != Some(user) then old(rows)[id]
                          else old(rows)[id].(authorUserId := None, authorNickname := account.value))
        && dirty == old(dirty) + set id | id in old(messages) && old(messages)[id].row.authorUserId == Some(user)
    {
      hide AnonymizedOutside, AuthoredOutside, Messages.DeleteUser;
      found := account.Some?;
      if !found {
        return;
      }
      var nickname := account.value;
      ghost var was := Now();
      sessions.DeleteOfUser(user);
      rows := map id | id in rows :: if AuthoredBy(rows[id], user) then Anonymized(rows[id], nickname) else rows[id];
      Anonymize(user, nickname);
      AllAnonymized(was, user, nickname);
      WithoutAuthor(was, user, nickname);
    }

    /** The account's messages in memory lose their author and keep its nickname. */
    method Anonymize(user: int, nickname: string)
      modifies this
      ensures Now() == old(Now()).(messages := AnonymizedOutside(old(messages), {}, user, nickname),
                                   dirty := old(dirty) + AuthoredOutside(old(messages), {}, user))
    {
      hide AnonymizedOutside, AuthoredOutside;
      ghost var was := Now();
      NoneAnonymized(messages, user, nickname);
      var rest := messages.Keys;
      while rest != {}
        modifies this`messages, this`dirty
        invariant rest <= was.messages.Keys && messages == AnonymizedOutside(was.messages, rest, user, nickname)
        invariant dirty == was.dirty + AuthoredOutside(was.messages, rest, user)
      {
        var id :| id in rest;
        AnonymizeOne(was.messages, rest, user, nickname, id);
        var row := messages[id].row;
        if AuthoredBy(row, user) {
          messages := messages[id := messages[id].(row := Anonymized(row, nickname))];
          dirty := dirty + {id};
        }
        rest := rest - {id};
      }
    }

    // -------------------------------------------------------------- loading and reading

    /** Builds the store from the table's live rows, as the query lists them; IDs issued from now
        on are above `last`.  No session is loaded. */
    constructor LoadFromSQLite(table: map<nat, Row>, list: seq<Row>, last: nat)
      requires Listing(list, table) && IdsUpTo(table, last)
      ensures BuiltFrom(table, Now()) && lastId == last
      ensures InTimeOrder(byChannel, Rows(messages)) && InTimeOrder(byParent, Rows(messages))
              && InTimeOrder(byThread, Rows(messages))
      ensures fresh(sessions) && sessions.Valid() && sessions.users == map[]
      ensures forall id :: id in messages <==> id in table && table[id].deletedAt == None
      ensures forall id :: id in messages ==>
        && messages[id].row == table[id]
        && messages[id].replyCount ==
           |set m | m in messages && messages[m].row.parentId == Some(id) && messages[m].row.deletedAt == None|
      ensures forall id, k: nat :: id in messages ==>
        && (id in At(byChannel, k) <==> table[id].channelId == k)
        && (id in At(byParent, k) <==> table[id].parentId == Some(k))
        && (id in At(byThread, k) <==> table[id].threadRoot == Some(k))
      ensures dirty == {} && rows == table
    {
      hide Exact, Bounded, Permuted, Rows, Listing, IdsUpTo, Counted, Sorted, InTimeOrder, BuiltFrom;
      hide MessagesOf, BuildIndex, ListsOnly;
      var m, c, p, t := BuildIndexes(list);
      ListingIndexes(list, table, last);
      var stored := Rows(m);
      c := SortIndex(c, stored);
      p := SortIndex(p, stored);
      t := SortIndex(t, stored);
      SortedIndexes(list, table, last, c, p, t);
      m := RecomputeReplyCounts(m, p);
      LoadedState(list, table, State(m, c, p, t, {}, table, last));
      BuiltMessages(table, State(m, c, p, t, {}, table, last));
      messages, byChannel, byParent, byThread := m, c, p, t;
      dirty, rows, lastId := {}, table, last;
      sessions := new SessionTable();
    }

    method CountReplies(id: nat) returns (n: nat)
      requires Inv(Now())
      ensures n == if id in messages then |LiveReplies(Rows(messages), id)| else 0
      ensures id in messages ==>
        n == |set m | m in messages && messages[m].row.parentId == Some(id) && messages[m].row.deletedAt == None|
    {
      LiveRepliesAre(messages, id);
      n := if id in messages then messages[id].replyCount else 0;
    }

    /** Live messages of the thread created after `since`: the index misses none and counts none
        twice. */
    method GetUnreadCountForThread(threadId: nat, since: int) returns (n: nat)
      requires Indexed(Now())
      ensures n == |Selected(messages, ByThread, threadId, Query(Some(since), None))|
      ensures n == |set id | id in messages && messages[id].row.threadRoot == Some(threadId)
                         && messages[id].row.deletedAt == None && messages[id].row.createdAt > since|
    {
      SelectedInThread(messages, threadId, since);
      hide Indexed, Selected, Matching, Once;
      var q := Query(Some(since), None);
      ListedInIndex(Now(), ByThread, threadId, q);
      n := CountListed(messages, At(byThread, threadId), q);
    }

    /** The same for a channel, in one subchannel or (None) outside all of them. */
    method GetUnreadCountForChannel(channelId: nat, subchannel: Option<int>, since: int) returns (n: nat)
      requires Indexed(Now())
      ensures n == |Selected(messages, ByChannel, channelId, Query(Some(since), Some(subchannel)))|
      ensures n == |set id | id in messages && messages[id].row.channelId == channelId
                         && messages[id].row.subchannelId == subchannel
                         && messages[id].row.deletedAt == None && messages[id].row.createdAt > since|
    {
      SelectedInChannel(messages, channelId, subchannel, since);
      hide Indexed, Selected, Matching, Once;
      var q := Query(Some(since), Some(subchannel));
      ListedInIndex(Now(), ByChannel, channelId, q);
      n := CountListed(messages, At(byChannel, channelId), q);
    }

    ghost function Trees(): Forest
      reads this
    {
      Forest(byParent, Rows(messages), lastId)
    }

    /** A page of a thread: exactly the unlimited walk, cut off at the limit. */
    method ListThreadReplies(parent: nat, limit: nat, before: Option<nat>, after: Option<nat>) returns (ids: seq<nat>)
      requires Indexed(Now())
      ensures Grown(Trees())
      ensures ids == Cut(Walk(Trees(), Filter(before, after), parent), limit)
      ensures var all := Walk(Trees(), Filter(before, after), parent);
        ids == if 0 < limit < |all| then all[..limit] else all
    {
      InvGrows(Now());
      ids := CollectThreadReplies(parent, [], Filter(before, after), limit);
    }

    /** Appends the messages below `parent` to `found`, until the limit is reached. */
    method CollectThreadReplies(parent: nat, found: seq<nat>, f: Filter, limit: nat) returns (ids: seq<nat>)
      requires Grown(Trees()) && Cut(found, limit) == found
      ensures ids == Cut(found + Walk(Trees(), f, parent), limit)
      decreases Below(Trees(), parent)
    {
      hide Grown, Walk, WalkList, ListedUnder, Cut, Below, Rows;
      ids := found;
      ghost var t := Trees();
      var replies := At(byParent, parent);
      assert replies[0..] == replies;
      WalkStart(t, f, parent, found, limit);
      if limit > 0 && |ids| >= limit {
        return;
      }
      var i := 0;
      while i < |replies|
        invariant 0 <= i <= |replies|
        invariant ListedUnder(t, parent, replies[i..])
        invariant Cut(ids, limit) == ids
        invariant Cut(ids + WalkList(t, f, parent, replies[i..]), limit) == Cut(found + Walk(t, f, parent), limit)
      {
        if limit > 0 && |ids| >= limit {
          FullPage(ids, WalkList(t, f, parent, replies[i..]), limit);
          return;
        }
        var id := replies[i];
        assert replies[i..][1..] == replies[i+1..];
        WalkListStep(t, f, parent, replies[i..]);
        if Passes(f, id) && id in messages && Live(messages[id].row) {
          RowAt(messages, id);
          KeysSize(messages);
          PageStep(ids, id, Walk(t, f, id), WalkList(t, f, parent, replies[i+1..]), limit);
          ids := CollectThreadReplies(id, ids + [id], f, limit);
        } else {
          NotShown(messages, f, id, t);
        }
        i := i + 1;
      }
      WalkEnd(t, f, parent, replies[i..], ids);
    }

    // -------------------------------------------------------------- snapshots

    /** Writes the rows in batches inside one transaction; any step may fail, and then the table
        is as before.  `batches` are the statements executed. */
    method BatchInsertMessages(list: seq<Row>, a: Answers) returns (ok: bool, ghost batches: seq<seq<Row>>)
      modifies this`rows
      ensures ok <==> Takes(a, |list|)
      ensures rows == if ok then Upsert(old(rows), list) else old(rows)
      ensures ok ==> Concat(batches) == list
      ensures forall b :: b in batches ==> 0 < |b| <= 500 && |b| * 11 <= 32766
    {
      hide Upsert, Concat, Takes;
      NothingToWrite(rows);
      batches := [];
      if !a.begins {
        Refuses(a, |list|);
        return false, batches;
      }
      var tx := rows;
      var i, statement: nat := 0, 0;
      while i < |list|
        invariant i <= |list| && i <= 500 * statement && (i < |list| ==> i == 500 * statement)
        invariant forall k: nat :: k < statement ==> a.executes(k)
        invariant rows == old(rows)
        invariant WrittenUpTo(rows, list, i, tx, batches)
        invariant forall b :: b in batches ==> 0 < |b| <= BATCH_SIZE
      {
        var end := if i + BATCH_SIZE > |list| then |list| else i + BATCH_SIZE;
        var batch := list[i..end];
        if !a.executes(statement) {
          RefusesStatement(a, |list|, statement);
          return false, batches;
        }
        OneBatchMore(rows, list, i, end, tx, batches);
        tx := Upsert(tx, batch);
        batches := batches + [batch];
        i, statement := end, statement + 1;
      }
      TakesAll(a, |list|, statement);
      assert list[..|list|] == list;
      ok := a.commits;
      if ok {
        rows := tx;
      }
    }

    /** The rows of the dirty messages, without expired tombstones, in any order.  A dirty ID
        without a message crashes. */
    method CollectDirty(cutoff: int) returns (crashed: bool, list: seq<Row>, skipped: nat)
      requires forall id :: id in messages ==> messages[id].row.id == id
      ensures crashed <==> !(dirty <= messages.Keys)
      ensures !crashed ==> Collected(list, messages, dirty, cutoff) && |list| + skipped == |dirty|
    {
      hide Collected, Expired;
      list, skipped := [], 0;
      NothingCollected(messages, cutoff);
      assert dirty - dirty == {};
      var rest := dirty;
      while rest != {}
        invariant rest <= dirty && (dirty - rest) <= messages.Keys
        invariant skipped + |list| + |rest| == |dirty|
        invariant Collected(list, messages, dirty - rest, cutoff)
      {
        var id :| id in rest;
        if id !in messages {
          return true, list, skipped;
        }
        var row := messages[id].row;
        CollectedStep(list, messages, dirty - rest, cutoff, id);
        assert dirty - (rest - {id}) == dirty - rest + {id};
        if Expired(row, cutoff) {
          skipped := skipped + 1;
        } else {
          list := list + [row];
        }
        rest := rest - {id};
      }
      assert dirty - {} == dirty;
      crashed := false;
    }

    /** Sorts the rows by ID and writes them, if there are any. */
    method WriteAscending(list: seq<Row>, cutoff: int, a: Answers) returns (ok: bool, ghost batches: seq<seq<Row>>)
      requires Indexed(Now()) && WellFormed(rows, lastId)
      requires Collected(list, messages, dirty, cutoff)
      modifies this`rows
      ensures ok <==> list == [] || Takes(a, |list|)
      ensures rows == if ok then Rewritten(old(rows), ToWrite(old(Now()), cutoff)) else old(rows)
      ensures ok ==>
        AscendingIds(Concat(batches)) && Lists(Concat(batches), ToWrite(old(Now()), cutoff))
            && |Concat(batches)| == |list|
    {
      hide Collected, Lists, Upsert, Rewritten, Expired, Indexed, WellFormed, AscendingIds, Concat, Cascade, Takes;
      OwnIds(Now());
      CollectedDistinct(list, messages, dirty, cutoff);
      var sorted := SortById(list);
      CollectedLists(list, sorted, Now(), cutoff);
      WrittenInOrder(Now(), cutoff, sorted);
      NothingToWrite(rows);
      ok, batches := true, [];
      if |sorted| > 0 {
        ok, batches := BatchInsertMessages(sorted, a);
      }
    }

    /** Writes the dirty messages in ascending ID order and clears the dirty set if that commits. */
    method Snapshot(now: int, a: Answers) returns (outcome: Outcome, ghost batches: seq<seq<Row>>)
      requires Indexed(Now()) && WellFormed(rows, lastId)
      modifies this
      ensures outcome.Crashed? <==> !(old(dirty) <= messages.Keys)
      ensures !outcome.Crashed? ==>
        var due := |StoredAt(old(Now()), now)|; outcome.Committed? <==> due == 0 || Takes(a, due)
      ensures Now() == if outcome.Committed? then Messages.Snapshot(old(Now()), now) else old(Now())
      ensures outcome.Committed? ==>
        && AscendingIds(Concat(batches)) && Lists(Concat(batches), ToWrite(old(Now()), now - RETENTION))
        && outcome.written == |Concat(batches)| && outcome.written + outcome.skipped == |old(dirty)|
      ensures outcome.Committed? ==>
        && Now() == old(Now()).(rows := rows, dirty := {})
        && TableTakes(old(rows), StoredAt(old(Now()), now), rows)
        && outcome.written == |StoredAt(old(Now()), now)|
    {
      SnapshotTakes(Now(), now);
      hide Collected, Lists, Rewritten, ToWrite, Expired, Indexed, WellFormed, AscendingIds, Concat, Messages.Snapshot;
      hide TableTakes, StoredAt, Takes;
      OwnIds(Now());
      SnapshotIs(Now(), now);
      batches := [];
      var crashed, list, skipped := CollectDirty(now - RETENTION);
      if crashed {
        return Crashed, batches;
      }
      var ok, done := WriteAscending(list, now - RETENTION, a);
      DueRows(list, old(Now()), now);
      batches := done;
      if !ok {
        return Failed, batches;
      }
      dirty := {};
      outcome := Committed(|list|, skipped);
      StoredRows(Concat(batches), old(Now()), now);
    }

    /** The messages the hard delete will remove. */
    method ExpiredIds(cutoff: int) returns (doomed: set<nat>)
      ensures doomed == Doomed(Now(), cutoff)
    {
      doomed := set id | id in messages && Expired(messages[id].row, cutoff);
    }

    /** Takes the expired tombstones out of memory and splices them out of the indexes. */
    method HardDeleteOldMessages(now: int) returns (count: nat)
      requires Indexed(Now())
      modifies this
      ensures Now() == HardDelete(old(Now()), now)
      ensures count == |Doomed(old(Now()), now - RETENTION)|
      ensures WithoutOldTombstones(old(Now()), now, Now(), count)
    {
      hide *;
      ghost var was := Now();
      HardDeleteLeaves(was, now);
      var doomed := ExpiredIds(now - RETENTION);
      WithoutAll(was, now, doomed);
      count := 0;
      ghost var gone: set<nat> := {};
      var rest := doomed;
      while rest != {}
        invariant gone + rest == doomed && gone !! rest && count == |gone|
        invariant doomed <= was.messages.Keys
        invariant Now() == Without(was, gone)
      {
        var id :| id in rest;
        WithoutOneMore(was, gone, id);
        RemoveOne(id);
        gone, rest, count := gone + {id}, rest - {id}, count + 1;
      }
    }

    /** One round of the snapshot loop: only after a snapshot that commits are old tombstones
        removed. */
    method SnapshotRound(now: int, a: Answers, later: int) returns (outcome: Outcome)
      requires Indexed(Now()) && WellFormed(rows, lastId)
      modifies this
      ensures outcome.Crashed? <==> !(old(dirty) <= old(messages).Keys)
      ensures !outcome.Crashed? ==>
        var due := |StoredAt(old(Now()), now)|; outcome.Committed? <==> due == 0 || Takes(a, due)
      ensures Now() == Do(old(Now()), Tick(now, later, outcome.Committed?))
      ensures !outcome.Committed? ==> Now() == old(Now())
      ensures outcome.Committed? ==>
        && dirty == {} && TableTakes(old(rows), StoredAt(old(Now()), now), rows)
        && WithoutOldTombstones(old(Now()).(rows := rows, dirty := {}), later, Now(),
                                |old(messages).Keys - messages.Keys|)
    {
      ghost var was := Now();
      RoundIs(was, now, later);
      SnapshotIs(was, now);
      hide Indexed, WellFormed, TableTakes, StoredAt, WithoutOldTombstones, Messages.Snapshot, HardDelete, Do;
      hide Lists, AscendingIds, Concat, ToWrite, Doomed, Rewritten, Takes;
      var result, batches := Snapshot(now, a);
      outcome := result;
      if outcome.Committed? {
        SnapshotKeepsInv(was, now);
        ghost var stored := Now();
        var count := HardDeleteOldMessages(later);
        TombstonesCounted(stored, later, Now(), count);
      }
    }

    /** One message out of the map and out of its three lists. */
    method RemoveOne(id: nat)
      requires id in Now().messages
      modifies this
      ensures Now() == SplicedOut(old(Now()), id)
    {
      hide SpliceIndex, Key;
      var row := messages[id].row;
      messages := messages - {id};
      byChannel := SpliceOut(byChannel, Key(ByChannel, row), id);
      byParent := SpliceOut(byParent, Key(ByParent, row), id);
      byThread := SpliceOut(byThread, Key(ByThread, row), id);
    }
  }

  ghost function SplicedOut(s: State, id: nat): State
    requires id in s.messages
  {
    var row := s.messages[id].row;
    s.(messages := s.messages - {id},
       byChannel := SpliceIndex(s.byChannel, Key(ByChannel, row), id),
       byParent := SpliceIndex(s.byParent, Key(ByParent, row), id),
       byThread := SpliceIndex(s.byThread, Key(ByThread, row), id))
  }

  lemma WithoutAll(s: State, now: int, doomed: set<nat>)
    requires doomed == Doomed(s, now - RETENTION)
    ensures Without(s, {}) == s && Without(s, doomed) == HardDelete(s, now) && doomed <= s.messages.Keys
  {
    KeepAllNothing(s.byChannel);
    KeepAllNothing(s.byParent);
    KeepAllNothing(s.byThread);
    hide KeepAll;
    assert s.messages - {} == s.messages;
  }

  lemma WithoutOneMore(s: State, gone: set<nat>, id: nat)
    requires Indexed(s) && id in s.messages && id !in gone
    ensures id in Without(s, gone).messages
    ensures SplicedOut(Without(s, gone), id) == Without(s, gone + {id})
  {
    hide Indexed, KeepAll, SpliceIndex, Key;
    SpliceSteps(s, gone, id);
    assert s.messages - gone - {id} == s.messages - (gone + {id});
  }

  /** The state with the messages `gone` taken out of memory. */
  ghost function Without(s: State, gone: set<nat>): State {
    s.(messages := s.messages - gone,
       byChannel := KeepAll(s.byChannel, gone),
       byParent := KeepAll(s.byParent, gone),
       byThread := KeepAll(s.byThread, gone))
  }

  method SpliceOut(index: Index, key: Option<nat>, id: nat) returns (index': Index)
    ensures index' == SpliceIndex(index, key, id)
  {
    index' := index;
    if key.Some? && key.value in index {
      var ids := Splice(index[key.value], id);
      index' := index[key.value := ids];
    }
  }

  lemma SpliceSteps(s: State, gone: set<nat>, id: nat)
    requires Indexed(s) && id in s.messages && id !in gone
    ensures var row := s.messages[id].row;
      && SpliceIndex(KeepAll(s.byChannel, gone), Key(ByChannel, row), id) == KeepAll(s.byChannel, gone + {id})
      && SpliceIndex(KeepAll(s.byParent, gone), Key(ByParent, row), id) == KeepAll(s.byParent, gone + {id})
      && SpliceIndex(KeepAll(s.byThread, gone), Key(ByThread, row), id) == KeepAll(s.byThread, gone + {id})
  {
    hide Exact, Bounded, WellFormed, Counted, KeepAll, SpliceIndex, Key, Rows;
    RowAt(s.messages, id);
    SpliceStep(s.byChannel, Rows(s.messages), ByChannel, gone, id, s.lastId);
    SpliceStep(s.byParent, Rows(s.messages), ByParent, gone, id, s.lastId);
    SpliceStep(s.byThread, Rows(s.messages), ByThread, gone, id, s.lastId);
  }

  lemma OwnIds(s: State)
    requires Indexed(s)
    ensures forall id :: id in s.messages ==> s.messages[id].row.id == id
  {
    hide Exact, Bounded, Counted;
    forall id | id in s.messages ensures s.messages[id].row.id == id {
      assert Rows(s.messages)[id] == s.messages[id].row;
    }
  }

  lemma WritesGrounded(s: State, cutoff: int)
    requires Indexed(s) && WellFormed(s.rows, s.lastId)
    ensures GroundedTable(s.rows) && GroundedTable(ToWrite(s, cutoff))
  {
    hide Exact, Bounded, Counted;
    forall id | id in ToWrite(s, cutoff) ensures ToWrite(s, cutoff)[id].id == id && Grounded(ToWrite(s, cutoff)[id]) {
      assert Rows(s.messages)[id] == s.messages[id].row;
    }
  }

  lemma SnapshotIs(s: State, now: int)
    ensures Messages.Snapshot(s, now) == s.(rows := Rewritten(s.rows, ToWrite(s, now - RETENTION)), dirty := {})
  {
  }

  lemma WrittenInOrder(s: State, cutoff: int, list: seq<Row>)
    requires Indexed(s) && WellFormed(s.rows, s.lastId) && AscendingIds(list) && Lists(list, ToWrite(s, cutoff))
    ensures Upsert(s.rows, list) == Rewritten(s.rows, ToWrite(s, cutoff))
  {
    hide *;
    WritesGrounded(s, cutoff);
    UpsertLists(s.rows, list, ToWrite(s, cutoff));
  }

  /** The rows collected from the dirty IDs `done`: of those that are live or were not deleted before
      the cutoff, each once. */
  ghost predicate Collected(list: seq<Row>, messages: map<nat, Message>, done: set<nat>, cutoff: int) {
    && (forall i :: 0 <= i < |list| ==>
          list[i].id in done && list[i].id in messages && messages[list[i].id].row == list[i]
              && (list[i].deletedAt == None || list[i].deletedAt.value >= cutoff))
    && (forall i, j :: 0 <= i < j < |list| ==> list[i].id != list[j].id)
    && (forall id :: id in done && id in messages ==>
          messages[id].row in list
          || (messages[id].row.deletedAt != None && messages[id].row.deletedAt.value < cutoff))
  }

  lemma NothingCollected(messages: map<nat, Message>, cutoff: int)
    ensures Collected([], messages, {}, cutoff)
  {
  }

  lemma CollectedDistinct(list: seq<Row>, messages: map<nat, Message>, done: set<nat>, cutoff: int)
    requires Collected(list, messages, done, cutoff)
    ensures forall i, j :: 0 <= i < j < |list| ==> list[i].id != list[j].id
  {
  }

  lemma CollectedStep(list: seq<Row>, messages: map<nat, Message>, done: set<nat>, cutoff: int, id: nat)
    requires Collected(list, messages, done, cutoff) && id in messages && id !in done && messages[id].row.id == id
    ensures var row := messages[id].row;
      Collected(if Expired(row, cutoff) then list else list + [row], messages, done + {id}, cutoff)
  {
  }

  lemma CollectedLists(list: seq<Row>, sorted: seq<Row>, s: State, cutoff: int)
    requires Collected(list, s.messages, s.dirty, cutoff) && forall r :: r in sorted <==> r in list
    requires forall id :: id in s.messages ==> s.messages[id].row.id == id
    requires AscendingIds(sorted)
    ensures Lists(sorted, ToWrite(s, cutoff))
    ensures |sorted| == |list|
  {
    assert forall i :: 0 <= i < |sorted| ==> sorted[i] in sorted;
    assert multiset(sorted) == multiset(list) by {
      OnceEach(sorted);
      OnceEach(list);
    }
  }

  lemma {:induction false} ListedOnce(list: seq<Row>, stored: map<nat, Row>)
    requires AscendingIds(list) && Lists(list, stored)
    ensures |list| == |stored|
  {
    if list == [] {
      assert stored == map[];
    } else {
      var n := |list| - 1;
      var id := list[n].id;
      forall k | k in stored - {id} ensures stored[k] in list[..n] {
        assert stored[k] in list && stored[k].id == k;
      }
      ListedOnce(list[..n], stored - {id});
    }
  }

  /** As many rows are collected as are due. */
  lemma DueRows(list: seq<Row>, s: State, now: int)
    requires Collected(list, s.messages, s.dirty, now - RETENTION) && OwnsIds(s.messages)
    ensures |list| == |StoredAt(s, now)|
  {
    var ids := set id | id in StoredAt(s, now);
    assert ids == StoredAt(s, now).Keys;
    IdsOf(list, ids);
  }

  ghost predicate OwnsIds(messages: map<nat, Message>) {
    forall id :: id in messages ==> messages[id].row.id == id
  }

  lemma {:induction false} IdsOf(list: seq<Row>, ids: set<nat>)
    requires forall i, j :: 0 <= i < j < |list| ==> list[i].id != list[j].id
    requires forall id :: id in ids <==> exists i :: 0 <= i < |list| && list[i].id == id
    ensures |list| == |ids|
  {
    if list == [] {
      assert ids == {};
    } else {
      var n := |list| - 1;
      forall id ensures id in ids - {list[n].id} <==> exists i :: 0 <= i < n && list[..n][i].id == id {
        if id in ids && id != list[n].id {
          var i :| 0 <= i < |list| && list[i].id == id;
          assert list[..n][i].id == id;
        }
      }
      assert list[n].id in ids;
      IdsOf(list[..n], ids - {list[n].id});
    }
  }

  lemma StoredRows(list: seq<Row>, s: State, now: int)
    requires AscendingIds(list) && Lists(list, ToWrite(s, now - RETENTION))
    ensures |list| == |StoredAt(s, now)|
  {
    hide Lists, AscendingIds;
    assert ToWrite(s, now - RETENTION) == StoredAt(s, now);
    ListedOnce(list, ToWrite(s, now - RETENTION));
  }

  lemma {:induction false} OnceEach(list: seq<Row>)
    requires forall i, j :: 0 <= i < j < |list| ==> list[i].id != list[j].id
    ensures forall r :: multiset(list)[r] == if r in list then 1 else 0
  {
    if list != [] {
      var n := |list| - 1;
      OnceEach(list[..n]);
      assert list == list[..n] + [list[n]];
    }
  }
}
