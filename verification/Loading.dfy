/** Rebuilding the message store from its table (loadFromSQLite, pkg/database/memdb.go:71-197,
    and recomputeReplyCount, 845-861), and the counting loops that read the indexes. */
module Loading {
  import opened Messages
  import opened Wrappers

  // ---------------------------------------------------------------- indexes from a listing

  ghost predicate DistinctIds(list: seq<Row>) {
    forall i, j :: 0 <= i < j < |list| ==> list[i].id != list[j].id
  }

  ghost predicate Oldest(list: seq<Row>) {
    forall i, j :: 0 <= i < j < |list| ==> list[i].createdAt <= list[j].createdAt
  }

  /** What the query may return: the live rows, ordered by creation time. */
  ghost predicate Listing(list: seq<Row>, table: map<nat, Row>) {
    && Oldest(list) && DistinctIds(list)
    && (forall i :: 0 <= i < |list| ==>
          list[i].id in table && table[list[i].id] == list[i] && Live(list[i]))
    && (forall id :: id in table && Live(table[id]) ==> table[id] in list && table[id].id == id)
  }

  function MessagesOf(list: seq<Row>): map<nat, Message> {
    if list == [] then map[]
    else var row := list[|list|-1]; MessagesOf(list[..|list|-1])[row.id := Message(row, 0)]
  }

  function BuildIndex(list: seq<Row>, kind: Kind): Index {
    if list == [] then map[]
    else var row := list[|list|-1]; Append(BuildIndex(list[..|list|-1], kind), Key(kind, row), row.id)
  }

  /** Every index list is in order of creation. */
  ghost predicate InTimeOrder(index: Index, rows: map<nat, Row>) {
    forall k, i, j :: k in index && 0 <= i < j < |index[k]| && index[k][i] in rows && index[k][j] in rows ==>
      rows[index[k][i]].createdAt <= rows[index[k][j]].createdAt
  }

  ghost predicate ListsOnly(index: Index, rows: map<nat, Row>) {
    forall k, id :: k in index && id in index[k] ==> id in rows
  }

  ghost predicate NoneLater(rows: map<nat, Row>, row: Row) {
    forall id :: id in rows ==> rows[id].createdAt <= row.createdAt
  }

  lemma AppendInOrder(index: Index, rows: map<nat, Row>, kind: Kind, row: Row)
    requires Exact(index, rows, kind) && ListsOnly(index, rows) && InTimeOrder(index, rows)
    requires row.id !in rows && NoneLater(rows, row)
    ensures var index', rows' := Append(index, Key(kind, row), row.id), rows[row.id := row];
      Exact(index', rows', kind) && ListsOnly(index', rows') && InTimeOrder(index', rows')
  {
    assert NotListed(index, row.id);
    AppendExact(index, rows, kind, row);
    var index', rows' := Append(index, Key(kind, row), row.id), rows[row.id := row];
    forall k | k in index'
      ensures index'[k] == At(index, k) || index'[k] == At(index, k) + [row.id]
    {
    }
    hide Exact, Append, Key;
    forall k, i, j | k in index' && 0 <= i < j < |index'[k]| && index'[k][i] in rows' && index'[k][j] in rows'
      ensures rows'[index'[k][i]].createdAt <= rows'[index'[k][j]].createdAt
    {
      var ids := At(index, k);
      assert index'[k][i] == ids[i] && ids[i] in ids;
      if j < |ids| {
        assert index'[k][j] == ids[j] && ids[j] in ids;
      }
    }
  }

  lemma {:induction false} ListingRows(list: seq<Row>)
    requires DistinctIds(list)
    ensures forall id :: id in MessagesOf(list) ==>
      && MessagesOf(list)[id].row in list && MessagesOf(list)[id].row.id == id && MessagesOf(list)[id].replyCount == 0
    ensures forall i :: 0 <= i < |list| ==>
            list[i].id in MessagesOf(list) && MessagesOf(list)[list[i].id].row == list[i]
  {
    if list != [] {
      var n := |list| - 1;
      ListingRows(list[..n]);
      assert list == list[..n] + [list[n]];
    }
  }

  lemma {:induction false} BuildIndexExact(list: seq<Row>, kind: Kind)
    requires DistinctIds(list) && Oldest(list)
    ensures var index, rows := BuildIndex(list, kind), Rows(MessagesOf(list));
      Exact(index, rows, kind) && ListsOnly(index, rows) && InTimeOrder(index, rows)
  {
    if list != [] {
      var n := |list| - 1;
      BuildIndexExact(list[..n], kind);
      ListingRows(list[..n]);
      var before, row := MessagesOf(list[..n]), list[n];
      RowsUpdate(before, row.id, Message(row, 0));
      assert forall id :: id in before ==> before[id].row in list[..n] && Rows(before)[id] == before[id].row;
      assert NoneLater(Rows(before), row) && row.id !in before;
      hide Exact, ListsOnly, InTimeOrder, Append, Rows;
      AppendInOrder(BuildIndex(list[..n], kind), Rows(before), kind, row);
    }
  }

  /** Stores the rows and builds the three indexes. */
  method BuildIndexes(list: seq<Row>)
    returns (messages: map<nat, Message>, byChannel: Index, byParent: Index, byThread: Index)
    ensures messages == MessagesOf(list)
    ensures byChannel == BuildIndex(list, ByChannel)
    ensures byParent == BuildIndex(list, ByParent)
    ensures byThread == BuildIndex(list, ByThread)
  {
    messages, byChannel, byParent, byThread := map[], map[], map[], map[];
    for i := 0 to |list|
      invariant messages == MessagesOf(list[..i])
      invariant byChannel == BuildIndex(list[..i], ByChannel)
      invariant byParent == BuildIndex(list[..i], ByParent)
      invariant byThread == BuildIndex(list[..i], ByThread)
    {
      var row := list[i];
      assert list[..i+1][..i] == list[..i];
      messages := messages[row.id := Message(row, 0)];
      byChannel := byChannel[row.channelId := At(byChannel, row.channelId) + [row.id]];
      if row.parentId.Some? {
        byParent := byParent[row.parentId.value := At(byParent, row.parentId.value) + [row.id]];
      }
      if row.threadRoot.Some? {
        byThread := byThread[row.threadRoot.value := At(byThread, row.threadRoot.value) + [row.id]];
      }
    }
    assert list[..|list|] == list;
  }

  // ---------------------------------------------------------------- sorting the indexes

  /** The same lists up to order. */
  ghost predicate Permuted(a: Index, b: Index) {
    a.Keys == b.Keys && forall k :: k in a ==> multiset(a[k]) == multiset(b[k])
  }

  predicate TimeSorted(ids: seq<nat>, rows: map<nat, Row>) {
    forall i, j :: 0 <= i < j < |ids| && ids[i] in rows && ids[j] in rows ==>
      rows[ids[i]].createdAt <= rows[ids[j]].createdAt
  }

  ghost function InsertByTime(id: nat, ids: seq<nat>, rows: map<nat, Row>): seq<nat>
    requires id in rows && forall x :: x in ids ==> x in rows
  {
    if ids == [] || rows[id].createdAt <= rows[ids[0]].createdAt then [id] + ids
    else [ids[0]] + InsertByTime(id, ids[1..], rows)
  }

  lemma {:induction false} InsertByTimeKeeps(id: nat, ids: seq<nat>, rows: map<nat, Row>)
    requires id in rows && forall x :: x in ids ==> x in rows
    ensures multiset(InsertByTime(id, ids, rows)) == multiset(ids) + multiset{id}
    ensures forall x :: x in InsertByTime(id, ids, rows) <==> x == id || x in ids
  {
    if ids != [] {
      assert ids == [ids[0]] + ids[1..];
      if rows[id].createdAt > rows[ids[0]].createdAt {
        InsertByTimeKeeps(id, ids[1..], rows);
      }
    }
  }

  /** An earlier message in front of a sorted list. */
  lemma EarlierInFront(x: nat, ids: seq<nat>, rows: map<nat, Row>)
    requires x in rows && TimeSorted(ids, rows)
    requires forall y :: y in ids ==> y in rows && rows[x].createdAt <= rows[y].createdAt
    ensures TimeSorted([x] + ids, rows)
  {
    forall i | 0 <= i < |ids| ensures ([x] + ids)[i + 1] == ids[i] && ids[i] in ids {
    }
  }

  lemma TailSorted(ids: seq<nat>, rows: map<nat, Row>)
    requires ids != [] && TimeSorted(ids, rows) && forall x :: x in ids ==> x in rows
    ensures TimeSorted(ids[1..], rows)
    ensures forall y :: y in ids ==> rows[ids[0]].createdAt <= rows[y].createdAt
  {
    forall y | y in ids ensures rows[ids[0]].createdAt <= rows[y].createdAt {
      var i :| 0 <= i < |ids| && ids[i] == y;
      assert ids[0] in ids;
    }
  }

  lemma {:induction false} InsertByTimeSorts(id: nat, ids: seq<nat>, rows: map<nat, Row>)
    requires id in rows && (forall x :: x in ids ==> x in rows) && TimeSorted(ids, rows)
    ensures TimeSorted(InsertByTime(id, ids, rows), rows)
  {
    if ids != [] {
      TailSorted(ids, rows);
      hide TimeSorted;
      if rows[id].createdAt <= rows[ids[0]].createdAt {
        EarlierInFront(id, ids, rows);
      } else {
        InsertByTimeSorts(id, ids[1..], rows);
        InsertByTimeKeeps(id, ids[1..], rows);
        EarlierInFront(ids[0], InsertByTime(id, ids[1..], rows), rows);
      }
    }
  }

  /** A sorted order exists. */
  lemma {:induction false} SortedOrder(ids: seq<nat>, rows: map<nat, Row>) returns (sorted: seq<nat>)
    requires forall x :: x in ids ==> x in rows
    ensures TimeSorted(sorted, rows) && multiset(sorted) == multiset(ids)
  {
    if ids == [] {
      sorted := [];
    } else {
      assert ids == [ids[0]] + ids[1..];
      var rest := SortedOrder(ids[1..], rows);
      forall x | x in rest ensures x in rows {
        assert x in multiset(rest);
      }
      InsertByTimeSorts(ids[0], rest, rows);
      InsertByTimeKeeps(ids[0], rest, rows);
      sorted := InsertByTime(ids[0], rest, rows);
    }
  }

  /** sort.Slice by creation time, of IDs that are all present: it is not stable, so any sorted
      order may come out. */
  method SortMessagesByTimestamp(ids: seq<nat>, rows: map<nat, Row>) returns (sorted: seq<nat>)
    requires forall id :: id in ids ==> id in rows
    ensures TimeSorted(sorted, rows) && multiset(sorted) == multiset(ids)
  {
    ghost var order := SortedOrder(ids, rows);
    sorted :| TimeSorted(sorted, rows) && multiset(sorted) == multiset(ids);
  }

  ghost predicate Sorted(index: Index, rows: map<nat, Row>) {
    forall k :: k in index ==> TimeSorted(index[k], rows)
  }

  /** Sorts every list of an index, in any order of keys. */
  method SortIndex(index: Index, rows: map<nat, Row>) returns (sorted: Index)
    requires ListsOnly(index, rows)
    ensures Sorted(sorted, rows) && Permuted(sorted, index)
  {
    sorted := index;
    var rest := index.Keys;
    while rest != {}
      invariant rest <= index.Keys
      invariant Permuted(sorted, index)
      invariant forall k :: k in index && k !in rest ==> TimeSorted(sorted[k], rows)
      invariant forall k :: k in rest ==> sorted[k] == index[k]
    {
      var k :| k in rest;
      var ids := SortMessagesByTimestamp(sorted[k], rows);
      sorted, rest := sorted[k := ids], rest - {k};
    }
  }

  lemma SameMembers(a: seq<nat>, b: seq<nat>, id: nat)
    requires multiset(a) == multiset(b)
    ensures id in a <==> id in b
  {
    assert id in a <==> id in multiset(a);
    assert id in b <==> id in multiset(b);
  }

  lemma {:induction false} OnceIsCount(ids: seq<nat>, id: nat)
    ensures Once(ids, id) <==> multiset(ids)[id] <= 1
  {
    if ids != [] {
      var n := |ids| - 1;
      OnceIsCount(ids[..n], id);
      assert ids == ids[..n] + [ids[n]];
      if Once(ids, id) {
        assert Once(ids[..n], id);
        if ids[n] == id {
          assert forall i :: 0 <= i < n ==> ids[..n][i] == ids[i] != id;
        }
      } else {
        var i, j :| 0 <= i < j < |ids| && ids[i] == id && ids[j] == id;
        if j == n {
          assert ids[..n][i] == id;
          assert id in multiset(ids[..n]);
        } else {
          assert ids[..n][i] == id && ids[..n][j] == id;
          assert !Once(ids[..n], id);
        }
      }
    }
  }

  lemma PermutedExact(a: Index, b: Index, rows: map<nat, Row>, kind: Kind, last: nat)
    requires Permuted(a, b) && Exact(b, rows, kind)
    ensures Exact(a, rows, kind)
    ensures Bounded(b, last) ==> Bounded(a, last)
  {
    forall id, k: nat ensures id in At(a, k) <==> id in At(b, k) {
      SameMembers(At(a, k), At(b, k), id);
    }
    forall k, id | k in a && id in a[k] ensures id in b[k] {
      SameMembers(a[k], b[k], id);
    }
    forall k, i, j | k in a && 0 <= i < j < |a[k]| && a[k][i] in rows ensures a[k][i] != a[k][j] {
      var id := a[k][i];
      assert Once(b[k], id);
      OnceIsCount(b[k], id);
      OnceIsCount(a[k], id);
    }
  }

  // ---------------------------------------------------------------- counting along an index

  /** Which listed messages a count includes: live ones created after `since` (when given), in
      the given subchannel (when that matters). */
  datatype Query = Query(since: Option<int>, subchannel: Option<Option<int>>)

  const REPLIES := Query(None, None)

  predicate Matches(q: Query, r: Row) {
    && Live(r)
    && (q.since.Some? ==> r.createdAt > q.since.value)
    && (q.subchannel.Some? ==> r.subchannelId == q.subchannel.value)
  }

  function Matching(rows: map<nat, Row>, q: Query, ids: seq<nat>): set<nat> {
    set id | id in ids && id in rows && Matches(q, rows[id])
  }

  /** Counts listed messages, skipping IDs that are gone: no message is counted twice. */
  method CountListed(messages: map<nat, Message>, ids: seq<nat>, q: Query) returns (count: nat)
    requires forall id :: id in messages && id in ids ==> Once(ids, id)
    ensures count == |Matching(Rows(messages), q, ids)|
  {
    count := 0;
    assert Matching(Rows(messages), q, ids[..0]) == {};
    for i := 0 to |ids|
      invariant count == |Matching(Rows(messages), q, ids[..i])|
    {
      MatchingStep(Rows(messages), q, ids, i);
      if ids[i] in messages {
        RowAt(messages, ids[i]);
        if Matches(q, messages[ids[i]].row) {
          count := count + 1;
        }
      }
    }
    assert ids[..|ids|] == ids;
  }

  lemma MatchingStep(rows: map<nat, Row>, q: Query, ids: seq<nat>, i: nat)
    requires i < |ids| && (ids[i] in rows ==> Once(ids, ids[i]))
    ensures var id, before := ids[i], Matching(rows, q, ids[..i]);
      if id in rows && Matches(q, rows[id])
      then Matching(rows, q, ids[..i+1]) == before + {id} && id !in before
      else Matching(rows, q, ids[..i+1]) == before
  {
    assert ids[..i+1] == ids[..i] + [ids[i]];
    if ids[i] in rows {
      assert forall j :: 0 <= j < i ==> ids[..i][j] == ids[j] != ids[i];
    }
  }

  /** Along an exact index the count is over all messages with the key. */
  lemma MatchingIsAll(index: Index, rows: map<nat, Row>, kind: Kind, k: nat, q: Query)
    requires Exact(index, rows, kind)
    ensures Matching(rows, q, At(index, k)) ==
            set id | id in rows && Key(kind, rows[id]) == Some(k) && Matches(q, rows[id])
    ensures forall id :: id in rows && id in At(index, k) ==> Once(At(index, k), id)
    ensures kind == ByParent ==> Matching(rows, REPLIES, At(index, k)) == LiveReplies(rows, k)
  {
  }

  /** Fills in every message's reply count, in any order. */
  method RecomputeReplyCounts(messages: map<nat, Message>, byParent: Index) returns (counted: map<nat, Message>)
    requires Exact(byParent, Rows(messages), ByParent)
    ensures Rows(counted) == Rows(messages) && Counted(counted, Rows(counted))
  {
    counted := messages;
    ghost var rows := Rows(messages);
    var rest := messages.Keys;
    while rest != {}
      invariant rest <= messages.Keys == counted.Keys && Rows(counted) == rows
      invariant forall id :: id in counted && id !in rest ==> counted[id].replyCount == |LiveReplies(rows, id)|
    {
      hide Exact, LiveReplies, Rows, Matching;
      var id :| id in rest;
      MatchingIsAll(byParent, rows, ByParent, id, REPLIES);
      KeysSize(counted);
      var n := CountListed(counted, At(byParent, id), REPLIES);
      var m := counted[id].(replyCount := n);
      RowsUpdate(counted, id, m);
      RowAt(counted, id);
      assert rows[id := rows[id]] == rows;
      counted, rest := counted[id := m], rest - {id};
    }
  }
}
