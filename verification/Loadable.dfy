/** Whatever happened, the table a server leaves behind can be loaded again: rows name their ID,
    come after their parent and share its thread root, although memory and table are changed at
    different times and by different operations (pkg/database/memdb.go:71-184, 236-420). */
module Loadable {
  import opened Durability
  import opened Messages
  import opened Wrappers

  /** All rows known anywhere; memory is newer than the table. */
  function Everywhere(s: State): map<nat, Row> {
    s.rows + Rows(s.messages)
  }

  ghost predicate Agreeing(s: State) {
    forall id :: id in s.rows && id in s.messages ==> SamePlace(s.rows[id], s.messages[id].row)
  }

  /** Memory and table together are well-formed, and agree on where each message is. */
  ghost predicate Consistent(s: State) {
    WellFormed(Everywhere(s), s.lastId) && Agreeing(s)
  }

  lemma Repositioned(a: map<nat, Row>, b: map<nat, Row>, last: nat)
    requires WellFormed(a, last) && b.Keys <= a.Keys && forall id :: id in b ==> SamePlace(a[id], b[id])
    ensures WellFormed(b, last)
  {
  }

  /** The table alone is well-formed, which is what loading it requires. */
  lemma TableWellFormed(s: State)
    requires Consistent(s)
    ensures WellFormed(s.rows, s.lastId)
  {
    hide WellFormed;
    Repositioned(Everywhere(s), s.rows, s.lastId);
  }

  /** Steps that move nothing: rows may change, be written to the table or leave memory. */
  lemma StaysConsistent(s: State, s': State)
    requires Consistent(s) && s'.lastId == s.lastId
    requires s'.messages.Keys <= s.messages.Keys && s'.rows.Keys <= s.rows.Keys + s.messages.Keys
    requires forall id :: id in s'.messages ==> SamePlace(s.messages[id].row, s'.messages[id].row)
    requires forall id :: id in s'.rows ==> SamePlace(Everywhere(s)[id], s'.rows[id])
    ensures Consistent(s')
  {
    hide WellFormed;
    var a, b := Everywhere(s), Everywhere(s');
    forall id | id in b ensures id in a && SamePlace(a[id], b[id]) {
      assert id in s.messages ==> a[id] == s.messages[id].row;
      assert id in s'.messages ==> b[id] == s'.messages[id].row;
    }
    Repositioned(a, b, s.lastId);
    forall id | id in s'.rows && id in s'.messages ensures SamePlace(s'.rows[id], s'.messages[id].row) {
      assert a[id] == s.messages[id].row;
    }
  }

  lemma InEverywhere(s: State)
    ensures forall id :: id in s.messages ==> id in Everywhere(s) && Everywhere(s)[id] == s.messages[id].row
  {
  }

  lemma PostedEverywhere(s: State, id: nat, now: int, d: Draft)
    requires Post(s, id, now, d).1.Ok? && id !in s.rows && id !in s.messages
    ensures Everywhere(Post(s, id, now, d).0) == Everywhere(s)[id := NewRow(s, id, now, d)]
  {
    hide Append, CountUp, Rows, NewRow;
    var with := s.messages[id := Message(NewRow(s, id, now, d), 0)];
    CountingKeepsRows(with, d.parentId);
    RowsUpdate(s.messages, id, Message(NewRow(s, id, now, d), 0));
  }

  lemma PostedAgreeing(s: State, id: nat, now: int, d: Draft)
    requires Post(s, id, now, d).1.Ok? && id !in s.rows && id !in s.messages && Agreeing(s)
    ensures Agreeing(Post(s, id, now, d).0)
  {
    hide Append, CountUp, SamePlace, NewRow;
    CountingKeepsMessages(s.messages[id := Message(NewRow(s, id, now, d), 0)], d.parentId);
  }

  lemma NotYetKnown(s: State, id: nat)
    requires WellFormed(Everywhere(s), s.lastId) && s.lastId < id
    ensures id !in s.rows && id !in s.messages && WellFormed(Everywhere(s), id)
  {
    assert id !in Everywhere(s);
  }

  lemma PostConsistent(s: State, id: nat, now: int, d: Draft)
    requires Consistent(s) && s.lastId < id
    ensures Consistent(Post(s, id, now, d).0)
  {
    hide Append, CountUp, WellFormed, Everywhere, Agreeing;
    NotYetKnown(s, id);
    if Post(s, id, now, d).1.Ok? {
      PostedEverywhere(s, id, now, d);
      PostedAgreeing(s, id, now, d);
      InEverywhere(s);
      PostWellFormed(Everywhere(s), s.lastId, NewRow(s, id, now, d));
    } else {
      var s' := s.(lastId := id);
      assert Everywhere(s') == Everywhere(s) && (Agreeing(s) ==> Agreeing(s')) by { SameTables(s, s'); }
    }
  }

  lemma SameTables(s: State, s': State)
    requires s'.rows == s.rows && s'.messages == s.messages
    ensures Everywhere(s') == Everywhere(s) && (Agreeing(s) ==> Agreeing(s'))
  {
  }

  /** One message rewritten where it is. */
  lemma RewriteConsistent(s: State, id: nat, row: Row, s': State)
    requires Consistent(s) && id in s.messages && SamePlace(s.messages[id].row, row)
    requires s'.rows == s.rows && s'.lastId == s.lastId && s'.messages.Keys == s.messages.Keys
    requires forall i :: i in s.messages ==> s'.messages[i].row == if i == id then row else s.messages[i].row
    ensures Consistent(s')
  {
    InPlace(s);
    hide Consistent, Everywhere;
    StaysConsistent(s, s');
  }

  lemma EditConsistent(s: State, id: nat, owner: Option<int>, content: string, now: int)
    requires Consistent(s)
    ensures Consistent(Edit(s, id, owner, content, now).0)
  {
    hide Consistent;
    if Edit(s, id, owner, content, now).1.Ok? {
      var row := s.messages[id].row.(content := content, editedAt := Some(now));
      RewriteConsistent(s, id, row, Edit(s, id, owner, content, now).0);
    }
  }

  lemma DeleteConsistent(s: State, id: nat, now: int)
    requires Consistent(s)
    ensures Consistent(SoftDelete(s, id, now).0)
  {
    hide Consistent, CountDown;
    if SoftDelete(s, id, now).1.Ok? {
      var row := s.messages[id].row.(deletedAt := Some(now));
      CountingKeepsMessages(SetRow(s, id, row).messages, row.parentId);
      RewriteConsistent(s, id, row, SoftDelete(s, id, now).0);
    }
  }

  lemma UserConsistent(s: State, user: int, nickname: string)
    requires Consistent(s)
    ensures Consistent(DeleteUser(s, user, nickname))
  {
    InPlace(s);
    hide Consistent, Everywhere;
    StaysConsistent(s, DeleteUser(s, user, nickname));
  }

  lemma SnapshotConsistent(s: State, now: int)
    requires Consistent(s)
    ensures Consistent(Snapshot(s, now))
  {
    InPlace(s);
    hide Consistent, Everywhere, Cascade;
    StaysConsistent(s, Snapshot(s, now));
  }

  /** Messages leaving memory, and rows leaving the table, as in a hard delete or a channel
      deletion. */
  lemma DropConsistent(s: State, s': State)
    requires Consistent(s) && s'.lastId == s.lastId
    requires s'.rows.Keys <= s.rows.Keys && forall id :: id in s'.rows ==> s'.rows[id] == s.rows[id]
    requires forall id :: id in s'.messages ==> id in s.messages && s'.messages[id] == s.messages[id]
    ensures Consistent(s')
  {
    InPlace(s);
    hide Consistent, Everywhere;
    StaysConsistent(s, s');
  }

  /** Every event keeps memory and table consistent: snapshots that fail, skip or crash nothing,
      and channel deletions, included. */
  lemma StepConsistent(s: State, e: Event)
    requires Consistent(s) && Legal(s, e)
    ensures Consistent(Do(s, e))
  {
    hide Consistent, Post, Edit, SoftDelete, DeleteUser, Snapshot, KeepAll, Cascade;
    match e
    case Posted(id, now, d) => PostConsistent(s, id, now, d);
    case Edited(id, owner, content, now) => EditConsistent(s, id, owner, content, now);
    case Deleted(id, now) => DeleteConsistent(s, id, now);
    case UserDeleted(user, nickname) => UserConsistent(s, user, nickname);
    case Tick(now, later, commits) =>
      if commits {
        SnapshotConsistent(s, now);
        DropConsistent(Snapshot(s, now), HardDelete(Snapshot(s, now), later));
      }
    case ChannelDeleted(channel) => DropConsistent(s, DeleteChannel(s, channel));
  }

  lemma InPlace(s: State)
    requires Consistent(s)
    ensures forall id :: id in s.rows ==> id in Everywhere(s) && SamePlace(Everywhere(s)[id], s.rows[id])
    ensures forall id :: id in s.messages ==> id in Everywhere(s) && SamePlace(Everywhere(s)[id], s.messages[id].row)
  {
  }

  /** Over every run the table stays loadable, and a restart in the middle of it finds what
      `LoadFromSQLite` requires. */
  lemma {:induction false} RunStaysLoadable(s: State, es: seq<Event>)
    requires Consistent(s) && LegalRun(s, es)
    ensures Consistent(After(s, es)) && WellFormed(After(s, es).rows, After(s, es).lastId)
    decreases |es|
  {
    hide WellFormed, Consistent, Legal, Do;
    if es == [] {
      TableWellFormed(s);
    } else {
      StepConsistent(s, es[0]);
      RunStaysLoadable(Do(s, es[0]), es[1..]);
    }
  }

  /** A server just started from a well-formed table is consistent. */
  lemma StartsConsistent(table: map<nat, Row>, s: State)
    requires LoadedFrom(table, s) && WellFormed(table, s.lastId)
    ensures Consistent(s)
  {
    hide Inv, WellFormed;
    forall id | id in s.messages ensures id in table && s.messages[id].row == table[id] {
      assert Rows(s.messages)[id] == LiveRows(table)[id];
    }
    assert Everywhere(s) == table;
  }
}
