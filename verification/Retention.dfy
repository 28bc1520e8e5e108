/** Deletions and the seven days for which tombstones are kept (pkg/database/memdb.go:236-296,
    360-420): a deletion that a snapshot stores in time is for good. */
module Retention {
  import opened Durability
  import opened Messages
  import opened SnapshotSteps
  import opened Wrappers

  /** No live row in the table, and none in memory that a snapshot could write. */
  ghost predicate Gone(s: State, id: nat) {
    && id <= s.lastId
    && (id in s.rows ==> s.rows[id].deletedAt != None)
    && (id in s.messages ==> s.messages[id].row.deletedAt != None)
  }

  lemma MemoryKeepsGone(s: State, e: Event, id: nat)
    requires Between(e) && !e.UserDeleted? && Legal(s, e) && Gone(s, id)
    ensures Gone(Do(s, e), id)
  {
    hide Do;
    MemoryEffect(s, e, id);
  }

  lemma TickKeepsGone(s: State, now: int, later: int, commits: bool, id: nat)
    requires Gone(s, id)
    ensures Gone(Do(s, Tick(now, later, commits)), id)
  {
    hide Snapshot, KeepAll, TableTakes, StoredAt;
    if commits {
      SnapshotTable(s, now, id);
      SnapshotTakes(s, now);
      HardDeleteKeeps(Snapshot(s, now), later);
    }
  }

  lemma StepKeepsGone(s: State, e: Event, id: nat)
    requires Legal(s, e) && Gone(s, id)
    ensures Gone(Do(s, e), id)
  {
    match e
    case Tick(now, later, commits) =>
      hide Do, Gone;
      TickKeepsGone(s, now, later, commits, id);
    case UserDeleted(user, nickname) =>
    case ChannelDeleted(channel) =>
    case _ =>
      hide Do, Gone;
      MemoryKeepsGone(s, e, id);
  }

  lemma {:induction false} RunKeepsGone(s: State, es: seq<Event>, id: nat)
    requires LegalRun(s, es) && Gone(s, id)
    ensures Gone(After(s, es), id)
    decreases |es|
  {
    hide Do, Legal, Gone;
    if es != [] {
      StepKeepsGone(s, es[0], id);
      RunKeepsGone(Do(s, es[0]), es[1..], id);
    }
  }

  lemma DeletedNow(s: State, id: nat, at: int)
    requires id in s.messages && s.messages[id].row.deletedAt == None
    ensures var t := Do(s, Deleted(id, at));
      id in t.messages && t.messages[id].row.deletedAt == Some(at) && id in t.dirty && t.lastId == s.lastId
  {
    hide CountDown;
    var row := s.messages[id].row.(deletedAt := Some(at));
    CountingKeepsMessages(SetRow(s, id, row).messages, row.parentId);
  }

  /** A message is deleted; then, after whatever posts, edits, deletions and account deletions, a
      snapshot commits within seven days.  From then on, whatever happens, no restart shows the
      message again. */
  lemma StoredDeletionIsForGood(s: State, id: nat, at: int, es: seq<Event>, now: int, later: int, fs: seq<Event>,
                                t: State)
    requires Indexed(s) && id in s.messages && s.messages[id].row.deletedAt == None
    requires AllBetween(es) && LegalRun(Do(s, Deleted(id, at)), es) && now <= at + 604800000
    requires var told := Do(After(Do(s, Deleted(id, at)), es), Tick(now, later, true));
      LegalRun(told, fs) && LoadedFrom(After(told, fs).rows, t)
    ensures id !in t.messages
  {
    hide Do, Indexed, LegalRun, After, AllBetween, HardDelete, Snapshot, Inv;
    var s1 := Do(s, Deleted(id, at));
    IdInRange(s, id);
    DeletedNow(s, id, at);
    RunLeaves(s1, es, id);
    RunTracks(s1, es, id);
    var s2 := After(s1, es);
    assert s2.messages[id].row.deletedAt == Some(at);
    CommittedTick(s2, now, later);
    SnapshotWrites(s2, now, id);
    RunKeepsGone(Do(s2, Tick(now, later, true)), fs, id);
    LiveRowsSub(t.rows);
    if id in t.messages {
      RowAt(t.messages, id);
      IsLive(t.rows, id);
    }
  }

  lemma CommittedTick(s: State, now: int, later: int)
    ensures var u := Do(s, Tick(now, later, true));
      && u.rows == Snapshot(s, now).rows && u.lastId == s.lastId
      && forall id :: id in u.messages ==> id in s.messages && u.messages[id] == s.messages[id]
  {
    hide KeepAll, Rewritten;
  }

  lemma IsLive(rows: map<nat, Row>, id: nat)
    requires id in LiveRows(rows)
    ensures id in rows && rows[id].deletedAt == None
  {
  }

  /** For instance: a first message is stored, deleted, and its tombstone stored by the next round
      of the snapshot loop. */
  lemma FirstDeletionIsForGood(d: Draft, t: State)
    requires d.parentId == None
    requires LoadedFrom(After(EMPTY, [Posted(1, 0, d), Tick(1, 1, true), Deleted(1, 2), Tick(3, 3, true)]).rows, t)
    ensures 1 !in t.messages
  {
    hide Do, Indexed, Inv, HardDelete, Snapshot, LoadedFrom, Durable, Crashes, KeepsCounts;
    var s0, s1 := Do(EMPTY, Posted(1, 0, d)), Do(Do(EMPTY, Posted(1, 0, d)), Tick(1, 1, true));
    FourSteps(EMPTY, Posted(1, 0, d), Tick(1, 1, true), Deleted(1, 2), Tick(3, 3, true));
    FirstPosted(d);
    StepKeepsInv(s0, Tick(1, 1, true));
    FirstRound(s0);
    StoredDeletionIsForGood(s1, 1, 2, [], 3, 3, [], t);
  }

  lemma FourSteps(s: State, a: Event, b: Event, c: Event, d: Event)
    ensures After(s, [a, b, c, d]) == Do(Do(Do(Do(s, a), b), c), d)
  {
    hide Do;
    assert [a, b, c, d][1..] == [b, c, d];
    AfterThree(Do(s, a), b, c, d);
  }

  lemma FirstRound(s: State)
    requires 1 in s.messages && s.messages[1].row.deletedAt == None
    ensures var t := Do(s, Tick(1, 1, true)); 1 in t.messages && t.messages[1] == s.messages[1]
  {
    hide KeepAll, Rewritten;
  }
}
