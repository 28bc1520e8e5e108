/** Channels deleted while a snapshot runs (pkg/database/memdb.go:236-292, 1183-1205).  Collected
    messages of a channel that is gone by the time of the write refer to no channel, and the
    database refuses the batch; flags of messages that left memory with their channel stay, and the
    next snapshot dereferences them. */
module SnapshotRaces {
  import opened Durability
  import opened Messages
  import opened SnapshotSteps
  import opened Wrappers

  predicate NoTick(es: seq<Event>) {
    forall i :: 0 <= i < |es| ==> !es[i].Tick?
  }

  predicate DeletesChannel(es: seq<Event>, channel: nat) {
    exists i :: 0 <= i < |es| && es[i] == ChannelDeleted(channel)
  }

  lemma NextOne(s: State, es: seq<Event>, channel: nat)
    requires es != []
    ensures After(s, es) == After(Do(s, es[0]), es[1..])
    ensures LegalRun(s, es) ==> Legal(s, es[0]) && LegalRun(Do(s, es[0]), es[1..])
    ensures NoTick(es) ==> !es[0].Tick? && NoTick(es[1..])
    ensures DeletesChannel(es, channel) <==> es[0] == ChannelDeleted(channel) || DeletesChannel(es[1..], channel)
  {
    hide Do, Legal;
    if i :| 0 <= i < |es| && es[i] == ChannelDeleted(channel) && i != 0 {
      assert es[1..][i - 1] == ChannelDeleted(channel);
    }
    if i :| 0 <= i < |es[1..]| && es[1..][i] == ChannelDeleted(channel) {
      assert es[i + 1] == ChannelDeleted(channel);
    }
  }

  /** A message leaves memory with its channel. */
  lemma StepRemovesIff(s: State, e: Event, id: nat)
    requires Indexed(s) && Legal(s, e) && !e.Tick? && id in s.messages
    ensures id !in Do(s, e).messages <==> e == ChannelDeleted(s.messages[id].row.channelId)
    ensures id in Do(s, e).messages ==> Do(s, e).messages[id].row.channelId == s.messages[id].row.channelId
  {
    hide Indexed, Legal, Post, Edit, SoftDelete, DeleteUser, HardDelete, Snapshot, DeleteChannel;
    if e.ChannelDeleted? {
      DeleteChannelKeeps(s, e.channel);
    } else {
      StepTracks(s, e, id);
      if e.Posted? {
        IdInRange(s, id);
        PostedLeaves(s, e, id);
      } else {
        SameMessagePlace(s, e, id);
      }
    }
  }

  lemma PostedLeaves(s: State, e: Event, id: nat)
    requires Legal(s, e) && e.Posted? && id in s.messages && id <= s.lastId
    ensures id in Do(s, e).messages && Do(s, e).messages[id].row == s.messages[id].row
  {
    hide Do;
    PostLeaves(s, e.id, e.now, e.draft, id);
  }

  lemma {:induction false} RunRemovesIff(s: State, es: seq<Event>, id: nat)
    requires Indexed(s) && LegalRun(s, es) && NoTick(es) && id in s.messages
    ensures id !in After(s, es).messages <==> DeletesChannel(es, s.messages[id].row.channelId)
    decreases |es|
  {
    hide Do, Legal, Indexed, KeepsCounts, DeletesChannel;
    if es != [] {
      var t := Do(s, es[0]);
      NextOne(s, es, s.messages[id].row.channelId);
      StepKeepsInv(s, es[0]);
      StepRemovesIff(s, es[0], id);
      IdInRange(s, id);
      if id in t.messages {
        RunRemovesIff(t, es[1..], id);
      } else {
        StepNeverBack(s, es[0], id);
        RunNeverBack(t, es[1..], id);
      }
    } else {
      NoneDeleted(s.messages[id].row.channelId);
    }
  }

  lemma NoneDeleted(channel: nat)
    ensures !DeletesChannel([], channel)
  {
  }

  /** No ID comes back once it is gone. */
  lemma StepNeverBack(s: State, e: Event, id: nat)
    requires Legal(s, e) && !e.Tick? && id <= s.lastId
    ensures id <= Do(s, e).lastId
    ensures id !in s.messages ==> id !in Do(s, e).messages
  {
    hide Legal, Post, Edit, SoftDelete, DeleteUser, HardDelete, Snapshot, Cascade;
    if !e.ChannelDeleted? {
      StepTracks(s, e, id);
    }
  }

  lemma {:induction false} RunNeverBack(s: State, es: seq<Event>, id: nat)
    requires LegalRun(s, es) && NoTick(es) && id <= s.lastId && id !in s.messages
    ensures id !in After(s, es).messages
    decreases |es|
  {
    hide Do, Legal, DeletesChannel;
    if es != [] {
      NextOne(s, es, 0);
      StepNeverBack(s, es[0], id);
      RunNeverBack(Do(s, es[0]), es[1..], id);
    }
  }

  /** Flagged, and gone from memory: what the next snapshot would crash on. */
  ghost predicate Stray(s: State, id: nat) {
    id in s.dirty && id !in s.messages
  }

  /** The message was flagged when its channel was deleted. */
  ghost predicate DroppedFlagged(s: State, es: seq<Event>, id: nat)
    decreases |es|
  {
    es != [] &&
    ((es[0].ChannelDeleted? && id in s.dirty && id in InChannel(s, es[0].channel)) ||
     DroppedFlagged(Do(s, es[0]), es[1..], id))
  }

  lemma StepStrayIff(s: State, e: Event, id: nat)
    requires Indexed(s) && Legal(s, e) && !e.Tick?
    ensures Stray(Do(s, e), id) <==>
            Stray(s, id) || (e.ChannelDeleted? && id in s.dirty && id in InChannel(s, e.channel))
  {
    hide Indexed, Legal, Post, Edit, SoftDelete, DeleteUser, HardDelete, Snapshot, DeleteChannel;
    if e.ChannelDeleted? {
      DeleteChannelKeeps(s, e.channel);
    } else {
      FlaggedInRange(s, id);
      StepTracks(s, e, id);
    }
  }

  lemma FlaggedInRange(s: State, id: nat)
    requires Indexed(s)
    ensures id in s.dirty ==> id <= s.lastId
  {
    hide IndexesExact, WellFormed;
  }

  lemma {:induction false} RunStrayIff(s: State, es: seq<Event>, id: nat)
    requires Indexed(s) && LegalRun(s, es) && NoTick(es)
    ensures Indexed(After(s, es))
    ensures Stray(After(s, es), id) <==> Stray(s, id) || DroppedFlagged(s, es, id)
    decreases |es|
  {
    hide Do, Legal, Indexed, KeepsCounts, DeletesChannel, InChannel, Stray;
    if es != [] {
      NextOne(s, es, 0);
      StepKeepsInv(s, es[0]);
      StepStrayIff(s, es[0], id);
      RunStrayIff(Do(s, es[0]), es[1..], id);
    }
  }

  /** No collected message is in a channel that was deleted since: its row would refer to no channel,
      and the database refuses the batch. */
  predicate ForeignKeysHold(c: State, cutoff: int, es: seq<Event>) {
    forall id :: id in ToWrite(c, cutoff) && id in c.messages ==> !DeletesChannel(es, c.messages[id].row.channelId)
  }

  /** The three steps when the write may fail (`ok` is the database's answer): then the flags stay. */
  function Outcome(c: State, cutoff: int, es: seq<Event>, fs: seq<Event>, ok: bool): State {
    if ok then Steps(c, cutoff, es, fs) else After(After(c, es), fs)
  }

  /** The foreign keys hold exactly when all that was collected is still in memory. */
  lemma ForeignKeysHoldIff(c: State, cutoff: int, es: seq<Event>)
    requires Indexed(c) && !Crashes(c) && LegalRun(c, es) && NoTick(es)
    ensures ForeignKeysHold(c, cutoff, es) <==> ToWrite(c, cutoff).Keys <= After(c, es).messages.Keys
  {
    hide Indexed, LegalRun, After, DeletesChannel, NoTick;
    forall id | id in ToWrite(c, cutoff)
      ensures id in c.messages
      ensures id !in After(c, es).messages <==> DeletesChannel(es, c.messages[id].row.channelId)
    {
      RunRemovesIff(c, es, id);
    }
  }

  lemma UserApart(s: State, t: State, user: int, nickname: string)
    requires t == s.(rows := t.rows)
    ensures DeleteUser(t, user, nickname) == DeleteUser(s, user, nickname).(rows := DeleteUser(t, user, nickname).rows)
  {
    assert DeleteUser(t, user, nickname).messages == DeleteUser(s, user, nickname).messages;
  }

  lemma PostApart(s: State, t: State, id: nat, now: int, d: Draft)
    requires t == s.(rows := t.rows)
    ensures Post(t, id, now, d).0 == Post(s, id, now, d).0.(rows := Post(t, id, now, d).0.rows)
  {
    hide Append, CountUp;
  }

  lemma SetRowApart(s: State, t: State, id: nat, row: Row)
    requires t == s.(rows := t.rows) && id in s.messages
    ensures SetRow(t, id, row) == SetRow(s, id, row).(rows := SetRow(t, id, row).rows)
  {
  }

  lemma EditApart(s: State, t: State, id: nat, owner: Option<int>, content: string, now: int)
    requires t == s.(rows := t.rows)
    ensures Edit(t, id, owner, content, now).0 ==
            Edit(s, id, owner, content, now).0.(rows := Edit(t, id, owner, content, now).0.rows)
  {
    hide SetRow;
    if id in s.messages {
      SetRowApart(s, t, id, s.messages[id].row.(content := content, editedAt := Some(now)));
    }
  }

  lemma DeleteApart(s: State, t: State, id: nat, now: int)
    requires t == s.(rows := t.rows)
    ensures SoftDelete(t, id, now).0 == SoftDelete(s, id, now).0.(rows := SoftDelete(t, id, now).0.rows)
  {
    hide CountDown, SetRow;
    if id in s.messages {
      SetRowApart(s, t, id, s.messages[id].row.(deletedAt := Some(now)));
    }
  }

  lemma ChannelApart(s: State, t: State, channel: nat)
    requires t == s.(rows := t.rows)
    ensures DeleteChannel(t, channel) == DeleteChannel(s, channel).(rows := DeleteChannel(t, channel).rows)
  {
    hide Cascade;
  }

  /** Memory does not depend on the table. */
  lemma TableApart(s: State, t: State, e: Event)
    requires !e.Tick? && t == s.(rows := t.rows)
    ensures Do(t, e) == Do(s, e).(rows := Do(t, e).rows)
  {
    hide Post, Edit, SoftDelete, DeleteUser, DeleteChannel;
    match e
    case Posted(id, now, d) => PostApart(s, t, id, now, d);
    case Edited(id, owner, content, now) => EditApart(s, t, id, owner, content, now);
    case Deleted(id, now) => DeleteApart(s, t, id, now);
    case UserDeleted(user, nickname) => UserApart(s, t, user, nickname);
    case ChannelDeleted(channel) => ChannelApart(s, t, channel);
  }

  lemma {:induction false} RunTableApart(s: State, t: State, es: seq<Event>)
    requires NoTick(es) && t == s.(rows := t.rows)
    ensures After(t, es) == After(s, es).(rows := After(t, es).rows)
    decreases |es|
  {
    hide Do, Legal, DeletesChannel;
    if es != [] {
      NextOne(s, es, 0);
      NextOne(t, es, 0);
      TableApart(s, t, es[0]);
      RunTableApart(Do(s, es[0]), Do(t, es[0]), es[1..]);
    }
  }

  /** When the snapshot leaves the next one to crash: a flagged message went with its channel, at
      any moment, and if the write succeeded one that was flagged after the collection. */
  lemma NextCrashesIff(c: State, cutoff: int, es: seq<Event>, fs: seq<Event>, ok: bool)
    requires Indexed(c) && !Crashes(c) && LegalRun(c, es) && NoTick(es)
    requires LegalRun(After(c, es), fs) && NoTick(fs)
    ensures Crashes(Outcome(c, cutoff, es, fs, ok)) <==>
            exists id :: (DroppedFlagged(c, es, id) || DroppedFlagged(After(c, es), fs, id)) && (ok ==> id !in c.dirty)
  {
    hide Indexed, LegalRun, After, Write, NoTick, DroppedFlagged, ToWrite;
    var a, w, f := After(c, es), Written(c, cutoff, es), Outcome(c, cutoff, es, fs, ok);
    WriteKeepsMemory(a, ToWrite(c, cutoff).Keys);
    RunTableApart(a, w, fs);
    var b := After(a, fs);
    forall id: nat
      ensures Stray(b, id) <==> DroppedFlagged(c, es, id) || DroppedFlagged(a, fs, id)
      ensures Stray(f, id) <==> Stray(b, id) && (ok ==> id !in c.dirty)
    {
      RunStrayIff(c, es, id);
      RunStrayIff(a, fs, id);
    }
    CrashesIff(f);
    if id :| Stray(f, id) {
      assert DroppedFlagged(c, es, id) || DroppedFlagged(a, fs, id);
    }
  }

  lemma WriteKeepsMemory(a: State, ids: set<nat>)
    ensures Write(a, ids) == a.(rows := Write(a, ids).rows)
  {
    hide Rewritten;
  }

  lemma CrashesIff(s: State)
    ensures Crashes(s) <==> exists id :: Stray(s, id)
  {
    if Crashes(s) {
      var id :| id in s.dirty && id !in s.messages.Keys;
      assert Stray(s, id);
    }
  }

  /** A channel deleted between collection and write: if a message of it was collected, the write
      fails and the next snapshot crashes, whatever else happens. */
  lemma DeletedUnderSnapshotCrashes(c: State, cutoff: int, es: seq<Event>, fs: seq<Event>, id: nat)
    requires Indexed(c) && !Crashes(c) && LegalRun(c, es) && NoTick(es)
    requires LegalRun(After(c, es), fs) && NoTick(fs)
    requires id in ToWrite(c, cutoff) && id in c.messages && DeletesChannel(es, c.messages[id].row.channelId)
    ensures !ForeignKeysHold(c, cutoff, es)
    ensures Crashes(Outcome(c, cutoff, es, fs, false))
  {
    hide Indexed, LegalRun, After, NoTick, DeletesChannel, DroppedFlagged;
    RunRemovesIff(c, es, id);
    RunFlagged(c, es, id);
    RunStrayIff(c, es, id);
    RunStrayIff(After(c, es), fs, id);
    CrashesIff(After(After(c, es), fs));
  }

  lemma {:induction false} RunFlagged(s: State, es: seq<Event>, id: nat)
    requires LegalRun(s, es) && NoTick(es) && id in s.dirty
    ensures id in After(s, es).dirty
    decreases |es|
  {
    hide Do, Legal, DeletesChannel;
    if es != [] {
      NextOne(s, es, 0);
      StepFlagged(s, es[0], id);
      RunFlagged(Do(s, es[0]), es[1..], id);
    }
  }

  lemma StepFlagged(s: State, e: Event, id: nat)
    requires !e.Tick? && id in s.dirty
    ensures id in Do(s, e).dirty
  {
    hide Append, CountUp, CountDown, Cascade;
  }

  /** For instance: a first message is posted and collected, and its channel is deleted before the
      write. */
  lemma FirstChannelDeletedUnderSnapshot(d: Draft)
    requires d.parentId == None
    ensures var c := Do(EMPTY, Posted(1, 0, d));
      var es := [ChannelDeleted(d.channelId)];
      !ForeignKeysHold(c, 0, es) && Crashes(Outcome(c, 0, es, [], false))
  {
    hide Indexed, Durable, Crashes, Do, Cascade, NewRow, Outcome, ForeignKeysHold;
    var c, e := Do(EMPTY, Posted(1, 0, d)), ChannelDeleted(d.channelId);
    FirstPosted(d);
    assert [e][0] == e;
    assert LegalRun(c, [e]);
    DeletedUnderSnapshotCrashes(c, 0, [e], [], 1);
  }
}
