# SuperChat: verified models of its store, cascade, wire format and queues

SuperChat is a threaded chat server written in Go, with a terminal, a desktop and a web client. This
project models the parts of it whose correctness rests on several pieces of state being kept in step by
hand, and proves what they are for.

- **The message store** (`Messages`, `Durability`, `Retention`, `SnapshotSteps`, `SnapshotRaces`, `Loadable`, `Loading`,
  `ThreadWalk`, `Upserts`, `MemSessions`, `MemDb`). A map of messages, three secondary indexes, a cached reply count and a
  set of dirty messages in front of SQLite, which is a map of rows with commit or rollback and the foreign
  keys of the schema: a row that is deleted, or replaced by INSERT OR REPLACE, takes along every row whose
  parent or thread root it is. `MemDb` is the class with the loops and in-place updates; each of its methods
  is proved equal to an operation of `Messages`, and the invariant, the durability and the paging theorems
  are about those operations, over whole runs. `SnapshotSteps` and `SnapshotRaces` take the snapshot apart
  into its three steps, with other operations between them.
- **Sessions and broadcasts** (`Sessions`, `Presence`). Subscription maps and their reverse indexes, the
  worker pool, and the removal cascade: removing a session notifies the others, and a failed notification
  removes another session, through two mutually recursive paths. The outcome of a write is arbitrary.
- **The ID generator** (`Snowflake`). A compare-and-swap loop as a state machine over the interleaved steps
  of any number of goroutines, with arbitrary clock readings.
- **The wire** (`Positional`, `Octets`, `BitStream`, `BitLayout`, `BitStreamClasses`, `Wire`, `Framing`,
  `Codec`, `Layouts`, `Records`, `GoCodec`, `GoMessages`, `TsCodec`, `TsMessages`, `Reassembly`). The bit-level stream
  in two bit orders, with the place of every bit, Go's primitives and frames, the message payloads on both sides, and the client's
  reassembly of a fragmented stream with its receive throttle. `Layouts` lists the fields of every message
  of the protocol, and `Codec` proves round trips for layouts. Six messages are also written out as the
  source has them, call by call: `GoMessages` with Go's writers and readers, and all but the login in
  `TsMessages` with the bit stream of the web client. Each is proved to be what its layout says.
- **The thread view** (`ThreadSort`, `ThreadTree`). The client's exchange sort, depth-first order and
  breadth-first depths.
- **Queues and jobs** (`WriteBuffer`, `RateLimits`, `Migrations`).

`Wrappers` and `Sets` hold an option type and one fact about finite sets.

Modules follow the source's form: what changes fields in place is a class whose methods are proved against
functions on values, and the theorems are lemmas about those functions.

## What turned out not to hold

Where the code does not do what its comments or callers expect, the model follows the code; lemmas give the
exact condition under which it does, and an input that shows it does not.

- The two waits of `NextID` differ: after the clock has stepped back, an exhausted sequence waits only until
  the clock reaches the last timestamp, not beyond it, and an ID can be issued twice
  (`Snowflake.BackwardsClockRepeatsAnId`; exact condition for a whole run `Snowflake.IdsInOrderIff`).
- A snapshot writes with INSERT OR REPLACE under ON DELETE CASCADE. A message that is written again deletes
  the stored rows of its replies, and those that are not written themselves are lost: an edit of a message
  with a stored reply, then a snapshot and a restart, and the reply is gone
  (`Durability.EditLosesStoredReply`; exact condition `Durability.SnapshotDurableIff`).
- A snapshot does not write tombstones older than seven days. If such a message has a live row in the table,
  which takes seven days without a successful snapshot, a restart brings it back to life
  (`Durability.SkippedTombstoneComesBack`; exact condition `Durability.SnapshotThenRestartIff`).
- A snapshot clears the flags of what it collected after the write. A change of a collected message between
  the two is never stored (`SnapshotSteps.FirstEditLost`, for every store `SnapshotSteps.LateEditIsLost`;
  exact condition `SnapshotSteps.LateChangesIff`).
- `DeleteChannel` leaves the IDs it drops in the dirty set, and the next snapshot dereferences them: it
  crashes exactly when a dirty message was in the channel
  (`Durability.NewMessageInDeletedChannelCrashes`; over whole runs `Durability.RunCrashesIff`). Deleted while
  a snapshot runs, a channel with a collected message also makes that snapshot's write fail
  (`SnapshotRaces.FirstChannelDeletedUnderSnapshot`, `SnapshotRaces.NextCrashesIff`).
- `DeleteChannel` does not count down: a message keeps the count of a live reply in a deleted channel
  (`Durability.ReplyElsewhereStaysCounted`; exact condition `Messages.DeleteChannelKeeps`).
- Paging a thread with `afterID` also hides newer replies below an older one
  (`ThreadWalk.AfterIsNoPlainFilter`; exact condition `ThreadWalk.AfterIsPlainFilterIff`).
- The sort whose comment asks for a stable sort is an exchange sort and is not stable
  (`ThreadSort.ExchangeNotStable`; exact condition `ThreadSort.StableIff`).
- The receive throttle does not save up bandwidth: a frame larger than what one timer interval allows blocks
  the queue for ever (`Reassembly.SlowConnectionBlocks`; exact conditions `Reassembly.TickReleasesIff` and
  `Reassembly.SteadyBlocksIff`).
- A flush of the write buffer chunks its inserts but neither its `DELETE` nor its parent lookup. With more
  than 32766 deletions nothing is deleted and the flush still commits
  (`WriteBuffer.TooManyDeletionsAreLost`; exact condition `WriteBuffer.FlushIsReplayIff`); with more than
  32766 parents every message is refused (`WriteBuffer.TooManyParentsAreRefused`).
- A flush whose transaction does not begin never answers its session requests and drops its deletions, and
  one that is rolled back has told its requests of success
  (`WriteBuffer.WriteBuffer.Flush`, `WriteBuffer.RolledBackSuccessIsLost`).
- Only the highest recorded version tells which migrations are pending, so a migration added later under a
  lower number is never applied (`Migrations.SkippedMigrationStays`; exact condition
  `Migrations.UpToDateIff`).
- Length fields wrap: a frame is read back exactly when it is within the size limit, although the writer also
  lets a payload of about 4 GiB through (`Framing.WrappedFrameUnreadable`, `Framing.FrameRoundTrip`), and a
  list exactly when it has at most 65535 items (`Layouts.FullChannelListArrivesEmpty`,
  `Codec.ReadsBackIff`).
- A message that carries what only a success may carry loses it on the wire, exactly when it is no success
  (`Layouts.RefusedRegistrationLosesId`; exact conditions `Layouts.OnSuccessReadsBackIff` and
  `Layouts.AuthResponseIff`).
- Both traversals of the thread view go on for ever when a chain of replies from the root comes back to an ID
  it has passed (`ThreadTree.SelfAnswerNeverEnds`; exact condition `ThreadTree.EndsIff`).

## Model

| member | source | states |
|---|---|---|
| `Snowflake.NewSnowflake` | pkg/database/snowflake.go:31-40 | a worker ID is kept exactly when it is in 0..1023; any other becomes 0 |
| `Snowflake.RereadAdvancesIff` | pkg/database/snowflake.go:56-90 | after an exhaustion wait the packed state grows exactly when the clock read then is later than the last timestamp used |
| `Snowflake.StepKeepsInv` | pkg/database/snowflake.go:43-103 | every load, clock read, wait, re-read and swap of any goroutine keeps the invariant: IDs issued so far increase, and each goroutine's computed state is above the one it loaded |
| `Snowflake.RunKeepsInv` | pkg/database/snowflake.go:43-103 | the invariant holds after every interleaving in which re-reads come out later |
| `Snowflake.IdFields` | pkg/database/snowflake.go:92-98 | an ID whose timestamp fits 41 bits is non-negative and unpacks to its timestamp, worker and sequence |
| `Snowflake.IdsUniqueAndOrdered` | pkg/database/snowflake.go:43-103 | over every run of any number of goroutines all IDs are distinct, increase in the order of the swaps, respect the real-time order of calls, and unpack to their fields |
| `Snowflake.IssueFollowsClock` | pkg/database/snowflake.go:56-90 | over every run, from the events alone: an ID has the clock reading and sequence 0 if that reading is above the last issue's time; else the last time and the next sequence while that is below 4096; else the reading after the wait and sequence 0 |
| `Snowflake.LaterCallsGetLargerIds` | pkg/database/snowflake.go:43-103 | told by events: a call that begins after another has returned gets a later issue |
| `Snowflake.SwapFailsOnlyWhenOvertaken` | pkg/database/snowflake.go:45-102 | a swap fails exactly when another call issued an ID since this goroutine's load: lock-free, and no ABA |
| `Snowflake.SwapAdvancesIff` | pkg/database/snowflake.go:76-98 | for any clock: a swap that succeeds moves the state up unless it came from a re-read at or before the last timestamp |
| `Snowflake.InOrderIff` | pkg/database/snowflake.go:43-103 | for any clock and every run: what is issued is in order if and only if no swap ever succeeded with a re-read at or before its last timestamp |
| `Snowflake.IdsInOrderIff` | pkg/database/snowflake.go:43-103 | so the IDs themselves increase exactly then, as long as timestamps fit 41 bits |
| `Snowflake.BurstIssues` | pkg/database/snowflake.go:56-98 | n calls in one millisecond issue the sequence numbers 0 to n-1, in the order of the calls |
| `Snowflake.BackwardsClockRepeatsAnId` | pkg/database/snowflake.go:76-90 | a run in which the clock steps back after 4096 IDs in a millisecond and an ID is issued a second time |
| `Sessions.SubscribedIff` | pkg/server/session.go:327-358 | a key has an index entry exactly when some session holds it: no entry is empty |
| `Sessions.AddIsInverse` | pkg/server/session.go:259-306 | adding a subscriber to the reverse index keeps it the inverse of the sessions' own maps |
| `Sessions.DropIsInverse` | pkg/server/session.go:275-324 | so does removing one, with its entry dropped when it becomes empty |
| `Sessions.DropFromAll` | pkg/server/session.go:136-192 | taking a session out of the entries of all its keys leaves the inverse of the maps without that session |
| `Sessions.SessionManager.CreateSession` | pkg/server/session.go:76-112 | nothing changes when the database refuses the record; otherwise a session without subscriptions is registered under an ID never used before, and the indexes stay the inverse |
| `Sessions.SessionManager.RemoveSession` | pkg/server/session.go:136-192 | afterwards the session is neither registered nor in an index, all others are as before; nothing happens for an unknown ID |
| `Sessions.SessionManager.SubscribeToThread` | pkg/server/session.go:259-272 | the session's map gains the thread with its channel, and the reverse index stays the inverse |
| `Sessions.SessionManager.UnsubscribeFromThread` | pkg/server/session.go:275-290 | the session's map loses the thread, and the reverse index stays the inverse without empty entries |
| `Sessions.SessionManager.SubscribeToChannel` | pkg/server/session.go:293-306 | the same for channels |
| `Sessions.SessionManager.UnsubscribeFromChannel` | pkg/server/session.go:309-324 | the same for channels |
| `Sessions.SessionManager.GetThreadSubscribers` | pkg/server/session.go:327-341 | the lookup finds what a scan over all registered sessions would |
| `Sessions.SessionManager.GetChannelSubscribers` | pkg/server/session.go:344-358 | the same for channels |
| `Presence.WorkerCount` | pkg/server/handlers.go:1452-1456 | at most 40 workers, as few as leave each no more than 50 sessions unless there are 40 |
| `Presence.LastWorkerInRange` | pkg/server/handlers.go:1452-1473 | no worker's slice starts past the end of the sessions |
| `Presence.EveryPositionCovered` | pkg/server/handlers.go:1452-1473 | every session is in some worker's slice |
| `Presence.ChunksPartition` | pkg/server/handlers.go:1444-1490 | for every n > 0 all slices are in range and each position lies in exactly one |
| `Presence.ScheduleStep` | pkg/server/handlers.go:1466-1486 | whichever worker writes next, every position written so far has been written once |
| `Presence.ScheduleDone` | pkg/server/handlers.go:1466-1488 | when all workers are done every position has been written exactly once |
| `Presence.CascadesCompose` | pkg/server/server.go:642-659 | two cascades one after the other are one: survivors of both were told of everyone removed in either |
| `Presence.FailureExcuses` | pkg/server/handlers.go:74-80 | a removal that follows a failed write to that session is accounted for |
| `Presence.OneMoreTold` | pkg/server/handlers.go:74-80 | one step of the presence loop: after the write, and the removal if it failed, every survivor among the targets handled so far has the notice |
| `Presence.PoolDelivers` | pkg/server/handlers.go:1431-1437 | once the sessions whose write failed are removed, every remaining target has the message |
| `Presence.RemovalCascades` | pkg/server/server.go:642-659 | a removal followed by its channel and its server notice is a cascade started by that one request |
| `Presence.RemovalNotices` | pkg/server/server.go:642-659 | and the two notices of a removal tell nothing but that: of a session that is gone, not online, not joined, to those registered |
| `Presence.Server.BroadcastToSessionsParallel` | pkg/server/handlers.go:1444-1490 | under any interleaving of the workers each target is written to exactly once, and the result is exactly the targets whose write failed |
| `Presence.Server.ChannelTargets` | pkg/server/handlers.go:1399-1429 | exactly the sessions that joined the channel or subscribed to it, each listed once |
| `Presence.Server.BroadcastToChannel` | pkg/server/handlers.go:1369-1440 | every survivor that joined or subscribed to the channel gets the message, nobody else does, and besides only notices of removed sessions are written; sessions are removed only after a failed write, with the others told |
| `Presence.Server.RemoveDead` | pkg/server/handlers.go:1434-1437 | removes the sessions whose write failed; the cascades this starts are complete and write notices of removed sessions only |
| `Presence.Server.NotifyServerPresence` | pkg/server/handlers.go:69-81 | every survivor gets SERVER_PRESENCE with the session's own ID, nickname, user ID and flag and with `online` as given, if it has a nickname; nothing else is written but notices of removed sessions; without a nickname nothing changes, the log included |
| `Presence.Server.NotifyChannelPresence` | pkg/server/handlers.go:127-141 | the same with CHANNEL_PRESENCE and `joined` for the sessions in the channel; a session that left is written the notice as well, last |
| `Presence.Server.RemoveSession` | pkg/server/server.go:642-659 | terminates for every pattern of write failures; then the session is gone; of each removed session with a nickname every survivor got SERVER_PRESENCE with that session's data and `online` false and, if it was in the same channel, CHANNEL_PRESENCE with `joined` false, which was written to the removed session too; nothing else was written, and nobody else was removed without a failed write; an unknown ID changes nothing |
| `Presence.Server.HandleSubscribeThread` | pkg/server/handlers.go:1669-1715 | refused for a missing thread and at the limit, so the limit is never exceeded; otherwise subscribed |
| `Presence.Server.HandleSubscribeChannel` | pkg/server/handlers.go:1736-1778 | the same for channels; a request naming a subchannel is refused |
| `Presence.Server.ChooseRecipients` | pkg/server/handlers.go:1543-1577 | the reverse indexes give the subscribers of the channel (no parent, or parent 0) or of the thread; of a shadowbanned author's message only the author and registered admins; each once |
| `Presence.Server.SendToAll` | pkg/server/handlers.go:1579-1586 | each target is written to once, in the order of the pool; afterwards only notices of removed sessions are sent; survivors have the message |
| `Presence.Server.BroadcastNewMessage` | pkg/server/handlers.go:1494-1595 | the recipients are the subscribers of the channel or of the thread, for a shadowbanned author only the author and registered admins; each is written to once and nobody else; survivors among them get the message |
| `Messages.AppendExact` | pkg/database/memdb.go:641-652 | listing a new message under its key keeps an index exact |
| `Messages.KeepAllExact` | pkg/database/memdb.go:375-417 | taking messages out of memory and out of the index keeps it exact |
| `Messages.CountUpExact` | pkg/database/memdb.go:643-649 | a new live reply adds one to its parent's count, which stays the number of live direct replies |
| `Messages.CountDownExact` | pkg/database/memdb.go:901-906 | when a live reply is deleted the count of its parent is above zero, so the guard lets the decrement through, it does not wrap, and the count stays exact |
| `Messages.PostKeepsInv` | pkg/database/memdb.go:601-656 | posting, or failing to for a missing parent, keeps indexes, counts, thread roots and ID order |
| `Messages.SoftDeleteKeepsInv` | pkg/database/memdb.go:883-939 | so does a soft delete by author or administrator |
| `Messages.EditKeepsInv` | pkg/database/memdb.go:942-997 | so does an edit, allowed or refused |
| `Messages.DeleteUserKeepsInv` | pkg/database/memdb.go:1210-1239 | so does deleting an account, which keeps its messages without an author |
| `Messages.SnapshotKeepsInv` | pkg/database/memdb.go:236-296 | so does a snapshot |
| `Messages.HardDeleteKeepsInv` | pkg/database/memdb.go:360-420 | so does the hard delete: tombstones are nobody's live reply |
| `Messages.CascadeCloses` | pkg/database/migrations/001_initial.sql:40-42 | after a foreign-key cascade no row left has a deleted row as parent or thread root |
| `Messages.CascadeIsLeast` | pkg/database/migrations/001_initial.sql:40-42 | and no smaller set of rows has this property: a cascade deletes no more than it must |
| `Messages.CascadeReasons` | pkg/database/migrations/001_initial.sql:40-42 | a row that a deletion takes along has its parent or its thread root among the rows that go |
| `Messages.ChannelRowsGo` | pkg/database/memdb.go:1183-1205 | with a channel go all its rows, and every row whose parent or thread root goes |
| `Messages.OnlyChannelRowsGo` | pkg/database/memdb.go:1183-1205 | and no others: any set that holds them and is closed under that holds all that go |
| `Messages.CountedMinus` | pkg/database/memdb.go:1183-1205 | counts survive a removal when what is removed is no live reply of what stays |
| `Messages.DeleteChannelKeeps` | pkg/database/memdb.go:1183-1205 | deleting a channel keeps all three indexes exact for the messages left, and keeps the counts exactly when no message left loses a live reply |
| `Durability.SnapshotDurableIff` | pkg/database/memdb.go:236-296 | a committed snapshot makes the table agree with memory on live messages if and only if it deletes no live row, by replacing what that row hangs from, but those of the tombstones that it skips |
| `Durability.SnapshotTable` | pkg/database/memdb.go:301-356 | row by row, what stands in the table after a snapshot: what was written, and of the rest what the replaced rows did not take along |
| `Durability.SnapshotWrites` | pkg/database/memdb.go:236-296 | a dirty message that is live, or was deleted at or after now - 604800000 ms, stands in the table as in memory; an older tombstone is not written |
| `Durability.SnapshotTakes` | pkg/database/memdb.go:236-296 | the table after a snapshot is exactly those rows and the old rows that hang below none of them or of what goes |
| `Durability.HardDeleteKeeps` | pkg/database/memdb.go:360-420 | the hard delete keeps exactly the messages that are live or were deleted at or after now - 604800000 ms, as they are |
| `Durability.RewrittenParentLosesReply` | pkg/database/memdb.go:301-356 | a stored reply that is not written again goes when its parent is replaced |
| `Durability.HardDeleteDurable` | pkg/database/memdb.go:360-420 | the hard delete loses no live message and leaves clean messages stored |
| `Durability.RestartRestores` | pkg/database/memdb.go:71-184 | with nothing dirty a restart has the same live messages, each index lists the same live messages, and the reply counts, if they were right, are equal |
| `Durability.SnapshotThenRestartIff` | pkg/database/memdb.go:236-296 | a snapshot and a restart bring back exactly the live messages under the same condition, and only then |
| `Durability.StepKeepsInv` | pkg/database/memdb.go:199-233 | each post, edit, deletion, account or channel deletion and round of the snapshot loop keeps rows and indexes in order; the counts stay right if and only if no channel is deleted that holds a live reply to a message elsewhere |
| `Durability.RunKeepsIndexes` | pkg/database/memdb.go:199-420 | on every state that any run reaches, whatever snapshots fail, skip or lose and whatever channels are deleted, the three indexes are exact |
| `Durability.RunKeepsInv` | pkg/database/memdb.go:199-420 | and all reply counts are right, as long as no deleted channel holds a live reply to a message elsewhere |
| `Durability.RunInChannelKeepsInv` | pkg/database/memdb.go:601-656 | which is so, over every run, if each reply is posted to the channel of its parent |
| `Durability.ReplyElsewhereStaysCounted` | pkg/database/memdb.go:1183-1205 | for instance, if not: a message keeps the count of its reply in another channel after that channel is deleted |
| `Durability.StepCrashesIff` | pkg/database/memdb.go:249-268 | an event leaves the next snapshot to crash if and only if it deletes a channel that holds a flagged message |
| `Durability.RunCrashesIff` | pkg/database/memdb.go:249-268 | so over any run no snapshot crashes if and only if no such channel is deleted |
| `Durability.StepDurable` | pkg/database/memdb.go:199-233 | when a committed snapshot keeps the live rows, and a deleted channel holds no flagged message and takes no live row elsewhere, every live message not marked dirty stays equal to its stored row |
| `Durability.RunDurable` | pkg/database/memdb.go:199-420 | so over every run of such steps, with snapshots that commit or fail anywhere, and no snapshot crashes |
| `Durability.RunThenRestart` | pkg/database/memdb.go:71-420 | start from a table, run, take a last snapshot, restart: the live messages and index contents are back, and the reply counts under the condition of `RunKeepsInv` |
| `Retention.StoredDeletionIsForGood` | pkg/database/memdb.go:236-296 | over whole runs: a message that is deleted and whose tombstone a snapshot commits within seven days is never shown by a restart again, whatever happens afterwards |
| `Retention.FirstDeletionIsForGood` | pkg/database/memdb.go:236-296 | for instance a message that was posted, stored, deleted and snapshotted again |
| `Durability.SkippedTombstoneComesBack` | pkg/database/memdb.go:245-268 | a run after which a restart shows a deleted message again |
| `Durability.EditLosesStoredReply` | pkg/database/memdb.go:301-356 | a run after which a live reply is gone: two stored messages, the first is edited, and the snapshot that replaces it deletes the row of its reply |
| `Durability.DeleteChannelDurableIff` | pkg/database/memdb.go:1183-1205 | deleting a channel keeps memory and table in agreement if and only if no live stored message of another channel goes with its rows |
| `Durability.DeleteChannelKeepsInv` | pkg/database/memdb.go:1183-1205 | when replies are in their parent's channel, deleting a channel keeps the whole invariant |
| `Durability.SnapshotAfterDeleteChannelCrashesIff` | pkg/database/memdb.go:249-268 | the next snapshot crashes exactly when a dirty message was in the deleted channel |
| `Durability.NewMessageInDeletedChannelCrashes` | pkg/database/memdb.go:249-268 | for instance: the first message of an empty store, deleted with its channel |
| `Durability.ParentsFirst` | pkg/database/memdb.go:242-284 | at every prefix of the rows a snapshot writes in ascending order, each row's parent is stored or written earlier |
| `Durability.StepAnchored` | pkg/database/memdb.go:199-296 | every step keeps each message, and the parent of each, stored or about to be |
| `Durability.RunAnchored` | pkg/database/memdb.go:199-296 | so parents come first in the next snapshot after any run whose snapshots skip no message and lose no row that one in memory or its reply needs, and whose channel deletions take whole threads |
| `SnapshotSteps.UndisturbedIsSnapshot` | pkg/database/memdb.go:236-296 | collecting, writing and clearing the flags, with nothing in between, is the snapshot of the store |
| `SnapshotSteps.StepsDurableIff` | pkg/database/memdb.go:242-289 | with any posts, edits, deletions and account deletions between the three steps: memory and table agree afterwards if and only if every collected message has still the content and the times with which it was written (or was and is deleted), and the write took along the live rows of skipped tombstones and of no other message that is not flagged anew |
| `SnapshotSteps.LateChangesIff` | pkg/database/memdb.go:242-289 | in terms of the operations: if and only if the last edit or deletion of a collected message after the write, if any is not refused, edits it back to the very content and time that were written, and the same of the rows taken along |
| `SnapshotSteps.NoLateChangeKeepsDurable` | pkg/database/memdb.go:242-289 | so changes before the write are safe, and later ones of messages that were not collected |
| `SnapshotSteps.LateEditIsLost` | pkg/database/memdb.go:280-289 | but an edit of a collected message between the write and the clearing is never stored: its flag is gone and the table keeps the old content |
| `SnapshotSteps.LateDeletionIsLost` | pkg/database/memdb.go:280-289 | nor is a deletion there: the flag is gone and the table keeps a live row |
| `SnapshotSteps.FirstEditLost` | pkg/database/memdb.go:280-289 | for instance: the first message of an empty store |
| `SnapshotRaces.RunRemovesIff` | pkg/database/memdb.go:1183-1205 | between snapshots a message leaves memory if and only if its channel is deleted |
| `SnapshotRaces.ForeignKeysHoldIff` | pkg/database/memdb.go:242-284 | so what was collected is all still in memory at the write if and only if no channel of a collected message was deleted since; otherwise its row refers to no channel |
| `SnapshotRaces.NextCrashesIff` | pkg/database/memdb.go:236-292 | with any channel deletions between the steps too, and a write that may fail: the next snapshot crashes if and only if a flagged message went with its channel, after a successful write one that was flagged since the collection |
| `SnapshotRaces.DeletedUnderSnapshotCrashes` | pkg/database/memdb.go:242-289 | so it does, after a write that fails, whenever a channel with a collected message is deleted before the write |
| `SnapshotRaces.FirstChannelDeletedUnderSnapshot` | pkg/database/memdb.go:242-289 | for instance: the channel of the first message of an empty store |
| `Loadable.StaysConsistent` | pkg/database/memdb.go:236-420 | steps that rewrite messages where they are, store them or drop them from memory keep memory and table together well-formed |
| `Loadable.StepConsistent` | pkg/database/memdb.go:236-420 | so every event does, failed and skipping snapshots and channel deletions, which take table rows by cascade, included |
| `Loadable.RunStaysLoadable` | pkg/database/memdb.go:71-184 | after every run the table meets what loading it requires: rows name their ID, follow their parent and share its thread root |
| `Loadable.StartsConsistent` | pkg/database/memdb.go:71-184 | and a server started from such a table begins consistent |
| `ThreadWalk.WalkMembers` | pkg/database/memdb.go:808-843 | the pruned walk returns exactly the messages that pass the filter together with all their ancestors below the queried one |
| `ThreadWalk.WalkNoRepeats` | pkg/database/memdb.go:808-843 | and none twice |
| `ThreadWalk.WalkInOrder` | pkg/database/memdb.go:808-843 | the walk is in preorder: every message before those below it, and the replies to one message, each with what is below it, as the index lists them |
| `ThreadWalk.PrecedesOneWay` | pkg/database/memdb.go:808-843 | that order is the only one: of two messages only one precedes the other |
| `ThreadWalk.WalkIsSelection` | pkg/database/memdb.go:808-843 | in the order of the full walk |
| `ThreadWalk.BeforeIsPlainFilter` | pkg/database/memdb.go:820-829 | with `beforeID` alone, pruning subtrees equals filtering the full walk by ID |
| `ThreadWalk.FilterIsPlainIff` | pkg/database/memdb.go:808-843 | for any filter: the pruned walk is the full walk filtered by ID if and only if no message passes below one that does not |
| `ThreadWalk.AfterIsPlainFilterIff` | pkg/database/memdb.go:830-833 | with `afterID` alone: if and only if every newer message of the thread answers the message asked about or another newer one |
| `ThreadWalk.AfterIsNoPlainFilter` | pkg/database/memdb.go:830-833 | for instance: a thread in which a newer reply below an older one is hidden |
| `ThreadWalk.DescendsThrough` | pkg/database/memdb.go:808-843 | the way up from a message below a reply passes through that reply |
| `ThreadWalk.OneWayUp` | pkg/database/memdb.go:808-843 | a message is below one reply of its ancestor only, so subtrees do not overlap |
| `Loading.BuildIndexExact` | pkg/database/memdb.go:143-150 | indexing the loaded rows one by one gives exact indexes |
| `Loading.BuildIndexes` | pkg/database/memdb.go:104-151 | the loop stores every listed row and builds the three indexes, in the order of the query |
| `Loading.SortMessagesByTimestamp` | pkg/database/memdb.go:187-196 | of any list of known IDs, any order by creation time of the same IDs may come out |
| `Loading.SortIndex` | pkg/database/memdb.go:159-169 | sorts every list of an index, in whatever order the lists are taken |
| `Loading.SortedOrder` | pkg/database/memdb.go:187-196 | an order by creation time exists for every list |
| `Loading.PermutedExact` | pkg/database/memdb.go:159-169 | an index stays exact when its lists are reordered |
| `Loading.CountListed` | pkg/database/memdb.go:845-861 | counts each matching listed message once and skips IDs that are gone |
| `Loading.RecomputeReplyCounts` | pkg/database/memdb.go:846-861 | gives every message the number of its live direct replies |
| `MemDb.MemDb.PostMessage` | pkg/database/memdb.go:601-656 | a missing parent consumes an ID and changes nothing else; otherwise the new row has the draft's fields, the parent's thread root or its own ID and the time of the post, stands last in its lists, is dirty, and only the parent's count goes up |
| `MemDb.PostAdds` | pkg/database/memdb.go:601-656 | the same of the operation, field by field |
| `MemDb.MemDb.SoftDeleteMessage` | pkg/database/memdb.go:883-939 | refused for a missing or deleted message; otherwise only its deletion time is set, only it becomes dirty, and its parent's count goes down unless it is 0 |
| `MemDb.MemDb.UpdateMessage` | pkg/database/memdb.go:942-997 | done exactly when the message exists, has an author, is live, and the owner is that author or none is asked for; each refusal under its own condition in the source's order, with nothing changed; when done only its content and editing time change and only it becomes dirty |
| `MemDb.MemDb.DeleteChannel` | pkg/database/memdb.go:1183-1205 | if the database deletes the channel, none of its rows stays, exactly the messages listed under it leave memory, and its own index entry; otherwise nothing changes |
| `MemDb.MemDb.DeleteUser` | pkg/database/memdb.go:1210-1239 | for an account that exists: exactly its sessions leave memory, and exactly its messages, in memory and in the table, lose their author and keep its nickname; those in memory become dirty |
| `MemDb.WithoutAuthor` | pkg/database/memdb.go:1210-1239 | the same of the operation, message by message |
| `MemDb.MemDb.Anonymize` | pkg/database/memdb.go:1226-1233 | the loop's part of this: every message of the account and no other |
| `MemSessions.SessionTable.Create` | pkg/database/memdb.go:437-463 | the session is in the table and in the entry of its account: the index stays exact |
| `MemSessions.SessionTable.Delete` | pkg/database/memdb.go:509-527 | neither the table nor the entry of its account has it any more, and an empty entry is dropped |
| `MemSessions.SessionTable.DeleteOfUser` | pkg/database/memdb.go:1217-1224 | all sessions of the account and no others go, one by one |
| `MemDb.MemDb.LoadFromSQLite` | pkg/database/memdb.go:71-184 | from any table: exactly the rows without a deletion time, as they are, listed under their channel, parent and thread root in time order, each with the number of its live replies; nothing dirty, no sessions |
| `MemDb.BuiltIsLoaded` | pkg/database/memdb.go:71-184 | if the table is well-formed, so that parents come first and share the thread root, the store starts with its whole invariant |
| `MemDb.BuiltMessages` | pkg/database/memdb.go:71-184 | the same of any store built from a table, message by message |
| `MemDb.MemDb.CountReplies` | pkg/database/memdb.go:864-874 | the cached count is the number of messages in memory that answer it and have no deletion time |
| `MemDb.MemDb.GetUnreadCountForThread` | pkg/database/memdb.go:1290-1313 | the number of messages with that thread root, without a deletion time and created after the time given, after any run |
| `MemDb.MemDb.GetUnreadCountForChannel` | pkg/database/memdb.go:1255-1286 | the same for a channel and a subchannel (or outside all) |
| `MemDb.MemDb.ListThreadReplies` | pkg/database/memdb.go:796-805 | a page is exactly the unlimited walk, cut at the limit unless that is 0, after any run |
| `MemDb.MemDb.CollectThreadReplies` | pkg/database/memdb.go:808-843 | the recursive accumulation appends the walk of the subtree, up to the limit |
| `MemDb.MemDb.BatchInsertMessages` | pkg/database/memdb.go:301-356 | all rows if the database accepts BEGIN, every statement and COMMIT, else none; the statements are the list in order, at most 500 rows of 11 columns each |
| `Upserts.ReplaceStep` | pkg/database/memdb.go:301-356 | one more INSERT OR REPLACE of a higher ID, with the cascade of the row it replaces, after a batch is the batch with that row |
| `Upserts.UpsertIsRewritten` | pkg/database/memdb.go:301-356 | so in ascending order one by one they leave the table that replacing all of them at once does |
| `Upserts.UpsertLists` | pkg/database/memdb.go:242-284 | which is the table after the snapshot |
| `MemDb.MemDb.Snapshot` | pkg/database/memdb.go:236-296 | crashes exactly for a dirty ID without message; else commits exactly if nothing is due or the database accepts it; then the dirty rows that are live or were deleted at or after now - 604800000 ms stand in the table, what hangs below them goes, all other old rows stay, nothing is dirty, and the rest is counted as skipped; else nothing changed |
| `MemDb.MemDb.CollectDirty` | pkg/database/memdb.go:242-268 | the rows of the dirty messages that are live or were not deleted before the cutoff, each once, in whatever order the set is visited; it crashes exactly for a dirty ID without message |
| `MemDb.MemDb.WriteAscending` | pkg/database/memdb.go:270-284 | the collected rows, sorted by ID, replace what they replace if the database accepts them, or nothing happens |
| `MemDb.SortById` | pkg/database/memdb.go:270-278 | an ascending list of the same rows |
| `MemDb.SpliceIsKeep` | pkg/database/memdb.go:385-414 | splicing a message out of the one list that has it removes it from the index |
| `MemDb.KeepAllTwice` | pkg/database/memdb.go:375-417 | removing messages one after another removes them all |
| `MemDb.MemDb.HardDeleteOldMessages` | pkg/database/memdb.go:360-420 | exactly the messages deleted before now - 604800000 ms leave memory and the three indexes, whose lists keep the others in order; the count is theirs |
| `MemDb.KeepAllLeaves` | pkg/database/memdb.go:376-414 | what is left of every list: the other IDs, each at its place in the old order |
| `MemDb.MemDb.SnapshotRound` | pkg/database/memdb.go:198-233 | one round of the snapshot loop: old tombstones leave memory only after a snapshot that committed |
| `Positional.ValueOfDigits` | web-client/src/BitStream.ts:33-63 | the digits of a value, bits or bytes, give the value masked to their number, of negative values in two's complement |
| `Positional.DigitAt` | web-client/src/BitStream.ts:48-62 | digit i is the value shifted by i digits |
| `Positional.MaskedDigits` | web-client/src/BitStream.ts:41-43 | masking first changes none of the digits |
| `BitStream.SetGet` | web-client/src/BitStream.ts:66-74 | setting a bit of a byte changes no other bit |
| `BitStream.ReadBackBits` | web-client/src/BitStream.ts:293-345 | bits written are read back, with the decoder's cursor at the encoder's |
| `BitStream.ReadBackBytes` | web-client/src/BitStream.ts:351-420 | so are bytes, aligned or not, although the two have different bit layouts |
| `BitStream.ReadBackOp` | web-client/src/BitStream.ts:293-453 | so is any single operation, masked to its width |
| `BitStream.RoundTrip` | web-client/src/BitStream.ts:33-190 | any sequence of mixed writes in either bit order, finished, is read back by the same sequence of reads, every value masked to its width, and after each prefix the cursors agree |
| `BitLayout.StreamLayout` | web-client/src/BitStream.ts:33-190 | every write of a sequence stands where the sizes of those before it put it: a field's bits highest or lowest first by the bit order, an integer's bytes by its byte order, whole at a byte boundary and else lowest bit first |
| `BitLayout.StreamLength` | web-client/src/BitStream.ts:230-239 | the stream is as many bytes as the sizes take, the last filled up |
| `BitLayout.FittingValueReturns` | web-client/src/BitStream.ts:293-453 | a value that fits its width is read back as it was |
| `BitStreamClasses.BitStreamEncoder.WriteBit` | web-client/src/BitStream.ts:66-86 | one bit at its place in the bit order, a full byte flushed |
| `BitStreamClasses.BitStreamEncoder.WriteBits` | web-client/src/BitStream.ts:33-61 | refuses sizes outside 1 to 64; otherwise the loop over shifts writes the low bits in the bit order |
| `BitStreamClasses.BitStreamEncoder.WriteUint8` | web-client/src/BitStream.ts:92-103 | a whole byte when aligned, else lowest bit first |
| `BitStreamClasses.BitStreamEncoder.WriteUint16` | web-client/src/BitStream.ts:108-116 | the shifts give the bytes of the value in the endianness asked for |
| `BitStreamClasses.BitStreamEncoder.WriteUint32` | web-client/src/BitStream.ts:121-133 | the same for four bytes |
| `BitStreamClasses.BitStreamEncoder.WriteUint64` | web-client/src/BitStream.ts:138-158 | the same for eight bytes |
| `BitStreamClasses.BitStreamEncoder.WriteInt8` | web-client/src/BitStream.ts:163-166 | the two's complement byte |
| `BitStreamClasses.BitStreamEncoder.WriteInt16` | web-client/src/BitStream.ts:171-174 | the two's complement bytes |
| `BitStreamClasses.BitStreamEncoder.WriteInt32` | web-client/src/BitStream.ts:179-182 | the two's complement bytes |
| `BitStreamClasses.BitStreamEncoder.WriteInt64` | web-client/src/BitStream.ts:187-190 | the two's complement bytes |
| `BitStreamClasses.BitStreamEncoder.FinishStream` | web-client/src/BitStream.ts:230-239 | all complete bytes and the partial one padded with zeros |
| `BitStreamClasses.BitStreamDecoder.ReadBit` | web-client/src/BitStream.ts:322-346 | the next bit in the bit order, or an error at the end of the stream |
| `BitStreamClasses.BitStreamDecoder.ReadBits` | web-client/src/BitStream.ts:293-316 | refuses sizes outside 1 to 64; otherwise assembles the field in the bit order |
| `BitStreamClasses.BitStreamDecoder.ReadUint8` | web-client/src/BitStream.ts:351-367 | a whole byte when aligned, else eight bits, lowest first |
| `BitStreamClasses.BitStreamDecoder.ReadUint16` | web-client/src/BitStream.ts:372-382 | the value of the bytes in the endianness asked for, or an error |
| `BitStreamClasses.BitStreamDecoder.ReadUint32` | web-client/src/BitStream.ts:387-401 | the same for four bytes |
| `BitStreamClasses.BitStreamDecoder.ReadUint64` | web-client/src/BitStream.ts:406-420 | the same for eight bytes, read in a loop |
| `BitStreamClasses.BitStreamDecoder.ReadInt8` | web-client/src/BitStream.ts:425-428 | the signed value |
| `BitStreamClasses.BitStreamDecoder.ReadInt16` | web-client/src/BitStream.ts:433-436 | the signed value |
| `BitStreamClasses.BitStreamDecoder.ReadInt32` | web-client/src/BitStream.ts:441-444 | the signed value |
| `BitStreamClasses.BitStreamDecoder.ReadInt64` | web-client/src/BitStream.ts:449-453 | the signed value |
| `Wire.NumberBack` | pkg/protocol/types.go:31-79 | an unsigned integer written big-endian is read back, masked to its width |
| `Wire.Int64Back` | pkg/protocol/types.go:82-90 | a signed 64-bit integer is read back |
| `Wire.EightBytes` | pkg/protocol/types.go:64-84 | the eight bytes of a 64-bit integer, highest first, as the shifts give them |
| `Wire.FourByteNumber` | pkg/protocol/types.go:56-62 | the number that four bytes stand for |
| `Wire.BoolBack` | pkg/protocol/types.go:93-107 | a boolean is read back |
| `Wire.TextBack` | pkg/protocol/types.go:111-145 | a string of at most 65535 bytes is read back |
| `Wire.TextAt` | pkg/protocol/types.go:129-145 | a string is read exactly when its two length bytes and so many bytes are there |
| `Wire.OptionalAt` | pkg/protocol/types.go:176-191 | an optional value is absent exactly if its presence byte is 0, and present if that is anything else and eight bytes follow |
| `Wire.OptionalTextAt` | pkg/protocol/types.go:195-223 | the same for an optional string |
| `Wire.OptionalTimeAt` | pkg/protocol/types.go:238-253 | the same for an optional time |
| `Wire.Writer.WriteString` | pkg/protocol/types.go:111-126 | refuses a longer string and then writes nothing |
| `Wire.Writer.WriteInt64` | pkg/protocol/types.go:82-84 | writes the two's complement bytes |
| `Wire.Writer.WriteOptionalUint64` | pkg/protocol/types.go:164-173 | a presence byte, then the value if there is one |
| `Wire.Writer.WriteOptionalTimestamp` | pkg/protocol/types.go:226-235 | the same for a time in milliseconds |
| `Wire.Reader.ReadString` | pkg/protocol/types.go:129-145 | the string that stands at the cursor and the position after it, or an error |
| `Wire.Reader.ReadOptionalUint64` | pkg/protocol/types.go:176-191 | the optional value that stands at the cursor, or an error |
| `Wire.Reader.ReadOptionalTimestamp` | pkg/protocol/types.go:238-253 | the same for a time |
| `Framing.FrameRoundTrip` | pkg/protocol/frame.go:39-137 | a frame is read back, whatever follows, exactly when it is within the size limit |
| `Framing.WrappedFrameUnreadable` | pkg/protocol/frame.go:39-84 | for instance: a payload of 2^32 - 3 bytes gets the length 0, which the writer lets through and the reader refuses |
| `Framing.EncodeFrame` | pkg/protocol/frame.go:39-84 | refuses exactly the frames whose 32-bit length exceeds 1048576; otherwise appends the four length bytes, version, type, flags and payload |
| `Framing.DecodeFrame` | pkg/protocol/frame.go:87-137 | the frame at the cursor, byte by byte, or the error for too long, too short or truncated, each under its own condition |
| `Reassembly.NothingLost` | web-client/src/main.ts:514-563 | the frames found and the bytes held back are the stream; each frame is four length bytes and as many bytes as they say, and the bytes held back are fewer |
| `Reassembly.CutAnywhere` | web-client/src/main.ts:514-563 | cutting what has arrived and going on with the rest is cutting the whole stream |
| `Reassembly.AnyFragmentation` | web-client/src/main.ts:514-563 | for every frame sequence of the server and every split into fragments, empty ones included, exactly those frames come out in order and nothing is held back |
| `Reassembly.SoFarAPrefix` | web-client/src/main.ts:514-563 | while bytes are missing, the frames so far are the first of the server's, and nothing is lost |
| `Reassembly.FittingIsLongest` | web-client/src/main.ts:485-502 | a tick releases the longest run of waiting frames that fits the allowance |
| `Reassembly.TickReleasesIff` | web-client/src/main.ts:476-505 | a tick releases something exactly when the oldest frame fits into the time since the last tick |
| `Reassembly.LargeFrameBlocks` | web-client/src/main.ts:476-505 | a frame too large for every interval blocks the queue for any number of ticks |
| `Reassembly.SteadyBlocksIff` | web-client/src/main.ts:476-505 | under a timer that ticks regularly the queue is blocked, for any number of ticks, exactly when its first frame is larger than what one interval allows |
| `Reassembly.SlowConnectionBlocks` | web-client/src/main.ts:370-505 | for instance: at the slowest speed on offer, 1800 bytes a second, with the tick of 100 ms, a frame of 200 bytes never arrives |
| `Reassembly.Receiver.OnMessage` | web-client/src/main.ts:381-386 | the frames found and the bytes held back are those of all bytes received; without throttle the frames are handled at once |
| `Reassembly.Receiver.HandleFragment` | web-client/src/main.ts:514-563 | the loop takes every complete frame off the buffer and leaves the rest with the right expected length |
| `Reassembly.Receiver.TakeFitting` | web-client/src/main.ts:485-502 | takes the frames that fit off the front of the queue and counts their bytes |
| `Reassembly.Receiver.ProcessReceiveBuffer` | web-client/src/main.ts:476-512 | hands over, in order of arrival, the longest run of waiting frames that the bandwidth of the time since the last tick allows, keeps handled plus waiting equal to all found, and the throttled count equal to the bytes handed over |
| `Codec.FieldBack` | pkg/protocol/types.go:16-284 | a field is read back by either side from where it stands |
| `Codec.RecordBack` | pkg/protocol/messages.go:160-4260 | so is a record of fields, of which some are there only when an earlier flag is set; a field that is not there is read as zero |
| `Codec.RowsBackUpTo` | pkg/protocol/messages.go:505-590 | so is a list of records |
| `Codec.EitherSideReads` | pkg/protocol/messages.go:160-4260 | a message is read, in Go and in TypeScript, with absent fields zero and whatever bytes follow, when its items fit their count; when they do not, never with as many items |
| `Codec.ReadsBackIff` | pkg/protocol/messages.go:160-4260 | reading back is the identity exactly when the items fit their count and every field that is not there is zero |
| `Codec.WrappedCountReadsNone` | pkg/protocol/messages.go:505-590 | with one item more than the count can say, a message without items is read |
| `Layouts.AllGood` | pkg/protocol/messages.go:160-4260 | every message of the protocol has a layout to which these theorems apply |
| `Layouts.GoReadsBackIff` | pkg/protocol/messages.go:160-4260 | any message of the protocol, encoded by Go, is decoded by Go to itself exactly when its list fits the count and the fields that its flag leaves out are zero |
| `Layouts.FlatReadsBack` | pkg/protocol/messages.go:787-849 | every message without list or flag is, whatever it holds, as is the creation of a channel with or without a description |
| `Layouts.OnSuccessReadsBackIff` | pkg/protocol/messages.go:383-1511 | a message with fields that only a success carries is, exactly when it is a success or these are zero |
| `Layouts.RefusedRegistrationLosesId` | pkg/protocol/messages.go:383-434 | for instance: a refused registration that names user 7 arrives naming user 0 |
| `Layouts.RegisterResponseIff` | pkg/protocol/messages.go:383-434 | a registration: no user ID without success |
| `Layouts.ChannelCreatedIff` | pkg/protocol/messages.go:852-943 | a channel creation: ID, name, description, type and retention only with success |
| `Layouts.MessageEditedIff` | pkg/protocol/messages.go:1353-1421 | an edit: time and new content only with success |
| `Layouts.MessageDeletedIff` | pkg/protocol/messages.go:1452-1511 | a deletion: the time only with success |
| `Layouts.NicknameLimits` | pkg/protocol/messages.go:278-288 | a nickname can be sent exactly with 3 to 20 bytes, and then it arrives |
| `Layouts.ContentLimits` | pkg/protocol/messages.go:1305-1318 | an edited content exactly with 1 to 4096 bytes, and then it arrives |
| `Layouts.AuthResponseIff` | pkg/protocol/messages.go:192-271 | a login: user ID, nickname and flags only with success |
| `Layouts.FullChannelListArrivesEmpty` | pkg/protocol/messages.go:505-590 | for instance: a list of 65536 channels arrives as an empty one |
| `GoCodec.EncodeTo` | pkg/protocol/messages.go:160-4260 | succeeds exactly when all texts are within their limits, and then appends the message's bytes |
| `GoCodec.Decode` | pkg/protocol/messages.go:160-4260 | the message whose bytes stand at the start of the payload, or an error for a truncated payload or a text outside its limits |
| `Records.ChannelListRead` | pkg/protocol/messages.go:547-604 | a channel list is a count and that many channels, for either side |
| `Records.MessageListRead` | pkg/protocol/messages.go:1098-1179 | a message list is its page, a count and that many messages, for either side |
| `Records.ChatRead` | pkg/protocol/messages.go:1751-1808 | reading a message field by field, as a decoder does, is reading the record of its layout |
| `Records.ConfigRead` | pkg/protocol/messages.go:1655-1707 | the same for the server configuration |
| `GoMessages.EncodeChannelList` | pkg/protocol/messages.go:505-537 | the count and the fields of each channel, written as the source's own sequence of writes: exactly the bytes of the layout, refused exactly for a text over its limit |
| `GoMessages.EncodeNewMessage` | pkg/protocol/messages.go:1712-1741 | the same for a chat message, its ten fields in order |
| `GoMessages.EncodeMessageList` | pkg/protocol/messages.go:1040-1086 | the same for a page of messages |
| `GoMessages.EncodePost` | pkg/protocol/messages.go:1190-1209 | the same for a post: channel, optional subchannel, optional parent, content; one that is empty or over 4096 bytes is refused and nothing is written |
| `GoMessages.EncodeConfig` | pkg/protocol/messages.go:1619-1645 | the same for the server configuration, its nine fields in order, which is never refused |
| `GoMessages.EncodeAuth` | pkg/protocol/messages.go:200-222 | the same for a login: user ID and nickname only on success, flags only on success and if set |
| `GoMessages.DecodeChannelList` | pkg/protocol/messages.go:547-604 | the source's own sequence of reads gives what reading by layout gives, or an error exactly when that does |
| `GoMessages.DecodeNewMessage` | pkg/protocol/messages.go:1751-1808 | the same for a chat message |
| `GoMessages.DecodeMessageList` | pkg/protocol/messages.go:1098-1179 | the same for a page of messages |
| `GoMessages.DecodePost` | pkg/protocol/messages.go:1219-1255 | the same for a post, whose length is checked again |
| `GoMessages.DecodeConfig` | pkg/protocol/messages.go:1655-1707 | the same for the server configuration |
| `GoMessages.DecodeAuth` | pkg/protocol/messages.go:231-271 | the same for a login: what is absent is zero, and a byte after the text is the flags |
| `TsCodec.AlignedWrite` | web-client/src/SuperChatCodec.ts:1141-1188 | whole-byte writes of the bit stream append the big-endian bytes, of negative numbers too |
| `TsCodec.AlignedRead` | web-client/src/SuperChatCodec.ts:1196-1259 | and whole-byte reads take them |
| `TsCodec.Encode` | web-client/src/SuperChatCodec.ts:1141-1188 | the generated encoder, through the bit stream class, writes the same bytes as the Go encoder, and of a text that Go would refuse the bytes of the layout all the same |
| `TsCodec.Decode` | web-client/src/SuperChatCodec.ts:1196-1259 | the generated decoder reads the message that stands in the payload, or fails at its end |
| `TsCodec.WebClientLayouts` | web-client/src/SuperChatCodec.ts:48-1652 | every message of the web client has only fields that the generated code handles at byte boundaries |
| `TsMessages.WritesAligned` | web-client/src/SuperChatCodec.ts:688-745 | at a byte boundary each whole-byte write of the bit stream appends the big-endian bytes |
| `TsMessages.ReadsAligned` | web-client/src/SuperChatCodec.ts:688-745 | and each whole-byte read takes them |
| `TsMessages.ChatMatches` | web-client/src/SuperChatCodec.ts:452-494 | a message with another `present` number is written differently from every record of the layout, wherever it stands |
| `TsMessages.EncodeChannelList` | web-client/src/SuperChatCodec.ts:755-785 | the generated encoder's own sequence of writes, with any count field, gives exactly the bytes of the layout that Go writes if and only if the count is the length of the list modulo 65536 |
| `TsMessages.EncodeNewMessage` | web-client/src/SuperChatCodec.ts:452-494 | the same for a chat message, whose bytes are given for any `present` numbers, and are those of the layout if and only if each of them is 1 with a value, or a multiple of 256 |
| `TsMessages.EncodeMessageList` | web-client/src/SuperChatCodec.ts:1134-1188 | the same for a page of messages, its count included |
| `TsMessages.EncodePost` | web-client/src/SuperChatCodec.ts:327-353 | the same for a post |
| `TsMessages.EncodeConfig` | web-client/src/SuperChatCodec.ts:1609-1630 | the same for the server configuration |
| `TsMessages.DecodeChannelList` | web-client/src/SuperChatCodec.ts:788-829 | the generated decoder's own sequence of reads gives what reading by the same layout gives, or fails exactly when that does |
| `TsMessages.DecodeNewMessage` | web-client/src/SuperChatCodec.ts:497-543 | the same for a chat message |
| `TsMessages.DecodeMessageList` | web-client/src/SuperChatCodec.ts:1191-1259 | the same for a page of messages, whose count is the length of its list |
| `TsMessages.DecodePost` | web-client/src/SuperChatCodec.ts:356-383 | the same for a post, of whatever length |
| `TsMessages.DecodeConfig` | web-client/src/SuperChatCodec.ts:1633-1652 | the same for the server configuration |
| `TsCodec.BothSidesAgree` | web-client/src/SuperChatCodec.ts:48-1652 | every shared message, encoded by either side, is decoded by both to the same fields |
| `TsCodec.FrameHeaderRead` | web-client/src/SuperChatCodec.ts:74-88 | the client reads length, version, type and flags of any frame the server sends, and the payload is what follows byte 7 |
| `ThreadSort.ExchangedSorts` | pkg/client/format.go:141-151 | the exchange sort orders by time and loses and invents nothing |
| `ThreadSort.PassIsSweep` | pkg/client/format.go:144-148 | the inner loop carries one reply along the rest of the list |
| `ThreadSort.SweepTurns` | pkg/client/format.go:144-148 | what one pass does to the replies of one time: the first is put into the first gap that an older reply leaves, or out in front |
| `ThreadSort.ExchangedOut` | pkg/client/format.go:141-151 | in the end, each older reply has turned the simultaneous replies before it round by one place |
| `ThreadSort.StableIff` | pkg/client/format.go:141-151 | the replies of one time keep their order if and only if, for every p from 1, the number of older replies that stand after exactly p of them is a multiple of p |
| `ThreadSort.ExchangeNotStable` | pkg/client/format.go:141-151 | two simultaneous replies that it exchanges |
| `ThreadSort.ExchangeStableWithoutTies` | pkg/client/format.go:141-151 | so it is stable when no two simultaneous replies stand before an older one |
| `ThreadSort.ExchangeSort` | pkg/client/format.go:143-150 | the nested loops over the array in place |
| `ThreadTree.ChainUnique` | pkg/client/format.go:154-166 | there is one chain of replies from the root to a reply, whatever cycles there are among others |
| `ThreadTree.ChainShort` | pkg/client/format.go:154-166 | unless one comes back to an ID it has passed, no chain is longer than the list, whatever IDs occur twice |
| `ThreadTree.EndsIff` | pkg/client/format.go:154-200 | the chains that both traversals follow are bounded in length if and only if none comes back to an ID it has passed |
| `ThreadTree.NamedIsLoopFree` | pkg/client/format.go:154-200 | which none does with distinct IDs other than the root's, whatever cycles there are elsewhere |
| `ThreadTree.SelfAnswerNeverEnds` | pkg/client/format.go:154-166 | for instance: a reply that answers itself has chains of every length |
| `ThreadTree.PreorderMembers` | pkg/client/format.go:127-169 | the order lists exactly the replies that hang below the root, whatever IDs occur twice |
| `ThreadTree.PreorderOrdered` | pkg/client/format.go:127-169 | with distinct IDs each once, and siblings oldest first |
| `ThreadTree.OrderMatchesDepths` | pkg/client/format.go:127-201 | with the depths of the other traversal: the depth rises by at most one from entry to entry, and each entry answers the root at depth 1 or the latest earlier entry one level up |
| `ThreadTree.BuildChildren` | pkg/client/format.go:133-139 | the map gives every parent its replies, in the order of the list |
| `ThreadTree.SortGroups` | pkg/client/format.go:142-151 | sorts every group, in whatever order the map is visited |
| `ThreadTree.Traverse` | pkg/client/format.go:155-163 | the closure appends the subtree in preorder |
| `ThreadTree.SortThreadReplies` | pkg/client/format.go:127-169 | terminates when no chain comes back to an ID it has passed, and returns that order |
| `ThreadTree.AddChild` | pkg/client/format.go:194-197 | a reply met by the search gets the depth of the chain above and one more, the length of some chain to it and not less than any met so far |
| `ThreadTree.CalculateThreadDepths` | pkg/client/format.go:173-201 | terminates under the same condition and gives each ID below the root the length of the longest chain to it, and nothing to any other; with distinct IDs, of the only one |
| `WriteBuffer.CoalescedIsReplay` | pkg/database/write_buffer.go:123-165 | last activities, last nicknames and all deletions leave the table that the operations leave one by one in arrival order |
| `WriteBuffer.ReplayLeaves` | pkg/database/write_buffer.go:101-165 | what a run of operations leaves of a session: it stays unless one deletes it, with the last activity and the last nickname given, everything else as it was |
| `WriteBuffer.FlushIsReplayIff` | pkg/database/write_buffer.go:335-393 | whichever statements fail, a flush is a replay exactly when each UPDATE that failed would have changed no session that is to stay, and a DELETE that failed would have deleted none |
| `WriteBuffer.AllDoneIsReplay` | pkg/database/write_buffer.go:335-393 | it is one when every statement succeeds: each session has its last activity and nickname, or is gone |
| `WriteBuffer.TooManyDeletionsAreLost` | pkg/database/write_buffer.go:369-393 | 32767 deletions in one interval: the DELETE has one parameter too many and a session to be deleted stays |
| `WriteBuffer.TooManyParentsAreRefused` | pkg/database/write_buffer.go:395-437 | replies to 32767 stored messages in one interval: the parent lookup has one parameter too many and every reply is refused |
| `WriteBuffer.UndeletedKeeps` | pkg/database/write_buffer.go:187-256 | queues whose deletions were dropped still coalesce to the same activities and nicknames |
| `WriteBuffer.AnswerOne` | pkg/database/write_buffer.go:317-328 | a request answered has had no result before, and success means that its own row is stored |
| `WriteBuffer.AnswerChunk` | pkg/database/write_buffer.go:303-330 | all requests of one statement are answered, and told the same |
| `WriteBuffer.InsertInChunks` | pkg/database/write_buffer.go:284-330 | the chunks partition the batch within the parameter limit; every request gets one result, failure included, and the table grows by exactly the successful rows; no failure is reported exactly when every statement was accepted |
| `WriteBuffer.KeepsRooted` | pkg/database/write_buffer.go:462-501 | a stored message's thread root is itself or its parent's |
| `WriteBuffer.WriteBuffer.CreateSession` | pkg/database/write_buffer.go:101-120 | queues the request under the next result index |
| `WriteBuffer.WriteBuffer.PostMessage` | pkg/database/write_buffer.go:137-158 | the same for a message, its subchannel included |
| `WriteBuffer.WriteBuffer.UpdateSessionActivity` | pkg/database/write_buffer.go:123-127 | the map stays what the queued operations coalesce to |
| `WriteBuffer.WriteBuffer.UpdateSessionNickname` | pkg/database/write_buffer.go:130-134 | the same for nicknames |
| `WriteBuffer.WriteBuffer.DeleteSession` | pkg/database/write_buffer.go:161-165 | the same for deletions |
| `WriteBuffer.WriteBuffer.FlushSessionCreates` | pkg/database/write_buffer.go:260-333 | one result each: refused exactly for a dead connection, or told of a failed statement, else the request's own row, field by field, under a new ID, in request order; all are stored if the database accepts all |
| `WriteBuffer.WriteBuffer.FlushActivities` | pkg/database/write_buffer.go:335-350 | one update a session, in any order of the map: exactly the sessions in the table whose UPDATE was accepted have the new activity, and nothing else of them changed |
| `WriteBuffer.WriteBuffer.FlushNicknames` | pkg/database/write_buffer.go:352-367 | the same for nicknames |
| `WriteBuffer.WriteBuffer.FlushDeletions` | pkg/database/write_buffer.go:369-393 | one statement: exactly the sessions given leave the table if it is accepted and has at most 32766 parameters, else none |
| `WriteBuffer.WriteBuffer.PrepareMessages` | pkg/database/write_buffer.go:448-501 | the rows to insert, in request order under new IDs, and the refusals of the replies whose parent is not in the table |
| `WriteBuffer.WriteBuffer.FlushMessages` | pkg/database/write_buffer.go:395-566 | one result each: all are refused if the parents cannot be looked up; else refused exactly for a parent not stored before, or told of a failed statement, else the request's own row, field by field, with its parent's thread root; all but orphans are stored if the database accepts all |
| `WriteBuffer.WriteBuffer.Flush` | pkg/database/write_buffer.go:187-575 | for any answers of the database: if the transaction does not begin, session requests get no answer, message requests a refusal, deletions are dropped and updates stay queued. Else all queues are emptied and every request answered once; it commits exactly if the database does, and then the sessions are as the accepted statements leave them, what the operations leave one by one when all were accepted; after a rollback the tables are as before |
| `WriteBuffer.WriteBuffer.Transaction` | pkg/database/write_buffer.go:258-566 | the five sections in their order, each on the table that the one before left |
| `WriteBuffer.RolledBackSuccessIsLost` | pkg/database/write_buffer.go:303-575 | a request told that its session is stored, by a flush that is rolled back, has an ID that is in no table |
| `RateLimits.AfterTwice` | pkg/server/handlers.go:2347-2354 | pruning with an earlier cutoff first changes nothing |
| `RateLimits.PruningIsInvisible` | pkg/server/handlers.go:2347-2354 | from the last cutoff on the pruned table knows as much as the full history of accepted requests |
| `RateLimits.AcceptedIff` | pkg/server/handlers.go:2326-2367 | for non-decreasing times a request is accepted exactly when fewer than the limit of the client's accepted requests are less than 3600000 ms old, counted as positions in its history |
| `RateLimits.AcceptedAfterAnHour` | pkg/server/handlers.go:2326-2367 | a client whose last accepted request is an hour old or more is accepted, if the limit is not 0 |
| `RateLimits.AtMostLimitInAnyHour` | pkg/server/handlers.go:2326-2367 | no hour, wherever it is put, holds more accepted requests of a client than the limit, counted as positions in its history |
| `RateLimits.DiscoveryLimiter.CheckDiscoveryRateLimit` | pkg/server/handlers.go:2326-2367 | 30 an hour for each host: accepted exactly when fewer than 30 stored times are above now - 3600000; then those times, in order, and now are stored, or, refused, those times alone |
| `RateLimits.RegistrationLimiter.CheckAutoRegisterRateLimit` | pkg/server/ssh.go:498-539 | the same with 10 an hour for each address; an address that does not parse is let through |
| `RateLimits.PruneInPlace` | pkg/server/ssh.go:522-528 | overwriting the array while it is read keeps exactly the times above the cutoff, in order, element by element |
| `Migrations.RestIsPending` | pkg/database/migrations.go:151-172 | when the first k migrations have been applied exactly the others are pending |
| `Migrations.InterruptedRuns` | pkg/database/migrations.go:145-193 | after any number of runs interrupted anywhere the database is as after the first migrations, each applied once and in ascending order |
| `Migrations.ResumedRunsAgree` | pkg/database/migrations.go:145-193 | one run left alone then ends where an uninterrupted first run ends |
| `Migrations.UpToDateIff` | pkg/database/migrations.go:151-172 | a run brings any database up to date exactly when no migration at or below its highest version was skipped |
| `Migrations.NotYetApplied` | pkg/database/migrations.go:145-193 | a pending migration's version is not recorded yet when its turn comes |
| `Migrations.SkippedMigrationStays` | pkg/database/migrations.go:151-172 | for instance: a database made with migrations 1 and 3 never gets migration 2, over any number of interrupted runs |
| `Migrations.Runner.ApplyMigration` | pkg/database/migrations.go:196-232 | script and record together, exactly if all goes well and the version is not recorded yet, or neither; foreign keys are on again afterwards |
| `Migrations.Runner.RunMigrations` | pkg/database/migrations.go:145-193 | applies the pending migrations in order and stops at the first that fails, and only there |

## Left out

- SQL text, WAL, pragmas and the query planner: a table is a map of rows with keyed upsert, cascades and atomic commit. Whether a statement fails, on a foreign key for instance, is an arbitrary answer.
- The other tables that a deletion reaches by cascade (subchannels, versions, subscriptions, keys, bans), and the in-memory list of channels.
- Sockets, TLS, SSH, WebSocket libraries, file I/O, logging and metrics: a write succeeds or fails arbitrarily; closing a connection has no effect on the model.
- Races between the locks of MemDb, SessionManager and the server: each method is atomic there. Only the snowflake generator, the broadcast workers and the three steps of a snapshot are interleaved.
- Shared pointers to a session or a message: both are values in the map of their owner, so a holder of an old pointer that still sees updates is not modelled. The slices of `childrenMap` and of the registration limiter are copied to an array, changed in place there and stored back.
- Idle clean-up of sessions, their rows in the database beyond the write buffer, and the encoding failures of presence messages.
- Unread state, root message lists and the read-only accessors of the store: they add only easy members.
- `SnapshotSteps.StepsDurableIff`: between the three steps it has posts, edits, deletions and account deletions, but no second snapshot and no channel deletion: with those, `SnapshotRaces` says when the write fails and when the next snapshot crashes, not when the table agrees. The write is one step, where the source reads row after row without a lock.
- The hard delete is one step with the snapshot before it, although the store is unlocked in between; fewer than 2^32 messages are in memory at once.
- `Snowflake.IdsUniqueAndOrdered`: assumes that a clock read after an exhaustion wait is later than the last timestamp, which a clock that never decreases gives, and that timestamps fit 41 bits. `Snowflake.IdsInOrderIff` has no such assumption about the clock.
- `ThreadTree.SortThreadReplies`: requires that no chain comes back to an ID it has passed, because otherwise the original does not return. The same for `CalculateThreadDepths`.
- In `BitStream.ts` floating point, `seek`, the position stack, `peek` and `finishBits` with its bit counter.
- Strings are byte sequences: UTF-8 encoding and decoding in the client are not modelled.
- Encoders and decoders other than those of the six messages in `GoMessages` and `TsMessages`: each is represented by the layout of its message, for both languages, and by the generic loop over a layout.
- AuthResponse and RegisterResponse have different layouts on the two sides, so nothing is claimed across languages.
- In the generic loop of `TsCodec.Encode` a message value's count field is taken to be the length of its list.
- Parsing of addresses in both rate limiters: the host or the parsed address is given.
- The backup and the file names of migrations: the list is given, sorted, with distinct versions; what a script does is the list of scripts executed.
- The receive allowance is compared exactly, where the client divides floating-point numbers. Outgoing throttling and everything visual in the clients.
