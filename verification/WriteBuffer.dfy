/** Batched writes (pkg/database/write_buffer.go:101-165, 187-563): session updates are coalesced
    in maps until the next flush, which applies them in its own order; session and message
    inserts are chunked, and each request waiting for one gets its result. */
module WriteBuffer {
  import opened Wrappers

  /** SQLite's limit on the parameters of one statement. */
  const MAX_PARAMETERS: nat := 32766
  const SESSION_COLUMNS: nat := 6
  const SESSION_CHUNK: nat := 5461
  const MESSAGE_COLUMNS: nat := 9
  const MESSAGE_CHUNK: nat := 3640

  datatype SessionRow = SessionRow(userId: Option<nat>, nickname: string, connType: string,
                                   connectedAt: int, lastActivity: int)

  type Table = map<nat, SessionRow>

  // ---------------------------------------------------------------- operations and their replay

  datatype Op = Activity(id: nat, at: int) | Nickname(id: nat, nickname: string) | Delete(id: nat)

  /** One statement of its own; on a session that is gone it does nothing. */
  function Apply(t: Table, op: Op): Table {
    if op.id !in t then t
    else
      match op
      case Activity(id, at) => t[id := t[id].(lastActivity := at)]
      case Nickname(id, nickname) => t[id := t[id].(nickname := nickname)]
      case Delete(id) => t - {id}
  }

  function Replay(t: Table, ops: seq<Op>): Table {
    if ops == [] then t else Apply(Replay(t, ops[..|ops| - 1]), ops[|ops| - 1])
  }

  /** `op` is the last of its kind on session `id`. */
  ghost predicate LastActivity(ops: seq<Op>, id: nat, i: nat) {
    && i < |ops| && ops[i].Activity? && ops[i].id == id
    && forall j :: i < j < |ops| ==> !(ops[j].Activity? && ops[j].id == id)
  }

  ghost predicate LastNickname(ops: seq<Op>, id: nat, i: nat) {
    && i < |ops| && ops[i].Nickname? && ops[i].id == id
    && forall j :: i < j < |ops| ==> !(ops[j].Nickname? && ops[j].id == id)
  }

  /** What a run of operations leaves of session `id`: it stays unless one deletes it, with the last
      activity and the last nickname given, or those it had, and everything else as it was. */
  ghost predicate LeavesSession(t: Table, ops: seq<Op>, u: Table, id: nat) {
    && (id in u <==> id in t && Delete(id) !in ops)
    && (id in u ==>
          && u[id].userId == t[id].userId && u[id].connType == t[id].connType && u[id].connectedAt == t[id].connectedAt
          && (forall i: nat :: LastActivity(ops, id, i) ==> u[id].lastActivity == ops[i].at)
          && ((forall op :: op in ops && op.Activity? ==> op.id != id) ==> u[id].lastActivity == t[id].lastActivity)
          && (forall i: nat :: LastNickname(ops, id, i) ==> u[id].nickname == ops[i].nickname)
          && ((forall op :: op in ops && op.Nickname? ==> op.id != id) ==> u[id].nickname == t[id].nickname))
  }

  lemma {:induction false} ReplayLeaves(t: Table, ops: seq<Op>, id: nat)
    ensures LeavesSession(t, ops, Replay(t, ops), id)
  {
    if ops != [] {
      var n: nat := |ops| - 1;
      ReplayLeaves(t, ops[..n], id);
      assert ops == ops[..n] + [ops[n]];
      assert Delete(id) in ops <==> Delete(id) in ops[..n] || ops[n] == Delete(id);
      forall i: nat | i < n && LastActivity(ops, id, i) ensures LastActivity(ops[..n], id, i) {
      }
      forall i: nat | i < n && LastNickname(ops, id, i) ensures LastNickname(ops[..n], id, i) {
      }
    }
  }

  function Activities(ops: seq<Op>): map<nat, int> {
    if ops == [] then map[]
    else
      var m, op := Activities(ops[..|ops| - 1]), ops[|ops| - 1];
      if op.Activity? then m[op.id := op.at] else m
  }

  function Nicknames(ops: seq<Op>): map<nat, string> {
    if ops == [] then map[]
    else
      var m, op := Nicknames(ops[..|ops| - 1]), ops[|ops| - 1];
      if op.Nickname? then m[op.id := op.nickname] else m
  }

  function Deletions(ops: seq<Op>): set<nat> {
    if ops == [] then {}
    else
      var s, op := Deletions(ops[..|ops| - 1]), ops[|ops| - 1];
      if op.Delete? then s + {op.id} else s
  }

  // ---------------------------------------------------------------- the flush, section by section

  function SetActivities(t: Table, updates: map<nat, int>): Table {
    map id | id in t :: if id in updates then t[id].(lastActivity := updates[id]) else t[id]
  }

  function SetNicknames(t: Table, updates: map<nat, string>): Table {
    map id | id in t :: if id in updates then t[id].(nickname := updates[id]) else t[id]
  }

  function Without(t: Table, gone: set<nat>): Table {
    map id | id in t && id !in gone :: t[id]
  }

  function Coalesced(t: Table, ops: seq<Op>): Table {
    Without(SetNicknames(SetActivities(t, Activities(ops)), Nicknames(ops)), Deletions(ops))
  }

  /** Coalescing changes nothing: last activities, then last nicknames, then all deletions
      leave the table that the operations leave one by one in the order they came. */
  lemma {:induction false} CoalescedIsReplay(t: Table, ops: seq<Op>)
    ensures Coalesced(t, ops) == Replay(t, ops)
  {
    if ops == [] {
      assert Coalesced(t, ops) == t;
    } else {
      CoalescedIsReplay(t, ops[..|ops| - 1]);
      OneMoreOp(t, ops[..|ops| - 1], ops[|ops| - 1], ops);
    }
  }

  lemma OneMoreOp(t: Table, before: seq<Op>, op: Op, ops: seq<Op>)
    requires ops != [] && before == ops[..|ops| - 1] && op == ops[|ops| - 1]
    ensures Coalesced(t, ops) == Apply(Coalesced(t, before), op)
  {
    var a, b := Coalesced(t, ops), Apply(Coalesced(t, before), op);
    forall id: nat
      ensures id in a <==> id in b
      ensures id in a && id in b ==> a[id] == b[id]
    {
    }
  }

  /** The updates that were carried out: a statement may fail, and is not tried again. */
  function Only<T>(updates: map<nat, T>, done: set<nat>): map<nat, T> {
    map id | id in updates && id in done :: updates[id]
  }

  /** What a flush leaves when of its UPDATEs those of `acts` and `nicks` succeed, and its DELETE,
      a single statement that is not chunked, does or does not. */
  function FlushedSessions(t: Table, ops: seq<Op>, acts: set<nat>, nicks: set<nat>, deleted: bool): Table {
    var updated := SetNicknames(SetActivities(t, Only(Activities(ops), acts)), Only(Nicknames(ops), nicks));
    if deleted then Without(updated, Deletions(ops)) else updated
  }

  /** For one session that is to stay, the failed UPDATEs make no difference. */
  predicate NoneMissed(t: Table, ops: seq<Op>, acts: set<nat>, nicks: set<nat>, id: nat)
    requires id in t
  {
    && (id in Activities(ops) && id !in acts ==> t[id].lastActivity == Activities(ops)[id])
    && (id in Nicknames(ops) && id !in nicks ==> t[id].nickname == Nicknames(ops)[id])
  }

  lemma OneSessionFlushed(t: Table, ops: seq<Op>, acts: set<nat>, nicks: set<nat>, deleted: bool, id: nat)
    requires id in t && id !in Deletions(ops)
    ensures var got, want := FlushedSessions(t, ops, acts, nicks, deleted), Coalesced(t, ops);
      id in got && id in want && (got[id] == want[id] <==> NoneMissed(t, ops, acts, nicks, id))
  {
    hide Activities, Nicknames, Deletions;
  }

  lemma SessionsLeft(t: Table, ops: seq<Op>, acts: set<nat>, nicks: set<nat>, deleted: bool)
    ensures Coalesced(t, ops).Keys == t.Keys - Deletions(ops)
    ensures FlushedSessions(t, ops, acts, nicks, deleted).Keys == if deleted then t.Keys - Deletions(ops) else t.Keys
  {
    hide Activities, Nicknames, Deletions;
  }

  /** A flush is a replay exactly when each statement that failed would have changed no session
      that is to stay, and a failed DELETE would have deleted none. */
  lemma FlushIsReplayIff(t: Table, ops: seq<Op>, acts: set<nat>, nicks: set<nat>, deleted: bool)
    ensures FlushedSessions(t, ops, acts, nicks, deleted) == Replay(t, ops) <==>
      && (deleted || forall id :: id in Deletions(ops) ==> id !in t)
      && forall id :: id in t && id !in Deletions(ops) ==> NoneMissed(t, ops, acts, nicks, id)
  {
    hide Deletions, Replay, NoneMissed, Coalesced, FlushedSessions;
    CoalescedIsReplay(t, ops);
    SessionsLeft(t, ops, acts, nicks, deleted);
    var got, want, gone := FlushedSessions(t, ops, acts, nicks, deleted), Coalesced(t, ops), Deletions(ops);
    forall id | id in t && id !in gone
      ensures id in got && id in want && (got[id] == want[id] <==> NoneMissed(t, ops, acts, nicks, id))
    {
      OneSessionFlushed(t, ops, acts, nicks, deleted, id);
    }
    if id :| id in gone && id in t {
      assert id !in want.Keys && (id in got.Keys <==> !deleted);
    } else {
      assert got.Keys == want.Keys == t.Keys;
    }
  }

  /** When every statement succeeds it is one. */
  lemma AllDoneIsReplay(t: Table, ops: seq<Op>)
    ensures FlushedSessions(t, ops, Activities(ops).Keys, Nicknames(ops).Keys, true) == Replay(t, ops)
    ensures forall id :: LeavesSession(t, ops, Replay(t, ops), id)
  {
    hide Activities, Nicknames, Deletions, Replay, FlushedSessions, LeavesSession;
    FlushIsReplayIff(t, ops, Activities(ops).Keys, Nicknames(ops).Keys, true);
    forall id ensures LeavesSession(t, ops, Replay(t, ops), id) {
      ReplayLeaves(t, ops, id);
    }
  }

  function DeleteAll(n: nat): seq<Op> {
    if n == 0 then [] else DeleteAll(n - 1) + [Delete(n - 1)]
  }

  lemma {:induction false} DeleteAllDeletes(n: nat)
    ensures forall id: nat :: id in Deletions(DeleteAll(n)) <==> id < n
    ensures |Deletions(DeleteAll(n))| == n
  {
    if n > 0 {
      DeleteAllDeletes(n - 1);
      var ops := DeleteAll(n);
      assert ops[..|ops| - 1] == DeleteAll(n - 1) && ops[|ops| - 1] == Delete(n - 1);
      assert Deletions(ops) == Deletions(DeleteAll(n - 1)) + {n - 1};
    }
  }

  /** 32767 deletions in one interval: the DELETE has one parameter too many, and session 0, say,
      stays, although everything else succeeds. */
  lemma TooManyDeletionsAreLost(t: Table)
    requires 0 in t
    ensures var ops := DeleteAll(MAX_PARAMETERS + 1);
      && |Deletions(ops)| > MAX_PARAMETERS
      && 0 in FlushedSessions(t, ops, Activities(ops).Keys, Nicknames(ops).Keys, false)
      && 0 !in Replay(t, ops)
  {
    hide Activities, Nicknames, Deletions, Replay;
    var ops := DeleteAll(MAX_PARAMETERS + 1);
    DeleteAllDeletes(MAX_PARAMETERS + 1);
    CoalescedIsReplay(t, ops);
    assert 0 in Deletions(ops);
  }

  /** What is left queued when a flush cannot begin: it puts updates back, but no deletions. */
  function Undeleted(ops: seq<Op>): seq<Op> {
    if ops == [] then []
    else Undeleted(ops[..|ops| - 1]) + if ops[|ops| - 1].Delete? then [] else [ops[|ops| - 1]]
  }

  lemma {:induction false} UndeletedKeeps(ops: seq<Op>)
    ensures Activities(Undeleted(ops)) == Activities(ops) && Nicknames(Undeleted(ops)) == Nicknames(ops)
    ensures Deletions(Undeleted(ops)) == {}
  {
    if ops != [] {
      var before, op := ops[..|ops| - 1], ops[|ops| - 1];
      UndeletedKeeps(before);
      assert Undeleted(before) + [] == Undeleted(before);
      assert (Undeleted(before) + [op])[..|Undeleted(before)|] == Undeleted(before);
    }
  }

  // ---------------------------------------------------------------- requests and results

  datatype SessionRequest = SessionRequest(userId: Option<nat>, nickname: string, connType: string,
                                           timestamp: int, resultIndex: nat)

  datatype MessageRequest = MessageRequest(channelId: nat, subchannelId: Option<nat>, parentId: Option<nat>,
                                           authorUserId: Option<nat>, authorNickname: string, content: string,
                                           timestamp: int, resultIndex: nat)

  datatype MessageRow = MessageRow(channelId: nat, subchannelId: Option<nat>, parentId: Option<nat>,
                                   threadRootId: Option<nat>, authorUserId: Option<nat>, authorNickname: string,
                                   content: string, createdAt: int)

  datatype Failure = ConnectionClosed | ParentNotFound | StatementFailed

  /** What is sent to the waiting request. */
  datatype Outcome<R> = Stored(id: nat, row: R) | Refused(why: Failure)

  /** A row to be inserted for request `index`, with its new ID. */
  datatype Ready<R> = Ready(index: nat, id: nat, row: R)

  function SessionRowOf(q: SessionRequest): SessionRow {
    SessionRow(q.userId, q.nickname, q.connType, q.timestamp, q.timestamp)
  }

  function MessageRowOf(q: MessageRequest, root: Option<nat>): MessageRow {
    MessageRow(q.channelId, q.subchannelId, q.parentId, root, q.authorUserId, q.authorNickname, q.content, q.timestamp)
  }

  /** Rows ready for insertion are in the order of their requests and of their IDs, which are new. */
  ghost predicate InOrder<R>(ready: seq<Ready<R>>, requests: nat, low: nat, high: nat) {
    && (forall k :: 0 <= k < |ready| ==> ready[k].index < requests && low < ready[k].id <= high)
    && (forall j, k :: 0 <= j < k < |ready| ==> ready[j].index < ready[k].index && ready[j].id < ready[k].id)
  }

  ghost predicate Served<R>(ready: seq<Ready<R>>, k: nat, i: nat) {
    forall m: nat :: k <= m < |ready| ==> ready[m].index != i
  }

  /** The requests that have had their result. */
  ghost predicate ResultsFor<R>(requests: nat, ready: seq<Ready<R>>, k: nat, results: map<nat, Outcome<R>>) {
    forall i: nat :: i in results <==> i < requests && Served(ready, k, i)
  }

  /** A successful result names a row that was ready for that very request and is stored. */
  ghost predicate ResultsTrue<R>(ready: seq<Ready<R>>, results: map<nat, Outcome<R>>, after: map<nat, R>) {
    forall i: nat :: i in results && results[i].Stored? ==>
      && Ready(i, results[i].id, results[i].row) in ready
      && results[i].id in after && after[results[i].id] == results[i].row
  }

  ghost predicate Reported<R>(results: map<nat, Outcome<R>>, id: nat) {
    exists i: nat :: i in results && results[i].Stored? && results[i].id == id
  }

  /** The table keeps what it had and has grown by the rows reported stored. */
  ghost predicate GrownBy<R>(results: map<nat, Outcome<R>>, before: map<nat, R>, after: map<nat, R>) {
    && (forall id: nat :: id in before ==> id in after && after[id] == before[id])
    && (forall id: nat :: id in after && id !in before ==> Reported(results, id))
  }

  ghost predicate IdsBelow<R>(ready: seq<Ready<R>>, k: nat, after: map<nat, R>) {
    forall id: nat, m: nat :: id in after && k <= m < |ready| ==> id < ready[m].id
  }

  /** Of `requests` requests all but those in `ready[k..]` have had one result; the table has
      grown by exactly the rows of the successful ones. */
  ghost predicate Answered<R>(requests: nat, ready: seq<Ready<R>>, k: nat, results: map<nat, Outcome<R>>,
                              before: map<nat, R>, after: map<nat, R>)
  {
    && ResultsFor(requests, ready, k, results) && ResultsTrue(ready, results, after)
    && GrownBy(results, before, after) && IdsBelow(ready, k, after)
  }

  lemma ServeOne<R>(requests: nat, ready: seq<Ready<R>>, k: nat, results: map<nat, Outcome<R>>,
                    low: nat, high: nat, outcome: Outcome<R>)
    requires k < |ready| && InOrder(ready, requests, low, high) && ResultsFor(requests, ready, k, results)
    ensures ready[k].index !in results
    ensures ResultsFor(requests, ready, k + 1, results[ready[k].index := outcome])
  {
    var n := ready[k].index;
    assert !Served(ready, k, n);
    forall i: nat ensures Served(ready, k + 1, i) <==> Served(ready, k, i) || i == n {
    }
  }

  lemma ReportOne<R>(results: map<nat, Outcome<R>>, before: map<nat, R>, after: map<nat, R>, i: nat,
                     outcome: Outcome<R>)
    requires GrownBy(results, before, after) && i !in results
    requires outcome.Stored? ==> outcome.id !in after
    ensures GrownBy(results[i := outcome], before,
                    if outcome.Stored? then after[outcome.id := outcome.row] else after)
  {
    var next := results[i := outcome];
    forall id: nat | Reported(results, id) ensures Reported(next, id) {
      var j: nat :| j in results && results[j].Stored? && results[j].id == id;
      assert j in next && next[j] == results[j];
    }
    if outcome.Stored? {
      assert i in next && next[i].Stored? && next[i].id == outcome.id;
    }
  }

  /** Answering one more request. */
  lemma AnswerOne<R>(requests: nat, ready: seq<Ready<R>>, k: nat, results: map<nat, Outcome<R>>,
                     before: map<nat, R>, after: map<nat, R>, low: nat, high: nat, ok: bool)
    requires k < |ready| && InOrder(ready, requests, low, high) && Answered(requests, ready, k, results, before, after)
    ensures ready[k].index !in results
    ensures var (i, id, row) := (ready[k].index, ready[k].id, ready[k].row);
      if ok then Answered(requests, ready, k + 1, results[i := Stored(id, row)], before, after[id := row])
      else Answered(requests, ready, k + 1, results[i := Refused(StatementFailed)], before, after)
  {
    hide ResultsFor, GrownBy, Reported;
    var (i, id, row) := (ready[k].index, ready[k].id, ready[k].row);
    var outcome := if ok then Stored(id, row) else Refused(StatementFailed);
    assert ready[k] == Ready(i, id, row);
    ServeOne(requests, ready, k, results, low, high, outcome);
    ReportOne(results, before, after, i, outcome);
  }

  function Sum(counts: seq<nat>): nat {
    if counts == [] then 0 else Sum(counts[..|counts| - 1]) + counts[|counts| - 1]
  }

  lemma FewerParameters(rows: nat, chunkSize: nat, columns: nat)
    requires rows <= chunkSize
    ensures rows * columns <= chunkSize * columns
  {
  }

  /** Those refused before keep their answer, all others are stored or told of a failed statement;
      without a failure they are stored. */
  ghost predicate Extends<R>(refused: map<nat, Outcome<R>>, results: map<nat, Outcome<R>>, allOk: bool) {
    && (forall i :: i in refused ==> i in results && results[i] == refused[i])
    && (forall i :: i in results && i !in refused ==> results[i].Stored? || results[i] == Refused(StatementFailed))
    && (allOk ==> forall i :: i in results ==> i in refused || results[i].Stored?)
  }

  lemma ExtendOne<R>(refused: map<nat, Outcome<R>>, results: map<nat, Outcome<R>>, allOk: bool, i: nat,
                     outcome: Outcome<R>)
    requires Extends(refused, results, allOk) && i !in results && (allOk ==> outcome.Stored?)
    requires outcome.Stored? || outcome == Refused(StatementFailed)
    ensures Extends(refused, results[i := outcome], allOk)
  {
  }

  /** The results of one statement, request by request. */
  method AnswerChunk<R>(requests: nat, ready: seq<Ready<R>>, from: nat, to: nat, ok: bool, allOk: bool,
                        ghost low: nat, ghost high: nat, ghost before: map<nat, R>, ghost refused: map<nat, Outcome<R>>,
                        table: map<nat, R>, sent: map<nat, Outcome<R>>)
    returns (after: map<nat, R>, results: map<nat, Outcome<R>>)
    requires from <= to <= |ready| && InOrder(ready, requests, low, high) && (allOk ==> ok)
    requires Answered(requests, ready, from, sent, before, table) && Extends(refused, sent, allOk)
    ensures Answered(requests, ready, to, results, before, after) && Extends(refused, results, allOk)
  {
    hide Answered, InOrder, Extends;
    after, results := table, sent;
    for m := from to to
      invariant Answered(requests, ready, m, results, before, after) && Extends(refused, results, allOk)
    {
      var s := ready[m];
      AnswerOne(requests, ready, m, results, before, after, low, high, ok);
      ExtendOne(refused, results, allOk, s.index, if ok then Stored(s.id, s.row) else Refused(StatementFailed));
      if ok {
        after := after[s.id := s.row];
        results := results[s.index := Stored(s.id, s.row)];
      } else {
        results := results[s.index := Refused(StatementFailed)];
      }
    }
  }

  /** The rows of each statement: together the whole batch, and within the parameter limit. */
  ghost predicate Chunked(counts: seq<nat>, total: nat, columns: nat) {
    Sum(counts) == total && forall c :: c in counts ==> 0 < c && c * columns <= 32766
  }

  lemma OneMoreChunk(counts: seq<nat>, total: nat, columns: nat, rows: nat, chunkSize: nat)
    requires Chunked(counts, total, columns) && 0 < rows <= chunkSize && chunkSize * columns <= MAX_PARAMETERS
    ensures Chunked(counts + [rows], total + rows, columns)
  {
    FewerParameters(rows, chunkSize, columns);
    assert (counts + [rows])[..|counts|] == counts;
  }

  /** The chunked insert of both tables. `counts` are the rows of each statement: together they
      are the whole batch, and none has more parameters than SQLite takes. A statement that fails (`executes`
      is the database's answer to each) inserts nothing and its requests are told so; `allOk` is whether
      none failed. */
  method InsertInChunks<R>(requests: nat, ready: seq<Ready<R>>, columns: nat, chunkSize: nat, executes: nat -> bool,
                           ghost low: nat, ghost high: nat, before: map<nat, R>, refused: map<nat, Outcome<R>>)
    returns (after: map<nat, R>, results: map<nat, Outcome<R>>, counts: seq<nat>, allOk: bool)
    requires 0 < chunkSize && chunkSize * columns <= MAX_PARAMETERS && InOrder(ready, requests, low, high)
    requires Answered(requests, ready, 0, refused, before, before)
    ensures Answered(requests, ready, |ready|, results, before, after)
    ensures Extends(refused, results, allOk)
    ensures Chunked(counts, |ready|, columns)
    ensures allOk <==> forall k: nat :: k < |counts| ==> executes(k)
  {
    after, results, counts, allOk := before, refused, [], true;
    var chunkStart := 0;
    NoChunk(columns);
    NothingExtended(refused);
    hide Answered, InOrder, Extends, Chunked;
    while chunkStart < |ready|
      invariant chunkStart <= |ready| && Chunked(counts, chunkStart, columns)
      invariant Answered(requests, ready, chunkStart, results, before, after)
      invariant Extends(refused, results, allOk)
      invariant allOk <==> forall k: nat :: k < |counts| ==> executes(k)
      decreases |ready| - chunkStart
    {
      var chunkEnd := chunkStart + chunkSize;
      if chunkEnd > |ready| {
        chunkEnd := |ready|;
      }
      var ok := executes(|counts|);
      StillExtends(refused, results, allOk, allOk && ok);
      allOk := allOk && ok;
      after, results :=
        AnswerChunk(requests, ready, chunkStart, chunkEnd, ok, allOk, low, high, before, refused, after, results);
      OneMoreChunk(counts, chunkStart, columns, chunkEnd - chunkStart, chunkSize);
      counts := counts + [chunkEnd - chunkStart];
      chunkStart := chunkEnd;
    }
  }

  lemma NoChunk(columns: nat)
    ensures Chunked([], 0, columns)
  {
  }

  lemma NothingExtended<R>(refused: map<nat, Outcome<R>>)
    ensures Extends(refused, refused, true)
  {
  }

  lemma StillExtends<R>(refused: map<nat, Outcome<R>>, results: map<nat, Outcome<R>>, was: bool, allOk: bool)
    requires Extends(refused, results, was) && (allOk ==> was)
    ensures Extends(refused, results, allOk)
  {
  }

  // ---------------------------------------------------------------- preparing a batch

  /** Requests `0..i` are ready or refused, in request order, with increasing new IDs. */
  ghost predicate Prepared<R>(i: nat, ready: seq<Ready<R>>, refused: map<nat, Outcome<R>>, low: nat, high: nat) {
    && InOrder(ready, i, low, high) && ResultsFor(i, ready, 0, refused)
    && forall j :: j in refused ==> refused[j].Refused?
  }

  lemma ReadyOne<R>(i: nat, ready: seq<Ready<R>>, refused: map<nat, Outcome<R>>, low: nat, high: nat, id: nat, row: R)
    requires Prepared(i, ready, refused, low, high) && low <= high < id
    ensures Prepared(i + 1, ready + [Ready(i, id, row)], refused, low, id)
  {
    var more := ready + [Ready(i, id, row)];
    forall j: nat ensures j < i + 1 && Served(more, 0, j) <==> j < i && Served(ready, 0, j) {
      assert more[|ready|].index == i;
      if j < i && Served(ready, 0, j) {
        forall m: nat | m < |more| ensures more[m].index != j {
        }
      }
      if Served(more, 0, j) {
        forall m: nat | m < |ready| ensures ready[m].index != j {
          assert more[m] == ready[m];
        }
      }
    }
  }

  lemma RefuseOne<R>(i: nat, ready: seq<Ready<R>>, refused: map<nat, Outcome<R>>, low: nat, high: nat, next: nat,
                     why: Failure)
    requires Prepared(i, ready, refused, low, high) && high <= next
    ensures Prepared(i + 1, ready, refused[i := Refused(why)], low, next)
  {
    assert Served(ready, 0, i);
  }

  lemma StartAnswers<R>(n: nat, ready: seq<Ready<R>>, refused: map<nat, Outcome<R>>, low: nat, high: nat,
                        table: map<nat, R>)
    requires Prepared(n, ready, refused, low, high) && forall id :: id in table ==> id <= low
    ensures Answered(n, ready, 0, refused, table, table)
  {
  }

  /** Once nothing is pending every request has its result, and a stored row is one that was ready. */
  lemma AllAnswered<R>(n: nat, ready: seq<Ready<R>>, results: map<nat, Outcome<R>>, before: map<nat, R>,
                       after: map<nat, R>, low: nat, high: nat)
    requires InOrder(ready, n, low, high) && Answered(n, ready, |ready|, results, before, after)
    ensures forall i: nat :: i in results <==> i < n
    ensures forall i: nat :: i in results && results[i].Stored? ==>
              low < results[i].id <= high && Ready(i, results[i].id, results[i].row) in ready
    ensures forall i: nat, j: nat ::
              i in results && j in results && i < j && results[i].Stored? && results[j].Stored? ==>
              results[i].id < results[j].id
    ensures forall id: nat :: id in after ==> id in before || id <= high
  {
    forall i: nat | i < n ensures Served(ready, |ready|, i) {
    }
    forall id: nat | id in after && id !in before ensures id <= high {
      var i: nat :| i in results && results[i].Stored? && results[i].id == id;
    }
  }

  /** The thread root a new message gets: itself, or what its parent has. */
  function RootFor(messages: map<nat, MessageRow>, q: MessageRequest, id: nat): Option<nat> {
    match q.parentId
    case None => Some(id)
    case Some(p) => if p in messages then messages[p].threadRootId else None
  }

  /** A message's thread root is its own ID, or its parent's thread root. */
  ghost predicate Rooted(messages: map<nat, MessageRow>) {
    forall id :: id in messages ==>
      match messages[id].parentId
      case None => messages[id].threadRootId == Some(id)
      case Some(p) => p < id && (p in messages ==> messages[id].threadRootId == messages[p].threadRootId)
  }

  function Parents(requests: seq<MessageRequest>): set<nat> {
    set q | q in requests && q.parentId.Some? :: q.parentId.value
  }

  predicate HasParent(messages: map<nat, MessageRow>, q: MessageRequest) {
    q.parentId.Some? ==> q.parentId.value in messages
  }

  /** The row of a message request that is stored as `id`. */
  ghost predicate RowFor(messages: map<nat, MessageRow>, q: MessageRequest, id: nat, row: MessageRow) {
    && (q.parentId.Some? ==> q.parentId.value in messages)
    && row == MessageRow(
         channelId := q.channelId, subchannelId := q.subchannelId, parentId := q.parentId,
         threadRootId := if q.parentId.None? then Some(id) else messages[q.parentId.value].threadRootId,
         authorUserId := q.authorUserId, authorNickname := q.authorNickname, content := q.content,
         createdAt := q.timestamp)
  }

  lemma KeepsRooted(before: map<nat, MessageRow>, after: map<nat, MessageRow>, results: map<nat, Outcome<MessageRow>>,
                    requests: seq<MessageRequest>, low: nat)
    requires Rooted(before) && GrownBy(results, before, after) && forall id :: id in before ==> id <= low
    requires forall i: nat :: i in results && results[i].Stored? ==>
               i < |requests| && low < results[i].id && results[i].id in after
               && after[results[i].id] == results[i].row && RowFor(before, requests[i], results[i].id, results[i].row)
    ensures Rooted(after)
  {
    forall id: nat | id in after && id !in before ensures id > low {
      var i: nat :| i in results && results[i].Stored? && results[i].id == id;
    }
    forall id | id in after
      ensures match after[id].parentId
        case None => after[id].threadRootId == Some(id)
        case Some(p) => p < id && (p in after ==> after[id].threadRootId == after[p].threadRootId)
    {
      if id !in before {
        var i: nat :| i in results && results[i].Stored? && results[i].id == id;
        assert RowFor(before, requests[i], id, after[id]);
      }
    }
  }

  /** Each request has one result; a success names the request's own row, stored under a new ID,
      and IDs follow the order of the requests. */
  ghost predicate SessionsTold(results: map<nat, Outcome<SessionRow>>, requests: seq<SessionRequest>, last: nat,
                               after: Table) {
    && (forall i: nat :: i in results <==> i < |requests|)
    && (forall i: nat :: i in results && results[i].Stored? ==>
          && last < results[i].id && results[i].id in after
          && after[results[i].id] == results[i].row
          && results[i].row == SessionRow(
               userId := requests[i].userId, nickname := requests[i].nickname, connType := requests[i].connType,
               connectedAt := requests[i].timestamp, lastActivity := requests[i].timestamp))
    && (forall i: nat, j: nat :: i in results && j in results && i < j && results[i].Stored? && results[j].Stored? ==>
          results[i].id < results[j].id)
  }

  ghost predicate MessagesTold(results: map<nat, Outcome<MessageRow>>, requests: seq<MessageRequest>, last: nat,
                               before: map<nat, MessageRow>, after: map<nat, MessageRow>)
  {
    && (forall i: nat :: i in results <==> i < |requests|)
    && (forall i: nat :: i in results && results[i].Stored? ==>
          && last < results[i].id && results[i].id in after && after[results[i].id] == results[i].row
          && RowFor(before, requests[i], results[i].id, results[i].row))
    && (forall i: nat, j: nat :: i in results && j in results && i < j && results[i].Stored? && results[j].Stored? ==>
          results[i].id < results[j].id)
    && (|Parents(requests)| > 32766 ==>
          forall i: nat :: i in results ==> results[i] == Refused(StatementFailed))
  }

  /** The results sent to the requests, and what their statements do to the tables. */
  ghost predicate SessionsSent(results: map<nat, Outcome<SessionRow>>, requests: seq<SessionRequest>, last: nat,
                               before: Table, after: Table)
  {
    GrownBy(results, before, after) && SessionsTold(results, requests, last, after)
  }

  ghost predicate MessagesSent(results: map<nat, Outcome<MessageRow>>, requests: seq<MessageRequest>, last: nat,
                               before: map<nat, MessageRow>, after: map<nat, MessageRow>)
  {
    && GrownBy(results, before, after)
    && exists from: nat :: from >= last && MessagesTold(results, requests, from, before, after)
  }

  /** A reply is refused exactly when its parent was not stored before the flush. */
  ghost predicate OnlyOrphansRefused(results: map<nat, Outcome<MessageRow>>, requests: seq<MessageRequest>,
                                     before: map<nat, MessageRow>)
  {
    forall i: nat :: i in results && i < |requests| ==>
      if requests[i].parentId.Some? && requests[i].parentId.value !in before
      then results[i] == Refused(ParentNotFound) else results[i].Stored?
  }

  /** One reply to each of the messages 0 to n-1. */
  function ReplyToEach(n: nat): (qs: seq<MessageRequest>)
    ensures |qs| == n
  {
    if n == 0 then [] else ReplyToEach(n - 1) + [MessageRequest(1, None, Some(n - 1), None, "", "", 0, n - 1)]
  }

  lemma OneMoreParent(qs: seq<MessageRequest>, q: MessageRequest)
    requires q.parentId.Some?
    ensures Parents(qs + [q]) == Parents(qs) + {q.parentId.value}
    ensures forall r :: r in qs + [q] <==> r in qs || r == q
  {
    assert forall r :: r in qs + [q] <==> r in qs || r == q;
    assert q in qs + [q];
  }

  function IdsBefore(n: nat): (ids: set<nat>)
    ensures |ids| == n && forall id: nat :: id in ids <==> id < n
  {
    if n == 0 then {} else IdsBefore(n - 1) + {n - 1}
  }

  lemma {:induction false} ReplyParents(n: nat)
    ensures Parents(ReplyToEach(n)) == IdsBefore(n)
  {
    hide Parents;
    if n == 0 {
      NoParents();
    } else {
      ReplyParents(n - 1);
      OneMoreParent(ReplyToEach(n - 1), MessageRequest(1, None, Some(n - 1), None, "", "", 0, n - 1));
    }
  }

  lemma NoParents()
    ensures Parents([]) == {}
  {
  }

  lemma {:induction false} RepliesOnly(n: nat)
    ensures forall q :: q in ReplyToEach(n) ==> q.parentId.Some? && q.parentId.value < n
  {
    if n > 0 {
      RepliesOnly(n - 1);
    }
  }

  /** Replies to 32767 stored messages in one interval: the SELECT of the parents has one parameter
      too many, and every reply is refused, although its parent is there. */
  lemma TooManyParentsAreRefused(results: map<nat, Outcome<MessageRow>>, last: nat, before: map<nat, MessageRow>,
                                 after: map<nat, MessageRow>)
    requires forall id: nat :: id <= MAX_PARAMETERS ==> id in before
    requires MessagesTold(results, ReplyToEach(MAX_PARAMETERS + 1), last, before, after)
            && GrownBy(results, before, after)
    ensures forall q :: q in ReplyToEach(MAX_PARAMETERS + 1) ==> HasParent(before, q)
    ensures forall i: nat :: i <= MAX_PARAMETERS ==> i in results && results[i] == Refused(StatementFailed)
    ensures after == before
  {
    hide ReplyToEach, Parents, RowFor, IdsBefore;
    ReplyParents(MAX_PARAMETERS + 1);
    RepliesOnly(MAX_PARAMETERS + 1);
  }

  // ---------------------------------------------------------------- the write buffer

  /** The tables hold no ID above the last one issued. */
  ghost predicate TablesOk(session: Table, messages: map<nat, MessageRow>, last: nat) {
    (forall id :: id in session ==> id <= last) && (forall id :: id in messages ==> id <= last) && Rooted(messages)
  }

  lemma LaterIdOk(session: Table, messages: map<nat, MessageRow>, last: nat, later: nat)
    requires TablesOk(session, messages, last) && last <= later
    ensures TablesOk(session, messages, later)
  {
  }

  /** What the database and the connections answer in one flush: to BEGIN, whether each waiting
      session's connection is alive, to the chunks of session inserts, to preparing the two UPDATEs and to each
      of them, to the DELETE, to the SELECT of the parents, to the chunks of message inserts, and to COMMIT. */
  datatype Answers = Answers(
    begins: bool, alive: nat -> bool, createsChunk: nat -> bool, preparesActivity: bool, setsActivity: nat -> bool,
    preparesNickname: bool, setsNickname: nat -> bool, deletes: bool, selects: bool, insertsChunk: nat -> bool,
    commits: bool)

  /** The database accepts everything that is asked of it. */
  ghost predicate AcceptsAll(a: Answers) {
    && a.begins && a.preparesActivity && a.preparesNickname && a.deletes && a.selects && a.commits
    && (forall k :: a.createsChunk(k)) && (forall id :: a.setsActivity(id)) && (forall id :: a.setsNickname(id))
    && (forall k :: a.insertsChunk(k))
  }

  /** Of `requests` requests those whose connection is gone are told so, and no others. */
  ghost predicate RefusesClosed(results: map<nat, Outcome<SessionRow>>, requests: nat, alive: nat -> bool) {
    forall i: nat :: i < requests ==> i in results && (results[i] == Refused(ConnectionClosed) <==> !alive(i))
  }

  /** The updates that are carried out. */
  ghost function Done(ids: set<nat>, prepares: bool, sets: nat -> bool): set<nat> {
    set id | id in ids && prepares && sets(id)
  }

  class WriteBuffer {
    /** The tables and the last ID of the database. */
    var session: Table
    var messages: map<nat, MessageRow>
    var lastId: nat

    var sessionCreates: seq<SessionRequest>
    var sessionUpdates: map<nat, int>
    var nicknameUpdates: map<nat, string>
    var messageInserts: seq<MessageRequest>
    var sessionDeletions: set<nat>

    /** The session operations queued since the last flush, as they came. */
    ghost var queued: seq<Op>

    ghost predicate Valid()
      reads this
    {
      && sessionUpdates == Activities(queued) && nicknameUpdates == Nicknames(queued)
      && sessionDeletions == Deletions(queued)
      && (forall i: nat :: i < |sessionCreates| ==> sessionCreates[i].resultIndex == i)
      && (forall i: nat :: i < |messageInserts| ==> messageInserts[i].resultIndex == i)
      && TablesOk(session, messages, lastId)
    }

    constructor ()
      ensures Valid() && queued == [] && sessionCreates == [] && messageInserts == []
    {
      session, messages, lastId := map[], map[], 0;
      sessionCreates, messageInserts := [], [];
      sessionUpdates, nicknameUpdates, sessionDeletions := map[], map[], {};
      queued := [];
    }

    /** Queues the request; its caller waits for result number `i`. */
    method CreateSession(userId: Option<nat>, nickname: string, connType: string, now: int) returns (i: nat)
      requires Valid()
      modifies this`sessionCreates
      ensures Valid() && i == |old(sessionCreates)|
      ensures sessionCreates == old(sessionCreates) + [SessionRequest(userId, nickname, connType, now, i)]
    {
      i := |sessionCreates|;
      sessionCreates := sessionCreates + [SessionRequest(userId, nickname, connType, now, i)];
    }

    method PostMessage(channelId: nat, subchannelId: Option<nat>, parentId: Option<nat>, authorUserId: Option<nat>,
                       authorNickname: string, content: string, now: int)
      returns (i: nat)
      requires Valid()
      modifies this`messageInserts
      ensures Valid() && i == |old(messageInserts)|
      ensures messageInserts == old(messageInserts) +
              [MessageRequest(channelId, subchannelId, parentId, authorUserId, authorNickname, content, now, i)]
    {
      i := |messageInserts|;
      messageInserts := messageInserts +
        [MessageRequest(channelId, subchannelId, parentId, authorUserId, authorNickname, content, now, i)];
    }

    method UpdateSessionActivity(id: nat, at: int)
      requires Valid()
      modifies this`sessionUpdates, this`queued
      ensures Valid() && queued == old(queued) + [Activity(id, at)]
    {
      sessionUpdates := sessionUpdates[id := at];
      Queue(Activity(id, at));
    }

    method UpdateSessionNickname(id: nat, nickname: string)
      requires Valid()
      modifies this`nicknameUpdates, this`queued
      ensures Valid() && queued == old(queued) + [Nickname(id, nickname)]
    {
      nicknameUpdates := nicknameUpdates[id := nickname];
      Queue(Nickname(id, nickname));
    }

    method DeleteSession(id: nat)
      requires Valid()
      modifies this`sessionDeletions, this`queued
      ensures Valid() && queued == old(queued) + [Delete(id)]
    {
      sessionDeletions := sessionDeletions + {id};
      Queue(Delete(id));
    }

    ghost method Queue(op: Op)
      modifies this`queued
      ensures queued == old(queued) + [op] && queued[..|queued| - 1] == old(queued)
    {
      queued := queued + [op];
    }

    /** Some ID above every earlier one, as the snowflake generator gives. */
    method NextId() returns (id: nat)
      modifies this`lastId
      ensures id > old(lastId) && lastId == id
    {
      assert lastId + 1 > lastId;
      id :| id > lastId;
      lastId := id;
    }

    /** Section 1 of the flush. */
    method FlushSessionCreates(requests: seq<SessionRequest>, alive: nat -> bool, executes: nat -> bool)
      returns (results: map<nat, Outcome<SessionRow>>, allOk: bool)
      requires forall i: nat :: i < |requests| ==> requests[i].resultIndex == i
      requires forall id :: id in session ==> id <= lastId
      modifies this`session, this`lastId
      ensures lastId >= old(lastId) && forall id :: id in session ==> id <= lastId
      ensures GrownBy(results, old(session), session)
      ensures SessionsTold(results, requests, old(lastId), session)
      ensures allOk ==> forall i :: i in results ==> results[i].Stored? || results[i] == Refused(ConnectionClosed)
      ensures RefusesClosed(results, |requests|, alive)
      ensures (forall k :: executes(k)) ==> allOk
    {
      hide Prepared, Answered, InOrder;
      var ready: seq<Ready<SessionRow>> := [];
      var refused: map<nat, Outcome<SessionRow>> := map[];
      ghost var low := lastId;
      NothingPrepared(ready, refused, low);
      for i := 0 to |requests|
        invariant session == old(session) && low <= lastId && Prepared(i, ready, refused, low, lastId)
        invariant forall r :: r in ready ==> r.index < |requests| && r.row == SessionRowOf(requests[r.index])
        invariant forall j :: j in refused ==> refused[j] == Refused(ConnectionClosed)
        invariant forall j: nat :: j < i ==> (j in refused <==> !alive(j))
        invariant forall j :: j in refused ==> j < i
      {
        var sess := requests[i];
        if !alive(i) {
          RefuseOne(i, ready, refused, low, lastId, lastId, ConnectionClosed);
          refused := refused[sess.resultIndex := Refused(ConnectionClosed)];
        } else {
          ghost var high := lastId;
          var id := NextId();
          ReadyOne(i, ready, refused, low, high, id, SessionRowOf(sess));
          ready := ready + [Ready(i, id, SessionRowOf(sess))];
        }
      }
      PreparedParts(|requests|, ready, refused, low, lastId);
      StartAnswers(|requests|, ready, refused, low, lastId, session);
      var counts: seq<nat>;
      ghost var before := session;
      session, results, counts, allOk :=
        InsertInChunks(|requests|, ready, SESSION_COLUMNS, SESSION_CHUNK, executes, low, lastId, session, refused);
      AllAnswered(|requests|, ready, results, before, session, low, lastId);
      AnswerParts(|requests|, ready, results, before, session);
    }

    /** Section 2: one UPDATE a session, in any order. The statement may not be prepared, and each
        UPDATE may fail; `done` are those that did not. */
    method FlushActivities(updates: map<nat, int>, prepares: bool, executes: nat -> bool)
      returns (ghost done: set<nat>, allOk: bool)
      modifies this`session
      ensures session == SetActivities(old(session), Only(updates, done))
      ensures done == Done(updates.Keys, prepares, executes)
      ensures allOk <==> prepares && forall id :: id in updates ==> executes(id)
      ensures session.Keys == old(session).Keys
      ensures forall id :: id in session ==>
        session[id] == if id in updates && id in done then old(session)[id].(lastActivity := updates[id])
                       else old(session)[id]
    {
      ghost var start := session;
      ActivitiesSet(start, updates);
      hide SetActivities, Only;
      done := {};
      allOk := prepares;
      NoActivity(start, updates);
      if !allOk {
        return;
      }
      var todo := updates.Keys;
      while todo != {}
        invariant todo <= updates.Keys && done == set id | id in updates && id !in todo && executes(id)
        invariant allOk <==> forall id :: id in updates && id !in todo ==> executes(id)
        invariant session == SetActivities(start, Only(updates, done))
        decreases |todo|
      {
        var id :| id in todo;
        var executed := executes(id);
        allOk := allOk && executed;
        if executed {
          OneActivity(start, updates, done, id);
          if id in session {
            session := session[id := session[id].(lastActivity := updates[id])];
          }
          done := done + {id};
        }
        todo := todo - {id};
      }
    }

    /** Section 3. */
    method FlushNicknames(updates: map<nat, string>, prepares: bool, executes: nat -> bool)
      returns (ghost done: set<nat>, allOk: bool)
      modifies this`session
      ensures session == SetNicknames(old(session), Only(updates, done))
      ensures done == Done(updates.Keys, prepares, executes)
      ensures allOk <==> prepares && forall id :: id in updates ==> executes(id)
      ensures session.Keys == old(session).Keys
      ensures forall id :: id in session ==>
        session[id] == if id in updates && id in done then old(session)[id].(nickname := updates[id])
                       else old(session)[id]
    {
      ghost var start := session;
      NicknamesSet(start, updates);
      hide SetNicknames, Only;
      done := {};
      allOk := prepares;
      NoNickname(start, updates);
      if !allOk {
        return;
      }
      var todo := updates.Keys;
      while todo != {}
        invariant todo <= updates.Keys && done == set id | id in updates && id !in todo && executes(id)
        invariant allOk <==> forall id :: id in updates && id !in todo ==> executes(id)
        invariant session == SetNicknames(start, Only(updates, done))
        decreases |todo|
      {
        var id :| id in todo;
        var executed := executes(id);
        allOk := allOk && executed;
        if executed {
          OneNickname(start, updates, done, id);
          if id in session {
            session := session[id := session[id].(nickname := updates[id])];
          }
          done := done + {id};
        }
        todo := todo - {id};
      }
    }

    /** Section 4: a single DELETE, which fails when it has too many parameters, and may fail
        otherwise. */
    method FlushDeletions(gone: set<nat>, executes: bool) returns (deleted: bool)
      modifies this`session
      ensures session == if deleted then Without(old(session), gone) else old(session)
      ensures deleted <==> executes && |gone| <= 32766
      ensures forall id :: id in session <==> id in old(session) && !(deleted && id in gone)
      ensures forall id :: id in session ==> session[id] == old(session)[id]
    {
      deleted := executes;
      if |gone| > MAX_PARAMETERS {
        deleted := false;
      }
      if deleted {
        session := Without(session, gone);
      }
    }

    /** The rows of the messages to insert, in request order and under new IDs; a reply whose parent is
        not in the table is refused. */
    method PrepareMessages(requests: seq<MessageRequest>)
      returns (ready: seq<Ready<MessageRow>>, refused: map<nat, Outcome<MessageRow>>)
      requires forall i: nat :: i < |requests| ==> requests[i].resultIndex == i
      modifies this`lastId
      ensures old(lastId) <= lastId && Prepared(|requests|, ready, refused, old(lastId), lastId)
      ensures RowsFor(ready, requests, messages) && RefusesOrphans(refused, requests, |requests|, messages)
    {
      hide Prepared, RowFor;
      ready, refused := [], map[];
      ghost var low := lastId;
      NothingPrepared(ready, refused, low);
      for i := 0 to |requests|
        invariant low <= lastId && Prepared(i, ready, refused, low, lastId)
        invariant RowsFor(ready, requests, messages) && RefusesOrphans(refused, requests, i, messages)
      {
        var msg := requests[i];
        ghost var high := lastId;
        var id := NextId();
        if !HasParent(messages, msg) {
          RefuseOne(i, ready, refused, low, high, id, ParentNotFound);
          refused := refused[msg.resultIndex := Refused(ParentNotFound)];
          continue;
        }
        var row := MessageRowOf(msg, RootFor(messages, msg, id));
        RowIsFor(messages, msg, id);
        ReadyOne(i, ready, refused, low, high, id, row);
        ready := ready + [Ready(i, id, row)];
      }
    }

    /** Section 5. The parents are looked up in one SELECT, which is not chunked either: when it
        fails every request is told so and nothing is inserted. */
    method FlushMessages(requests: seq<MessageRequest>, selects: bool, executes: nat -> bool)
      returns (results: map<nat, Outcome<MessageRow>>, allOk: bool)
      requires forall i: nat :: i < |requests| ==> requests[i].resultIndex == i
      requires forall id :: id in messages ==> id <= lastId
      requires Rooted(messages)
      modifies this`messages, this`lastId
      ensures lastId >= old(lastId) && Rooted(messages) && forall id :: id in messages ==> id <= lastId
      ensures GrownBy(results, old(messages), messages)
      ensures MessagesTold(results, requests, old(lastId), old(messages), messages)
      ensures allOk ==> OnlyOrphansRefused(results, requests, old(messages))
      ensures var found := Parents(requests) == {} || (selects && |Parents(requests)| <= 32766);
        && (found && (forall k :: executes(k)) ==> allOk)
        && forall i: nat :: i < |requests| ==>
             if found
             then results[i] == Refused(ParentNotFound) <==>
                  requests[i].parentId.Some? && requests[i].parentId.value !in old(messages)
             else results[i] == Refused(StatementFailed)
    {
      hide *;
      var parents := Parents(requests);
      if parents != {} && (!selects || |parents| > 32766) {
        results := RefuseAll(|requests|);
        RefusedAreTold(results, requests, lastId, messages);
        allOk := false;
        return;
      }
      ghost var low, before := lastId, messages;
      var ready, refused := PrepareMessages(requests);
      PreparedParts(|requests|, ready, refused, low, lastId);
      StartAnswers(|requests|, ready, refused, low, lastId, messages);
      var counts: seq<nat>;
      ChunksFit();
      messages, results, counts, allOk :=
        InsertInChunks(|requests|, ready, MESSAGE_COLUMNS, MESSAGE_CHUNK, executes, low, lastId, messages, refused);
      MessagesAnswered(requests, ready, refused, results, allOk, before, messages, low, lastId);
    }

    /** A flush; `a` is how it is answered. `created` and `posted` are the tables as its transaction
        has them, with a row for each request told so; `acts`, `nicks` and `deleted` are the statements
        on sessions that succeeded. Only what commits stays, but the results have been sent by then.
        When the transaction cannot begin, updates are queued again, deletions and session requests are
        not: these never get a result. */
    method Flush(a: Answers) returns (end: FlushEnd, sessionResults: map<nat, Outcome<SessionRow>>,
                            messageResults: map<nat, Outcome<MessageRow>>, allOk: bool, ghost created: Table,
                            ghost posted: map<nat, MessageRow>, ghost acts: set<nat>, ghost nicks: set<nat>,
                            deleted: bool)
      requires Valid()
      modifies this
      ensures Valid() && sessionCreates == [] && messageInserts == []
      ensures end == if !a.begins then NotBegun else if !a.commits then RolledBack else Committed
      ensures !end.NotBegun? ==>
        && acts == Done(Activities(old(queued)).Keys, a.preparesActivity, a.setsActivity)
        && nicks == Done(Nicknames(old(queued)).Keys, a.preparesNickname, a.setsNickname)
        && (deleted <==> a.deletes && |Deletions(old(queued))| <= 32766)
        && RefusesClosed(sessionResults, |old(sessionCreates)|, a.alive)
      ensures AcceptsAll(a) && |Deletions(old(queued))| <= 32766 && |Parents(old(messageInserts))| <= 32766 ==> allOk
      ensures end.NotBegun? ==>
        && session == old(session) && messages == old(messages) && queued == Undeleted(old(queued))
        && sessionResults == map[] && AllRefused(messageResults, |old(messageInserts)|)
      ensures !end.NotBegun? ==>
        && queued == []
        && SessionsSent(sessionResults, old(sessionCreates), old(lastId), old(session), created)
        && MessagesSent(messageResults, old(messageInserts), old(lastId), old(messages), posted)
      ensures end.Committed? ==>
        session == FlushedSessions(created, old(queued), acts, nicks, deleted) && messages == posted
      ensures end.RolledBack? ==> session == old(session) && messages == old(messages)
      ensures allOk ==>
        && end.Committed? && OnlyOrphansRefused(messageResults, old(messageInserts), old(messages))
        && acts == Activities(old(queued)).Keys && nicks == Nicknames(old(queued)).Keys && deleted
        && forall i :: i in sessionResults ==>
             sessionResults[i].Stored? || sessionResults[i] == Refused(ConnectionClosed)
      ensures allOk ==> forall id :: LeavesSession(created, old(queued), session, id)
    {
      hide SessionsSent, MessagesSent, TablesOk, FlushedSessions, OnlyOrphansRefused, LeavesSession, Replay, Done;
      AcceptsEnds(a);
      hide Parents, AcceptsAll, Rooted, RefusesClosed;
      hide Activities, Nicknames, Deletions, SetActivities, SetNicknames, Without, Only, Undeleted, AllRefused;
      var creates, updates, nicknames, inserts, gone :=
        sessionCreates, sessionUpdates, nicknameUpdates, messageInserts, sessionDeletions;
      ghost var ops := queued;
      sessionCreates, messageInserts := [], [];
      if !a.begins {
        UndeletedKeeps(ops);
        sessionDeletions, queued := {}, Undeleted(queued);
        messageResults := RefuseAll(|inserts|);
        end, sessionResults, allOk := NotBegun, map[], false;
        created, posted, acts, nicks, deleted := session, messages, {}, {}, false;
        return;
      }
      sessionUpdates, nicknameUpdates, sessionDeletions := map[], map[], {};
      queued := [];
      EmptyQueue();
      var sessionsBefore, messagesBefore := session, messages;
      sessionResults, messageResults, allOk, created, acts, nicks, deleted :=
        Transaction(a, creates, updates, nicknames, gone, inserts, ops);
      posted := messages;
      LaterIdOk(sessionsBefore, messagesBefore, old(lastId), lastId);
      if !a.commits {
        session, messages := sessionsBefore, messagesBefore;
      }
      AllDoneIsReplay(created, ops);
      end := if a.commits then Committed else RolledBack;
      allOk := allOk && a.commits;
    }

    /** The five sections, in their order. */
    method Transaction(a: Answers, creates: seq<SessionRequest>, updates: map<nat, int>, nicknames: map<nat, string>,
                       gone: set<nat>, inserts: seq<MessageRequest>, ghost ops: seq<Op>)
      returns (sessionResults: map<nat, Outcome<SessionRow>>, messageResults: map<nat, Outcome<MessageRow>>,
               allOk: bool, ghost created: Table, ghost acts: set<nat>, ghost nicks: set<nat>, deleted: bool)
      requires updates == Activities(ops) && nicknames == Nicknames(ops) && gone == Deletions(ops)
      requires forall i: nat :: i < |creates| ==> creates[i].resultIndex == i
      requires forall i: nat :: i < |inserts| ==> inserts[i].resultIndex == i
      requires TablesOk(session, messages, lastId)
      modifies this`session, this`messages, this`lastId
      ensures TablesOk(session, messages, lastId) && lastId >= old(lastId)
      ensures SessionsSent(sessionResults, creates, old(lastId), old(session), created)
      ensures RefusesClosed(sessionResults, |creates|, a.alive)
      ensures session == FlushedSessions(created, ops, acts, nicks, deleted)
      ensures MessagesSent(messageResults, inserts, old(lastId), old(messages), messages)
      ensures acts == Done(updates.Keys, a.preparesActivity, a.setsActivity)
      ensures nicks == Done(nicknames.Keys, a.preparesNickname, a.setsNickname)
      ensures deleted <==> a.deletes && |gone| <= 32766
      ensures AcceptsAll(a) && |gone| <= 32766 && |Parents(inserts)| <= 32766 ==> allOk
      ensures allOk ==>
        && OnlyOrphansRefused(messageResults, inserts, old(messages))
        && acts == Activities(ops).Keys && nicks == Nicknames(ops).Keys && deleted
        && forall i :: i in sessionResults ==>
             sessionResults[i].Stored? || sessionResults[i] == Refused(ConnectionClosed)
    {
      hide GrownBy, Rooted, SessionsTold, MessagesTold, FlushedSessions, OnlyOrphansRefused, Done, Parents;
      hide RefusesClosed;
      AllDone(updates.Keys, a.preparesActivity, a.setsActivity);
      AllDone(nicknames.Keys, a.preparesNickname, a.setsNickname);
      hide Activities, Nicknames, Deletions, SetActivities, SetNicknames, Without, Only;
      var createdOk, actsOk, nicksOk, postedOk;
      sessionResults, createdOk := FlushSessionCreates(creates, a.alive, a.createsChunk);
      created := session;
      acts, actsOk := FlushActivities(updates, a.preparesActivity, a.setsActivity);
      nicks, nicksOk := FlushNicknames(nicknames, a.preparesNickname, a.setsNickname);
      deleted := FlushDeletions(gone, a.deletes);
      FlushSections(created, ops, acts, nicks, deleted);
      messageResults, postedOk := FlushMessages(inserts, a.selects, a.insertsChunk);
      allOk := createdOk && actsOk && nicksOk && deleted && postedOk;
    }
  }

  /** How a flush ends: without a transaction, with one that fails to commit, or with one that does. */
  datatype FlushEnd = NotBegun | RolledBack | Committed

  ghost predicate AllRefused<R>(results: map<nat, Outcome<R>>, requests: nat) {
    forall i: nat :: (i in results <==> i < requests) && (i in results ==> results[i] == Refused(StatementFailed))
  }

  method RefuseAll(requests: nat) returns (results: map<nat, Outcome<MessageRow>>)
    ensures AllRefused(results, requests)
  {
    results := map[];
    for i := 0 to requests
      invariant AllRefused(results, i)
    {
      results := results[i := Refused(StatementFailed)];
    }
  }

  /** A request told that its session is stored, by a flush that is rolled back, has an ID that is
      in no table. */
  lemma RolledBackSuccessIsLost(results: map<nat, Outcome<SessionRow>>, requests: seq<SessionRequest>, last: nat,
                                before: Table, created: Table, i: nat)
    requires SessionsTold(results, requests, last, created) && forall id :: id in before ==> id <= last
    requires i in results && results[i].Stored?
    ensures results[i].id in created && results[i].id !in before
  {
  }

  lemma ActivitiesSet(start: Table, updates: map<nat, int>)
    ensures forall done :: SetActivities(start, Only(updates, done)) == map id | id in start ::
              if id in updates && id in done then start[id].(lastActivity := updates[id]) else start[id]
  {
  }

  lemma NicknamesSet(start: Table, updates: map<nat, string>)
    ensures forall done :: SetNicknames(start, Only(updates, done)) == map id | id in start ::
              if id in updates && id in done then start[id].(nickname := updates[id]) else start[id]
  {
  }

  lemma AcceptsEnds(a: Answers)
    ensures AcceptsAll(a) ==> a.begins && a.commits
  {
  }

  lemma ChunksFit()
    ensures 0 < MESSAGE_CHUNK && MESSAGE_CHUNK * MESSAGE_COLUMNS <= MAX_PARAMETERS
  {
  }

  /** Every row that is ready is the one of its request. */
  ghost predicate RowsFor(ready: seq<Ready<MessageRow>>, requests: seq<MessageRequest>,
                          messages: map<nat, MessageRow>)
  {
    forall r :: r in ready ==> r.index < |requests| && RowFor(messages, requests[r.index], r.id, r.row)
  }

  /** Of the first `n` requests exactly the replies without a stored parent are refused. */
  ghost predicate RefusesOrphans(refused: map<nat, Outcome<MessageRow>>, requests: seq<MessageRequest>, n: nat,
                                 messages: map<nat, MessageRow>)
  {
    && (forall j: nat :: j in refused ==> j < n)
    && (forall j: nat :: j < n && j < |requests| ==>
          (j in refused <==> requests[j].parentId.Some? && requests[j].parentId.value !in messages))
    && (forall j: nat :: j in refused ==> refused[j] == Refused(ParentNotFound))
  }

  lemma RowIsFor(messages: map<nat, MessageRow>, q: MessageRequest, id: nat)
    requires HasParent(messages, q)
    ensures RowFor(messages, q, id, MessageRowOf(q, RootFor(messages, q, id)))
  {
  }

  lemma RefusedAreTold(results: map<nat, Outcome<MessageRow>>, requests: seq<MessageRequest>, last: nat,
                       messages: map<nat, MessageRow>)
    requires AllRefused(results, |requests|)
    ensures GrownBy(results, messages, messages) && MessagesTold(results, requests, last, messages, messages)
    ensures forall i: nat :: i < |requests| ==> i in results && results[i] == Refused(StatementFailed)
  {
  }

  /** What the answered requests have been told. */
  lemma MessagesAnswered(requests: seq<MessageRequest>, ready: seq<Ready<MessageRow>>,
                         refused: map<nat, Outcome<MessageRow>>, results: map<nat, Outcome<MessageRow>>, allOk: bool,
                         before: map<nat, MessageRow>, after: map<nat, MessageRow>, low: nat, high: nat)
    requires InOrder(ready, |requests|, low, high) && Answered(|requests|, ready, |ready|, results, before, after)
    requires Extends(refused, results, allOk) && RowsFor(ready, requests, before)
    requires RefusesOrphans(refused, requests, |requests|, before)
    requires |Parents(requests)| <= 32766 && Rooted(before) && forall id :: id in before ==> id <= low
    requires low <= high
    ensures GrownBy(results, before, after) && MessagesTold(results, requests, low, before, after)
    ensures Rooted(after) && forall id :: id in after ==> id <= high
    ensures allOk ==> OnlyOrphansRefused(results, requests, before)
    ensures forall i: nat :: i < |requests| ==>
              i in results && (results[i] == Refused(ParentNotFound) <==>
                               requests[i].parentId.Some? && requests[i].parentId.value !in before)
  {
    AllAnswered(|requests|, ready, results, before, after, low, high);
    AnswerParts(|requests|, ready, results, before, after);
    hide Answered, InOrder, Rooted, Parents, RowFor, GrownBy;
    forall i: nat | i in results && results[i].Stored?
      ensures RowFor(before, requests[i], results[i].id, results[i].row)
    {
      assert Ready(i, results[i].id, results[i].row) in ready;
    }
    KeepsRooted(before, after, results, requests, low);
  }

  lemma AllDone(ids: set<nat>, prepares: bool, sets: nat -> bool)
    ensures prepares && (forall id :: id in ids ==> sets(id)) ==> Done(ids, prepares, sets) == ids
  {
  }

  lemma NoActivity(start: Table, updates: map<nat, int>)
    ensures SetActivities(start, Only(updates, {})) == start
  {
  }

  lemma NoNickname(start: Table, updates: map<nat, string>)
    ensures SetNicknames(start, Only(updates, {})) == start
  {
  }

  lemma OneActivity(start: Table, updates: map<nat, int>, done: set<nat>, id: nat)
    requires id in updates
    ensures var was, now := SetActivities(start, Only(updates, done)), SetActivities(start, Only(updates, done + {id}));
      now == if id in was then was[id := was[id].(lastActivity := updates[id])] else was
  {
  }

  lemma OneNickname(start: Table, updates: map<nat, string>, done: set<nat>, id: nat)
    requires id in updates
    ensures var was, now := SetNicknames(start, Only(updates, done)), SetNicknames(start, Only(updates, done + {id}));
      now == if id in was then was[id := was[id].(nickname := updates[id])] else was
  {
  }

  lemma EmptyQueue()
    ensures Activities([]) == map[] && Nicknames([]) == map[] && Deletions([]) == {}
  {
  }

  lemma FlushSections(t: Table, ops: seq<Op>, acts: set<nat>, nicks: set<nat>, deleted: bool)
    ensures var updated := SetNicknames(SetActivities(t, Only(Activities(ops), acts)), Only(Nicknames(ops), nicks));
      FlushedSessions(t, ops, acts, nicks, deleted) == if deleted then Without(updated, Deletions(ops)) else updated
    ensures forall id :: id in FlushedSessions(t, ops, acts, nicks, deleted) ==> id in t
  {
    hide Activities, Nicknames, Deletions, Only;
  }

  lemma NothingPrepared<R>(ready: seq<Ready<R>>, refused: map<nat, Outcome<R>>, low: nat)
    requires ready == [] && refused == map[]
    ensures Prepared(0, ready, refused, low, low)
  {
  }

  lemma PreparedParts<R>(n: nat, ready: seq<Ready<R>>, refused: map<nat, Outcome<R>>, low: nat, high: nat)
    requires Prepared(n, ready, refused, low, high)
    ensures InOrder(ready, n, low, high) && forall j :: j in refused ==> refused[j].Refused?
  {
  }

  lemma AnswerParts<R>(n: nat, ready: seq<Ready<R>>, results: map<nat, Outcome<R>>, before: map<nat, R>,
                       after: map<nat, R>)
    requires Answered(n, ready, |ready|, results, before, after)
    ensures ResultsTrue(ready, results, after) && GrownBy(results, before, after)
  {
  }
}
