/** The lock-free ID generator of pkg/database/snowflake.go.

    `NextID` is a retry loop around one atomic word.  Any number of goroutines run it at once,
    so the model is a state machine whose atomic steps are the loads, the clock reads and the
    compare-and-swap of that loop; a run is any interleaving of such steps. */
module Snowflake {
  import opened Wrappers

  const SEQUENCES := 4096          // 1 << sequenceBits
  const WORKERS := 1024            // 1 << workerIDBits
  const TIMESTAMP_UNIT := 4194304  // 1 << timestampShift
  const TIMESTAMPS := 0x200_0000_0000  // 2^41

  datatype Config = Config(epoch: int, workerId: int)

  /** A worker ID is kept exactly when it is in 0..1023; any other silently becomes 0. */
  function NewSnowflake(epoch: int, workerId: int): (c: Config)
    ensures ValidConfig(c) && c.epoch == epoch
    ensures c.workerId == workerId <==> 0 <= workerId < WORKERS
    ensures c.workerId == workerId || c.workerId == 0
  {
    Config(epoch, if workerId < 0 || workerId >= WORKERS then 0 else workerId)
  }

  ghost predicate ValidConfig(c: Config) {
    0 <= c.workerId < WORKERS
  }

  // The atomic word packs the last timestamp used over its 12-bit sequence number.
  function Pack(time: int, sequence: int): int {
    time * SEQUENCES + sequence
  }

  function LastTime(word: int): int {
    word / SEQUENCES
  }

  function Sequence(word: int): int {
    word % SEQUENCES
  }

  /** Reduction to a signed 64-bit integer. */
  function ToInt64(x: int): (r: int)
    ensures -0x8000_0000_0000_0000 <= r < 0x8000_0000_0000_0000
    ensures -0x8000_0000_0000_0000 <= x < 0x8000_0000_0000_0000 ==> r == x
  {
    var m := x % 0x1_0000_0000_0000_0000;
    if m < 0x8000_0000_0000_0000 then m else m - 0x1_0000_0000_0000_0000
  }

  function MakeId(c: Config, time: int, sequence: int): int {
    ToInt64((time - c.epoch) * TIMESTAMP_UNIT + c.workerId * SEQUENCES + sequence)
  }

  // ---------------------------------------------------------------- the state machine

  /** Where a goroutine stands inside `NextID`.
      `since` counts the IDs issued before the call began and `loadedAt` those issued before
      the word was last loaded; the code has neither, they only name moments of the run. */
  datatype Pc =
    | Start(since: nat)
    | Loaded(since: nat, loadedAt: nat, word: int)
    | Waiting(since: nat, loadedAt: nat, word: int, backwards: bool)
    | Rereading(since: nat, loadedAt: nat, word: int)
    | Ready(since: nat, loadedAt: nat, word: int, time: int, sequence: int, reread: bool)

  datatype Issue = Issue(id: int, time: int, sequence: int, since: nat)

  datatype State = State(word: int, pcs: map<nat, Pc>, issued: seq<Issue>)

  datatype Event =
    | Call(g: nat)
    | Load(g: nat)
    | ReadClock(g: nat, now: int)
    | WaitRead(g: nat, now: int)
    | Reread(g: nat, now: int)
    | Cas(g: nat)

  const INITIAL := State(0, map[], [])

  /** Whether goroutine `e.g` is at the point of the code where `e` is its next action. */
  predicate Enabled(s: State, e: Event) {
    match e
    case Call(g) => g !in s.pcs
    case Load(g) => g in s.pcs && s.pcs[g].Start?
    case ReadClock(g, _) => g in s.pcs && s.pcs[g].Loaded?
    case WaitRead(g, _) => g in s.pcs && s.pcs[g].Waiting?
    case Reread(g, _) => g in s.pcs && s.pcs[g].Rereading?
    case Cas(g) => g in s.pcs && s.pcs[g].Ready?
  }

  /** What follows the first clock read of an iteration. */
  function AfterClock(pc: Pc, now: int): Pc
    requires pc.Loaded?
  {
    var last := LastTime(pc.word);
    var next := (Sequence(pc.word) + 1) % SEQUENCES;
    if now > last then
      Ready(pc.since, pc.loadedAt, pc.word, now, 0, false)
    else if next == 0 then
      Waiting(pc.since, pc.loadedAt, pc.word, now < last)
    else
      Ready(pc.since, pc.loadedAt, pc.word, last, next, false)
  }

  function Apply(c: Config, s: State, e: Event): State
    requires Enabled(s, e)
  {
    match e
    case Call(g) => s.(pcs := s.pcs[g := Start(|s.issued|)])
    case Load(g) => s.(pcs := s.pcs[g := Loaded(s.pcs[g].since, |s.issued|, s.word)])
    case ReadClock(g, now) => s.(pcs := s.pcs[g := AfterClock(s.pcs[g], now)])
    case WaitRead(g, now) =>
      // the same-millisecond branch waits for a later clock, the backwards branch for an equal one
      var pc := s.pcs[g];
      var last := LastTime(pc.word);
      if (if pc.backwards then now < last else now <= last) then s
      else s.(pcs := s.pcs[g := Rereading(pc.since, pc.loadedAt, pc.word)])
    case Reread(g, now) =>
      var pc := s.pcs[g];
      s.(pcs := s.pcs[g := Ready(pc.since, pc.loadedAt, pc.word, now, 0, true)])
    case Cas(g) =>
      var pc := s.pcs[g];
      if s.word == pc.word then
        State(Pack(pc.time, pc.sequence), s.pcs - {g},
              s.issued + [Issue(MakeId(c, pc.time, pc.sequence), pc.time, pc.sequence, pc.since)])
      else
        s.(pcs := s.pcs[g := Start(pc.since)])
  }

  /** The state after a run, or None when some event was not the goroutine's next action. */
  function Run(c: Config, es: seq<Event>): Option<State> {
    if es == [] then Some(INITIAL)
    else
      var before := Run(c, es[..|es|-1]);
      if before.Some? && Enabled(before.value, es[|es|-1])
      then Some(Apply(c, before.value, es[|es|-1]))
      else None
  }

  /** The clock assumption: a clock read after an exhaustion wait is later than the last
      timestamp used.  A clock that never goes backwards meets it. */
  ghost predicate ClockLater(s: State, e: Event) {
    e.Reread? && Enabled(s, e) ==> LastTime(s.pcs[e.g].word) < e.now
  }

  ghost predicate ClockLaterThroughout(c: Config, es: seq<Event>) {
    forall k :: 0 <= k < |es| && Run(c, es[..k]).Some? ==> ClockLater(Run(c, es[..k]).value, es[k])
  }

  // ---------------------------------------------------------------- invariants

  ghost predicate IssuedInOrder(issued: seq<Issue>) {
    forall i, j :: 0 <= i < j < |issued| ==>
      Pack(issued[i].time, issued[i].sequence) < Pack(issued[j].time, issued[j].sequence)
  }

  ghost predicate PcOk(s: State, pc: Pc) {
    && pc.since <= |s.issued|
    && (!pc.Start? ==>
         && pc.since <= pc.loadedAt <= |s.issued|
         && pc.word <= s.word
         // no ABA: the word still holds the loaded value exactly when nobody issued meanwhile
         && (pc.word == s.word <==> pc.loadedAt == |s.issued|))
    && (pc.Waiting? || pc.Rereading? ==> Sequence(pc.word) == SEQUENCES - 1)
    && (pc.Ready? ==> 0 <= pc.sequence < SEQUENCES && pc.word < Pack(pc.time, pc.sequence))
  }

  ghost predicate Inv(c: Config, s: State) {
    && IssuedInOrder(s.issued)
    && (forall i :: 0 <= i < |s.issued| ==>
          && 0 <= s.issued[i].sequence < SEQUENCES
          && s.issued[i].since <= i
          && s.issued[i].id == MakeId(c, s.issued[i].time, s.issued[i].sequence))
    && s.word == (if s.issued == [] then 0
                  else Pack(s.issued[|s.issued|-1].time, s.issued[|s.issued|-1].sequence))
    && forall g :: g in s.pcs ==> PcOk(s, s.pcs[g])
  }

  lemma AfterClockAdvances(pc: Pc, now: int)
    requires pc.Loaded?
    ensures var pc' := AfterClock(pc, now);
      && pc'.since == pc.since && pc'.loadedAt == pc.loadedAt && pc'.word == pc.word
      && (pc'.Waiting? ==> Sequence(pc.word) == SEQUENCES - 1)
      && (pc'.Ready? ==> 0 <= pc'.sequence < SEQUENCES && pc.word < Pack(pc'.time, pc'.sequence))
      && (pc'.Waiting? || pc'.Ready?)
  {
    assert pc.word == LastTime(pc.word) * SEQUENCES + Sequence(pc.word);
  }

  /** After an exhaustion wait the new word grows exactly when the re-read clock is later. */
  lemma RereadAdvancesIff(word: int, now: int)
    requires Sequence(word) == SEQUENCES - 1
    ensures word < Pack(now, 0) <==> LastTime(word) < now
  {
    assert word == LastTime(word) * SEQUENCES + Sequence(word);
  }

  /** A step that only moves one goroutine keeps the invariant if its new position is sound. */
  lemma MoveKeepsInv(c: Config, s: State, g: nat, pc: Pc)
    requires Inv(c, s) && PcOk(s, pc)
    ensures Inv(c, s.(pcs := s.pcs[g := pc]))
  {
    hide Pack, MakeId, IssuedInOrder;
    var s' := s.(pcs := s.pcs[g := pc]);
    forall h | h in s'.pcs ensures PcOk(s', s'.pcs[h]) {
      assert PcOk(s, if h == g then pc else s.pcs[h]);
    }
  }

  /** So does a swap that succeeds. */
  lemma SwapKeepsInv(c: Config, s: State, g: nat)
    requires Inv(c, s) && Enabled(s, Cas(g)) && s.word == s.pcs[g].word
    ensures Inv(c, Apply(c, s, Cas(g)))
  {
    var s' := Apply(c, s, Cas(g));
    assert PcOk(s, s.pcs[g]);
    hide Pack, MakeId, Sequence;
    forall h | h in s'.pcs ensures PcOk(s', s'.pcs[h]) {
      assert PcOk(s, s.pcs[h]);
    }
  }

  lemma StepKeepsInv(c: Config, s: State, e: Event)
    requires Inv(c, s) && Enabled(s, e) && ClockLater(s, e)
    ensures Inv(c, Apply(c, s, e))
  {
    hide Inv;
    if e.Cas? && s.word == s.pcs[e.g].word {
      SwapKeepsInv(c, s, e.g);
    } else if Apply(c, s, e) != s {
      PositionSound(c, s, e);
      MoveKeepsInv(c, s, e.g, Apply(c, s, e).pcs[e.g]);
    }
  }

  lemma PositionSound(c: Config, s: State, e: Event)
    requires Inv(c, s) && Enabled(s, e) && ClockLater(s, e) && Apply(c, s, e) != s
    requires !(e.Cas? && s.word == s.pcs[e.g].word)
    ensures e.g in Apply(c, s, e).pcs && PcOk(s, Apply(c, s, e).pcs[e.g])
    ensures Apply(c, s, e) == s.(pcs := s.pcs[e.g := Apply(c, s, e).pcs[e.g]])
  {
    hide Pack, MakeId, IssuedInOrder, AfterClock, Sequence, LastTime;
    match e
    case ReadClock(g, now) =>
      AfterClockAdvances(s.pcs[g], now);
    case Reread(g, now) =>
      RereadAdvancesIff(s.pcs[g].word, now);
    case _ =>
  }

  lemma {:induction false} RunKeepsInv(c: Config, es: seq<Event>)
    requires Run(c, es).Some? && ClockLaterThroughout(c, es)
    ensures Inv(c, Run(c, es).value)
  {
    if es != [] {
      var n := |es| - 1;
      forall k | 0 <= k < n && Run(c, es[..n][..k]).Some?
        ensures ClockLater(Run(c, es[..n][..k]).value, es[..n][k])
      {
        assert es[..n][..k] == es[..k];
      }
      RunKeepsInv(c, es[..n]);
      StepKeepsInv(c, Run(c, es[..n]).value, es[n]);
    }
  }

  // ---------------------------------------------------------------- main results

  ghost predicate FitsTimestamp(c: Config, i: Issue) {
    0 <= i.time - c.epoch < TIMESTAMPS
  }

  lemma IdFields(c: Config, i: Issue)
    requires ValidConfig(c) && FitsTimestamp(c, i) && 0 <= i.sequence < SEQUENCES
    requires i.id == MakeId(c, i.time, i.sequence)
    ensures i.id == (i.time - c.epoch) * TIMESTAMP_UNIT + c.workerId * SEQUENCES + i.sequence
    ensures 0 <= i.id
    ensures i.id / TIMESTAMP_UNIT == i.time - c.epoch
    ensures i.id / SEQUENCES % WORKERS == c.workerId
    ensures i.id % SEQUENCES == i.sequence
  {
    var t := i.time - c.epoch;
    assert i.id / SEQUENCES == t * WORKERS + c.workerId;
  }

  /** Every run under the clock assumption: IDs are distinct, grow in the order of the
      successful swaps and respect real time (a call made after an ID was issued returns a
      larger one), and each unpacks to its fields while its timestamp fits 41 bits. */
  lemma IdsUniqueAndOrdered(c: Config, es: seq<Event>)
    requires ValidConfig(c) && Run(c, es).Some? && ClockLaterThroughout(c, es)
    requires forall i :: 0 <= i < |Run(c, es).value.issued| ==> FitsTimestamp(c, Run(c, es).value.issued[i])
    ensures var ids := Run(c, es).value.issued;
      && (forall i, j :: 0 <= i < j < |ids| ==> ids[i].id < ids[j].id)
      && (forall i, j :: 0 <= j < |ids| && 0 <= i < ids[j].since ==> i < j && ids[i].id < ids[j].id)
      && (forall i :: 0 <= i < |ids| ==>
            && ids[i].id / TIMESTAMP_UNIT == ids[i].time - c.epoch
            && ids[i].id / SEQUENCES % WORKERS == c.workerId
            && ids[i].id % SEQUENCES == ids[i].sequence)
  {
    RunKeepsInv(c, es);
    var ids := Run(c, es).value.issued;
    forall i | 0 <= i < |ids|
      ensures ids[i].id == (ids[i].time - c.epoch) * TIMESTAMP_UNIT + c.workerId * SEQUENCES + ids[i].sequence
      ensures ids[i].id / TIMESTAMP_UNIT == ids[i].time - c.epoch
      ensures ids[i].id / SEQUENCES % WORKERS == c.workerId
      ensures ids[i].id % SEQUENCES == ids[i].sequence
    {
      IdFields(c, ids[i]);
    }
    forall i, j | 0 <= i < j < |ids| ensures ids[i].id < ids[j].id {
      assert Pack(ids[i].time, ids[i].sequence) < Pack(ids[j].time, ids[j].sequence);
      assert ids[i].time <= ids[j].time;
    }
  }

  lemma {:induction false} IssuedGrow(c: Config, a: seq<Event>, b: seq<Event>)
    requires Run(c, a + b).Some?
    ensures Run(c, a).Some? && Run(c, a).value.issued <= Run(c, a + b).value.issued
    decreases |b|
  {
    if b == [] {
      assert a + b == a;
    } else {
      var n := |b| - 1;
      assert (a + b)[..|a| + n] == a + b[..n];
      IssuedGrow(c, a, b[..n]);
    }
  }

  /** Real time, told by the events: an ID that goroutine `g` gets is larger than every ID issued
      before `g` made the call. */
  lemma LaterCallsGetLargerIds(c: Config, before: seq<Event>, g: nat, during: seq<Event>)
    requires var es := before + [Call(g)] + during + [Cas(g)];
      && ValidConfig(c) && Run(c, es).Some? && ClockLaterThroughout(c, es)
      && (forall i :: 0 <= i < |Run(c, es).value.issued| ==> FitsTimestamp(c, Run(c, es).value.issued[i]))
      && Run(c, before + [Call(g)] + during).Some?
      && |Run(c, before + [Call(g)] + during).value.issued| < |Run(c, es).value.issued|
    ensures var (was, now) := (Run(c, before), Run(c, before + [Call(g)] + during + [Cas(g)]).value.issued);
      && was.Some? && |was.value.issued| < |now|
      && forall i :: 0 <= i < |was.value.issued| ==> was.value.issued[i].id < now[|now| - 1].id
  {
    hide Run, ClockLaterThroughout, FitsTimestamp;
    var es := before + [Call(g)] + during + [Cas(g)];
    assert es == before + ([Call(g)] + during + [Cas(g)]);
    assert before + [Call(g)] + during == before + ([Call(g)] + during);
    IssuedGrow(c, before, [Call(g)] + during + [Cas(g)]);
    IssuedGrow(c, before, [Call(g)] + during);
    IdsUniqueAndOrdered(c, es);
  }

  /** Lock freedom and absence of ABA: a swap fails exactly when some other call issued an ID
      since this goroutine's load. */
  lemma SwapFailsOnlyWhenOvertaken(c: Config, es: seq<Event>, g: nat)
    requires Run(c, es).Some? && ClockLaterThroughout(c, es)
    requires Enabled(Run(c, es).value, Cas(g))
    ensures var s := Run(c, es).value;
      |Apply(c, s, Cas(g)).issued| == |s.issued| <==> s.pcs[g].loadedAt < |s.issued|
  {
    RunKeepsInv(c, es);
    assert PcOk(Run(c, es).value, Run(c, es).value.pcs[g]);
  }

  // ---------------------------------------------------------------- the clock

  /** What goroutine `g` last read from the clock right after a load of the word, unless it has
      loaded again since. */
  function FirstRead(es: seq<Event>, g: nat): Option<int> {
    if es == [] then None
    else
      match es[|es|-1]
      case ReadClock(h, now) => if h == g then Some(now) else FirstRead(es[..|es|-1], g)
      case Load(h) => if h == g then None else FirstRead(es[..|es|-1], g)
      case _ => FirstRead(es[..|es|-1], g)
  }

  /** What it last read in a waiting loop since then. */
  function WaitSeen(es: seq<Event>, g: nat): Option<int> {
    if es == [] then None
    else
      match es[|es|-1]
      case WaitRead(h, now) => if h == g then Some(now) else WaitSeen(es[..|es|-1], g)
      case ReadClock(h, _) => if h == g then None else WaitSeen(es[..|es|-1], g)
      case _ => WaitSeen(es[..|es|-1], g)
  }

  /** What it read after the waiting loop. */
  function ReadAgain(es: seq<Event>, g: nat): Option<int> {
    if es == [] then None
    else
      match es[|es|-1]
      case Reread(h, now) => if h == g then Some(now) else ReadAgain(es[..|es|-1], g)
      case ReadClock(h, _) => if h == g then None else ReadAgain(es[..|es|-1], g)
      case _ => ReadAgain(es[..|es|-1], g)
  }

  /** A waiting loop is left when the clock shows more than `last`, or, if it had shown less, as
      much again. */
  predicate Waited(first: int, last: int, seen: int) {
    if first < last then seen >= last else seen > last
  }

  /** Where a goroutine stands, told by what it has read: `last` and `q` are the time and sequence in
      the word that it loaded. */
  ghost predicate Follows(pc: Pc, last: int, q: int, first: Option<int>, seen: Option<int>, again: Option<int>) {
    match pc
    case Start(_) => true
    case Loaded(_, _, _) => true
    case Waiting(_, _, _, backwards) =>
      first.Some? && first.value <= last && q == 4095 && backwards == (first.value < last)
      && (seen.Some? ==> !Waited(first.value, last, seen.value))
    case Rereading(_, _, _) =>
      first.Some? && first.value <= last && q == 4095 && seen.Some? && Waited(first.value, last, seen.value)
    case Ready(_, _, _, time, sequence, reread) =>
      first.Some? &&
      (if first.value > last then !reread && time == first.value && sequence == 0
       else if q < 4095 then !reread && time == last && sequence == q + 1
       else reread && seen.Some? && Waited(first.value, last, seen.value) && again == Some(time) && sequence == 0)
  }

  ghost predicate PcFollows(es: seq<Event>, g: nat, pc: Pc) {
    pc.Start? || Follows(pc, pc.word / 4096, pc.word % 4096, FirstRead(es, g), WaitSeen(es, g), ReadAgain(es, g))
  }

  lemma StepFollows(c: Config, es: seq<Event>, e: Event, g: nat)
    requires Run(c, es).Some? && Enabled(Run(c, es).value, e)
    requires g in Run(c, es).value.pcs ==> PcFollows(es, g, Run(c, es).value.pcs[g])
    ensures g in Apply(c, Run(c, es).value, e).pcs ==> PcFollows(es + [e], g, Apply(c, Run(c, es).value, e).pcs[g])
  {
    hide Run, Pack, MakeId;
    assert (es + [e])[..|es|] == es && (es + [e])[|es|] == e;
    var pc := if e.g in Run(c, es).value.pcs then Run(c, es).value.pcs[e.g] else Start(0);
    if e.g == g && e.ReadClock? {
      NoReadYet(es, g);
      assert Sequence(pc.word) < 4095 ==> (Sequence(pc.word) + 1) % 4096 == Sequence(pc.word) + 1;
    }
  }

  lemma NoReadYet(es: seq<Event>, g: nat)
    ensures forall now ::
              var more := es + [ReadClock(g, now)]; WaitSeen(more, g) == None && FirstRead(more, g) == Some(now)
  {
  }

  lemma {:induction false} RunFollows(c: Config, es: seq<Event>, g: nat)
    requires Run(c, es).Some? && g in Run(c, es).value.pcs
    ensures PcFollows(es, g, Run(c, es).value.pcs[g])
  {
    hide PcFollows, Enabled, Apply;
    if es != [] {
      var n := |es| - 1;
      assert es[..n] + [es[n]] == es;
      if g in Run(c, es[..n]).value.pcs {
        RunFollows(c, es[..n], g);
      }
      StepFollows(c, es[..n], es[n], g);
    }
  }

  /** Every ID of every run, for any clock: with `now` the clock read after the last load, and `last`
      and `q` the time and the sequence of the ID issued before, if any, the new ID is the first of
      millisecond `now` when that is later, else the next one of `last`, and with all 4096 of those
      used up the first of the millisecond that is read after waiting. */
  lemma IssueFollowsClock(c: Config, es: seq<Event>, g: nat)
    requires Run(c, es + [Cas(g)]).Some?
    requires Run(c, es).Some? && |Run(c, es + [Cas(g)]).value.issued| > |Run(c, es).value.issued|
    ensures var (ids, more) := (Run(c, es).value.issued, Run(c, es + [Cas(g)]).value.issued);
      var last, q := if ids == [] then 0 else ids[|ids| - 1].time, if ids == [] then 0 else ids[|ids| - 1].sequence;
      && |more| == |ids| + 1 && more[..|ids|] == ids
      && FirstRead(es, g).Some?
      && var (added, now) := (more[|ids|], FirstRead(es, g).value);
      && (now > last ==> added.time == now && added.sequence == 0)
      && (now <= last && q < 4095 ==> added.time == last && added.sequence == q + 1)
      && (now <= last && q == 4095 ==>
            && ReadAgain(es, g) == Some(added.time) && added.sequence == 0
            && WaitSeen(es, g).Some?
            && (if now < last then WaitSeen(es, g).value >= last else WaitSeen(es, g).value > last))
      && q <= 4095
  {
    assert (es + [Cas(g)])[..|es|] == es && (es + [Cas(g)])[|es|] == Cas(g);
    var s := Run(c, es).value;
    assert Enabled(s, Cas(g)) && Run(c, es + [Cas(g)]) == Some(Apply(c, s, Cas(g)));
    RunFollows(c, es, g);
    RunRecorded(c, es);
    LastIssue(c, s);
    hide Run, MakeId, Pack, Recorded, FirstRead, WaitSeen, ReadAgain;
  }

  lemma LastIssue(c: Config, s: State)
    requires Recorded(c, s)
    ensures s.issued == [] ==> s.word / 4096 == 0 && s.word % 4096 == 0
    ensures s.issued != [] ==>
      var i := s.issued[|s.issued| - 1];
      s.word / 4096 == i.time && s.word % 4096 == i.sequence && 0 <= i.sequence <= 4095
  {
    hide MakeId;
  }

  // ---------------------------------------------------------------- without the clock assumption

  ghost predicate ReadyOk(pc: Pc) {
    && (pc.Waiting? || pc.Rereading? ==> Sequence(pc.word) == SEQUENCES - 1)
    && (pc.Ready? && !pc.reread ==> pc.word < Pack(pc.time, pc.sequence))
    && (pc.Ready? && pc.reread ==> Sequence(pc.word) == SEQUENCES - 1 && pc.sequence == 0)
  }

  lemma {:induction false} RunReadyOk(c: Config, es: seq<Event>)
    requires Run(c, es).Some?
    ensures forall g :: g in Run(c, es).value.pcs ==> ReadyOk(Run(c, es).value.pcs[g])
  {
    if es != [] {
      RunReadyOk(c, es[..|es|-1]);
      var s, e := Run(c, es[..|es|-1]).value, es[|es|-1];
      if e.ReadClock? {
        AfterClockAdvances(s.pcs[e.g], e.now);
      }
    }
  }

  /** For any clock: a successful swap moves the word up if and only if it was not computed
      from a re-read that came out at or before the last timestamp used. */
  lemma SwapAdvancesIff(c: Config, es: seq<Event>, g: nat)
    requires Run(c, es).Some? && Enabled(Run(c, es).value, Cas(g))
    requires Run(c, es).value.word == Run(c, es).value.pcs[g].word
    ensures var s := Run(c, es).value;
      s.word < Apply(c, s, Cas(g)).word <==> !(s.pcs[g].reread && s.pcs[g].time <= LastTime(s.pcs[g].word))
  {
    RunReadyOk(c, es);
    var pc := Run(c, es).value.pcs[g];
    assert ReadyOk(pc);
    if pc.reread {
      RereadAdvancesIff(pc.word, pc.time);
    }
  }

  /** A swap that succeeds with a re-read at or before the last timestamp used. */
  ghost predicate SwapsBack(s: State, e: Event) {
    e.Cas? && Enabled(s, e) && s.word == s.pcs[e.g].word
    && s.pcs[e.g].reread && s.pcs[e.g].time <= LastTime(s.pcs[e.g].word)
  }

  ghost predicate NeverSwapsBack(c: Config, es: seq<Event>) {
    forall k :: 0 <= k < |es| && Run(c, es[..k]).Some? ==> !SwapsBack(Run(c, es[..k]).value, es[k])
  }

  lemma NeverSwapsBackSnoc(c: Config, es: seq<Event>)
    requires es != [] && Run(c, es[..|es|-1]).Some?
    ensures var n := |es| - 1;
      NeverSwapsBack(c, es) <==> NeverSwapsBack(c, es[..n]) && !SwapsBack(Run(c, es[..n]).value, es[n])
  {
    hide Run, SwapsBack;
    var n := |es| - 1;
    forall k | 0 <= k < n ensures es[..n][..k] == es[..k] && es[..n][k] == es[k] {
    }
    if NeverSwapsBack(c, es) {
      forall k | 0 <= k < n && Run(c, es[..n][..k]).Some? ensures !SwapsBack(Run(c, es[..n][..k]).value, es[..n][k]) {
        assert Run(c, es[..k]).Some?;
      }
    }
    if NeverSwapsBack(c, es[..n]) && !SwapsBack(Run(c, es[..n]).value, es[n]) {
      forall k | 0 <= k < |es| && Run(c, es[..k]).Some? ensures !SwapsBack(Run(c, es[..k]).value, es[k]) {
        if k < n {
          assert Run(c, es[..n][..k]).Some?;
        }
      }
    }
  }

  /** What holds of any run: the word is that of the last ID issued, and IDs are built from
      their fields. */
  ghost predicate Recorded(c: Config, s: State) {
    && s.word == (if s.issued == [] then 0
                  else Pack(s.issued[|s.issued|-1].time, s.issued[|s.issued|-1].sequence))
    && (forall i :: 0 <= i < |s.issued| ==>
          && 0 <= s.issued[i].sequence < SEQUENCES
          && s.issued[i].id == MakeId(c, s.issued[i].time, s.issued[i].sequence))
    && forall g :: g in s.pcs && s.pcs[g].Ready? ==> 0 <= s.pcs[g].sequence < SEQUENCES
  }

  lemma {:induction false} RunRecorded(c: Config, es: seq<Event>)
    requires Run(c, es).Some?
    ensures Recorded(c, Run(c, es).value)
  {
    hide Pack, MakeId;
    if es != [] {
      RunRecorded(c, es[..|es|-1]);
    }
  }

  /** The issued words stay in order over one more event exactly when that does not swap back. */
  lemma OneMoreEvent(c: Config, es: seq<Event>, e: Event)
    requires Run(c, es).Some? && Enabled(Run(c, es).value, e)
    ensures var s := Run(c, es).value;
      IssuedInOrder(Apply(c, s, e).issued) <==> IssuedInOrder(s.issued) && !SwapsBack(s, e)
  {
    hide Run, IssuedInOrder, Pack;
    var s := Run(c, es).value;
    if e.Cas? && s.word == s.pcs[e.g].word {
      RunRecorded(c, es);
      SwapAdvancesIff(c, es, e.g);
      FirstSwap(c, es, e.g);
      OneMoreInOrder(s.issued, Apply(c, s, e).issued);
    } else {
      assert Apply(c, s, e).issued == s.issued;
    }
  }

  /** For any clock and every run: the words issued are in order if and only if no swap ever
      succeeded with a re-read at or before its last timestamp. */
  lemma {:induction false} InOrderIff(c: Config, es: seq<Event>)
    requires Run(c, es).Some?
    ensures IssuedInOrder(Run(c, es).value.issued) <==> NeverSwapsBack(c, es)
  {
    hide Apply, Enabled, SwapsBack;
    if es != [] {
      var n := |es| - 1;
      InOrderIff(c, es[..n]);
      NeverSwapsBackSnoc(c, es);
      OneMoreEvent(c, es[..n], es[n]);
    }
  }

  /** The first ID of all never comes from a re-read. */
  lemma FirstSwap(c: Config, es: seq<Event>, g: nat)
    requires Run(c, es).Some? && Enabled(Run(c, es).value, Cas(g))
    requires Run(c, es).value.word == Run(c, es).value.pcs[g].word
    ensures Run(c, es).value.issued == [] ==> !SwapsBack(Run(c, es).value, Cas(g))
  {
    RunReadyOk(c, es);
    RunRecorded(c, es);
    assert ReadyOk(Run(c, es).value.pcs[g]);
  }

  lemma OneMoreInOrder(a: seq<Issue>, b: seq<Issue>)
    requires |b| == |a| + 1 && b[..|a|] == a
    ensures IssuedInOrder(b) <==>
            IssuedInOrder(a) &&
            (a != [] ==> Pack(a[|a|-1].time, a[|a|-1].sequence) < Pack(b[|a|].time, b[|a|].sequence))
  {
    hide Pack;
    forall i | 0 <= i < |a| ensures a[i] == b[i] {
    }
  }

  /** So the IDs themselves are in order, as long as their timestamps fit, exactly then. */
  lemma IdsInOrderIff(c: Config, es: seq<Event>)
    requires ValidConfig(c) && Run(c, es).Some?
    requires forall i :: 0 <= i < |Run(c, es).value.issued| ==> FitsTimestamp(c, Run(c, es).value.issued[i])
    ensures var ids := Run(c, es).value.issued;
      (forall i, j :: 0 <= i < j < |ids| ==> ids[i].id < ids[j].id) <==> NeverSwapsBack(c, es)
  {
    RunRecorded(c, es);
    InOrderIff(c, es);
    hide NeverSwapsBack, Run;
    var ids := Run(c, es).value.issued;
    forall i, j | 0 <= i < j < |ids|
      ensures ids[i].id < ids[j].id <==> Pack(ids[i].time, ids[i].sequence) < Pack(ids[j].time, ids[j].sequence)
    {
      IdOrder(c, ids[i], ids[j]);
    }
  }

  lemma IdOrder(c: Config, i: Issue, j: Issue)
    requires ValidConfig(c) && FitsTimestamp(c, i) && FitsTimestamp(c, j)
    requires 0 <= i.sequence < SEQUENCES && i.id == MakeId(c, i.time, i.sequence)
    requires 0 <= j.sequence < SEQUENCES && j.id == MakeId(c, j.time, j.sequence)
    ensures i.id < j.id <==> Pack(i.time, i.sequence) < Pack(j.time, j.sequence)
  {
    IdFields(c, i);
    IdFields(c, j);
  }

  /** `n` calls of goroutine 0 that all read the clock as `t`. */
  function Burst(t: int, n: nat): seq<Event> {
    if n == 0 then [] else Burst(t, n - 1) + [Call(0), Load(0), ReadClock(0, t), Cas(0)]
  }

  lemma RunSnoc(c: Config, es: seq<Event>, e: Event)
    requires Run(c, es).Some? && Enabled(Run(c, es).value, e)
    ensures Run(c, es + [e]) == Some(Apply(c, Run(c, es).value, e))
  {
    assert (es + [e])[..|es|] == es;
  }

  /** One call by goroutine 0, alone, with the clock at `t`. */
  lemma LoneCall(c: Config, es: seq<Event>, t: int, sequence: int)
    requires Run(c, es).Some? && Run(c, es).value.pcs == map[]
    requires var s := Run(c, es).value; var n := |s.issued|;
      AfterClock(Loaded(n, n, s.word), t) == Ready(n, n, s.word, t, sequence, false)
    ensures var s := Run(c, es).value; var n := |s.issued|;
      Run(c, es + [Call(0), Load(0), ReadClock(0, t), Cas(0)]) ==
      Some(State(Pack(t, sequence), map[], s.issued + [Issue(MakeId(c, t, sequence), t, sequence, n)]))
  {
    var s := Run(c, es).value;
    var n := |s.issued|;
    RunSnoc(c, es, Call(0));
    RunSnoc(c, es + [Call(0)], Load(0));
    var s2 := s.(pcs := map[0 := Loaded(n, n, s.word)]);
    assert Apply(c, s.(pcs := map[0 := Start(n)]), Load(0)) == s2;
    RunSnoc(c, es + [Call(0)] + [Load(0)], ReadClock(0, t));
    var s3 := s.(pcs := map[0 := Ready(n, n, s.word, t, sequence, false)]);
    assert Apply(c, s2, ReadClock(0, t)) == s3;
    RunSnoc(c, es + [Call(0)] + [Load(0)] + [ReadClock(0, t)], Cas(0));
    assert s3.pcs - {0} == map[];
    assert es + [Call(0)] + [Load(0)] + [ReadClock(0, t)] + [Cas(0)]
        == es + [Call(0), Load(0), ReadClock(0, t), Cas(0)];
  }

  lemma {:induction false} BurstIssues(c: Config, t: int, n: nat)
    requires 0 < t && n <= SEQUENCES
    ensures Run(c, Burst(t, n)).Some?
    ensures var s := Run(c, Burst(t, n)).value;
      && s.pcs == map[]
      && |s.issued| == n
      && (forall i :: 0 <= i < n ==> s.issued[i] == Issue(MakeId(c, t, i), t, i, i))
      && s.word == if n == 0 then 0 else Pack(t, n - 1)
  {
    if n > 0 {
      BurstIssues(c, t, n - 1);
      if n > 1 {
        var word := Run(c, Burst(t, n - 1)).value.word;
        assert LastTime(word) == t && Sequence(word) == n - 2;
      }
      LoneCall(c, Burst(t, n - 1), t, n - 1);
    }
  }

  /** A call that finds the sequence of time `t` exhausted and the clock behind. */
  lemma LateCall(c: Config, before: seq<Event>, t: int) returns (es: seq<Event>)
    requires 1 < t && Run(c, before).Some?
    requires var s := Run(c, before).value;
      s.pcs == map[] && LastTime(s.word) == t && Sequence(s.word) == SEQUENCES - 1
    ensures Run(c, es).Some?
    ensures var (ids, later) := (Run(c, before).value.issued, Run(c, es).value.issued);
      |later| == |ids| + 1 && later[..|ids|] == ids && later[|ids|].id == MakeId(c, t, 0)
  {
    hide Run, LastTime, Sequence, Pack, MakeId;
    es := before + [Call(0)];
    RunSnoc(c, before, Call(0));
    RunSnoc(c, es, Load(0));
    es := es + [Load(0)];
    RunSnoc(c, es, ReadClock(0, t - 1));
    es := es + [ReadClock(0, t - 1)];
    RunSnoc(c, es, WaitRead(0, t));
    es := es + [WaitRead(0, t)];
    RunSnoc(c, es, Reread(0, t));
    es := es + [Reread(0, t)];
    RunSnoc(c, es, Cas(0));
    es := es + [Cas(0)];
  }

  /** The clock assumption is needed.  After 4096 IDs in millisecond `t` the clock steps back,
      the backwards branch waits only until it reads `t` again, and the next ID repeats the
      first one. */
  lemma BackwardsClockRepeatsAnId(c: Config, t: int) returns (es: seq<Event>)
    requires 1 < t
    ensures Run(c, es).Some?
    ensures var ids := Run(c, es).value.issued;
      |ids| == SEQUENCES + 1 && ids[SEQUENCES].id == ids[0].id
  {
    var burst := Burst(t, SEQUENCES);
    BurstIssues(c, t, SEQUENCES);
    assert LastTime(Pack(t, SEQUENCES - 1)) == t && Sequence(Pack(t, SEQUENCES - 1)) == SEQUENCES - 1;
    es := LateCall(c, burst, t);
  }
}
