/** The same messages as the web client writes and reads them: the generated encoders and
    decoders, one call of the bit stream after another, in the order of
    web-client/src/SuperChatCodec.ts. */
module TsMessages {
  import opened BitStream
  import opened BitStreamClasses
  import opened Codec
  import opened GoMessages
  import opened Layouts
  import opened Octets
  import opened Positional
  import opened Records
  import opened TsCodec
  import opened Wire
  import opened Wrappers

  /** An optional field; its presence is a number that the client sets, and reads, as it is. */
  datatype Maybe<T> = Maybe(present: nat, value: Option<T>)

  /** What is written of it counts as a value only with the number 1. */
  function Meant<T>(m: Maybe<T>): Option<T> {
    if m.present == 1 then m.value else None
  }

  /** The number is 1 and there is a value, or its byte is 0. */
  predicate Plain<T>(m: Maybe<T>) {
    m.present % 256 == 0 || (m.present == 1 && m.value.Some?)
  }

  datatype TsChannel = TsChannel(
    id: nat, name: seq<Octet>, description: seq<Octet>, userCount: nat, isOperator: nat, kind: nat,
    retentionHours: nat)

  datatype TsChat = TsChat(
    id: nat, channelId: nat, subchannelId: Maybe<nat>, parentId: Maybe<nat>, authorId: Maybe<nat>,
    nickname: seq<Octet>, content: seq<Octet>, createdAt: int, editedAt: Maybe<int>, replyCount: nat)

  datatype TsPage = TsPage(channelId: nat, subchannelId: Maybe<nat>, parentId: Maybe<nat>, count: nat,
                           messages: seq<TsChat>)

  datatype TsPost = TsPost(channelId: nat, subchannelId: Maybe<nat>, parentId: Maybe<nat>, content: seq<Octet>)

  datatype TsConfig = TsConfig(
    protocolVersion: nat, messageRate: nat, channelCreates: nat, cleanupDays: nat, connectionsPerIp: nat,
    messageLength: nat, threadSubscriptions: nat, channelSubscriptions: nat, directoryEnabled: nat)

  // ---------------------------------------------------------------- as field values

  function ChannelValues(c: TsChannel): (vs: seq<Value>)
    ensures |vs| == 7
  {
    [Num(c.id), Str(c.name), Str(c.description), Num(c.userCount), Num(c.isOperator), Num(c.kind),
     Num(c.retentionHours)]
  }

  function ChatValues(c: TsChat): (vs: seq<Value>)
    ensures |vs| == 10
  {
    [Num(c.id), Num(c.channelId), Opt(Meant(c.subchannelId)), Opt(Meant(c.parentId)), Opt(Meant(c.authorId)),
     Str(c.nickname), Str(c.content), Int(c.createdAt), OptInt(Meant(c.editedAt)), Num(c.replyCount)]
  }

  function PageValues(p: TsPage): (vs: seq<Value>)
    ensures |vs| == 3
  {
    [Num(p.channelId), Opt(Meant(p.subchannelId)), Opt(Meant(p.parentId))]
  }

  function PostValues(p: TsPost): (vs: seq<Value>)
    ensures |vs| == 4
  {
    [Num(p.channelId), Opt(Meant(p.subchannelId)), Opt(Meant(p.parentId)), Str(p.content)]
  }

  function ConfigValues(c: TsConfig): (vs: seq<Value>)
    ensures |vs| == 9
  {
    [Num(c.protocolVersion), Num(c.messageRate), Num(c.channelCreates), Num(c.cleanupDays), Num(c.connectionsPerIp),
     Num(c.messageLength), Num(c.threadSubscriptions), Num(c.channelSubscriptions), Num(c.directoryEnabled)]
  }

  function ChannelListValue(channels: seq<TsChannel>): Message {
    Message([], Rows(channels, ChannelValues))
  }

  function PageValue(p: TsPage): Message {
    Message(PageValues(p), Rows(p.messages, ChatValues))
  }

  predicate PlainChat(c: TsChat) {
    Plain(c.subchannelId) && Plain(c.parentId) && Plain(c.authorId) && Plain(c.editedAt)
  }

  predicate PlainPage(p: TsPage) {
    && Plain(p.subchannelId) && Plain(p.parentId) && p.count % 65536 == |p.messages| % 65536
    && forall i :: 0 <= i < |p.messages| ==> PlainChat(p.messages[i])
  }

  // ---------------------------------------------------------------- bytes that match, or part

  /** The two differ at some place. */
  ghost predicate Apart(a: seq<Octet>, b: seq<Octet>) {
    exists k :: 0 <= k < |a| && k < |b| && a[k] != b[k]
  }

  ghost predicate Matches(same: bool, a: seq<Octet>, b: seq<Octet>) {
    if same then a == b else Apart(a, b)
  }

  lemma MatchesMore(same: bool, a: seq<Octet>, b: seq<Octet>, more: bool, x: seq<Octet>, y: seq<Octet>)
    requires Matches(same, a, b) && Matches(more, x, y)
    ensures Matches(same && more, a + x, b + y)
  {
    if !same {
      var k :| 0 <= k < |a| && k < |b| && a[k] != b[k];
      assert (a + x)[k] != (b + y)[k];
    } else if !more {
      var k :| 0 <= k < |x| && k < |y| && x[k] != y[k];
      assert (a + x)[|a| + k] != (b + y)[|b| + k];
    }
  }

  lemma MatchesSame(same: bool, a: seq<Octet>, b: seq<Octet>, x: seq<Octet>)
    requires Matches(same, a, b)
    ensures Matches(same, a + x, b + x)
  {
    hide Apart;
    MatchesMore(same, a, b, true, x, x);
  }

  lemma NoneOrAll(same: bool, a: seq<Octet>, b: seq<Octet>)
    requires Matches(same, a, b)
    ensures a == b <==> same
  {
  }

  /** What is written of an optional field, whatever its number. */
  function MaybeBytes(m: Maybe<nat>): seq<Octet> {
    Be(m.present, 1) + if m.present == 1 && m.value.Some? then Be(m.value.value, 8) else []
  }

  function MaybeTimeBytes(m: Maybe<int>): seq<Octet> {
    Be(m.present, 1) + if m.present == 1 && m.value.Some? then Be(m.value.value, 8) else []
  }

  lemma MaybeMatches(same: bool, a: seq<Octet>, b: seq<Octet>, m: Maybe<nat>)
    requires Matches(same, a, b)
    ensures Matches(same && Plain(m), a + MaybeBytes(m), b + OptionalBytes(Meant(m)))
  {
    hide Be;
    LowByte(m.present);
    LowByte(1);
    LowByte(0);
    OptBytes(Meant(m));
    var x, y := MaybeBytes(m), OptionalBytes(Meant(m));
    assert !Plain(m) ==> x[0] != y[0];
    MatchesMore(same, a, b, Plain(m), x, y);
  }

  lemma MaybeTimeMatches(same: bool, a: seq<Octet>, b: seq<Octet>, m: Maybe<int>)
    requires Matches(same, a, b)
    ensures Matches(same && Plain(m), a + MaybeTimeBytes(m), b + OptionalTimeBytes(Meant(m)))
  {
    hide Be;
    LowByte(m.present);
    LowByte(1);
    LowByte(0);
    OptTimeBytes(Meant(m));
    var x, y := MaybeTimeBytes(m), OptionalTimeBytes(Meant(m));
    assert !Plain(m) ==> x[0] != y[0];
    MatchesMore(same, a, b, Plain(m), x, y);
  }

  /** What is written of a message, after `start`. */
  function ChatWritten(start: seq<Octet>, c: TsChat): seq<Octet> {
    start + Be(c.id, 8) + Be(c.channelId, 8) + MaybeBytes(c.subchannelId) + MaybeBytes(c.parentId)
    + MaybeBytes(c.authorId) + TextBytes(c.nickname) + TextBytes(c.content) + Be(c.createdAt, 8)
    + MaybeTimeBytes(c.editedAt) + Be(c.replyCount, 4)
  }

  /** It is the record of the layout exactly when the message is plain. */
  lemma ChatMatches(same: bool, a: seq<Octet>, b: seq<Octet>, c: TsChat)
    requires Matches(same, a, b)
    ensures Matches(same && PlainChat(c), ChatWritten(a, c), b + RecordBytes(Always(MESSAGE_KINDS), ChatValues(c)))
  {
    hide Be, TextBytes, MaybeBytes, MaybeTimeBytes, OptionalBytes, OptionalTimeBytes, Matches, Plain, Meant;
    hide RecordBytes;
    ChatBytes(b, ChatValues(c));
    MatchesSame(same, a, b, Be(c.id, 8));
    var a2, b2 := a + Be(c.id, 8) + Be(c.channelId, 8), b + Be(c.id, 8) + Be(c.channelId, 8);
    MatchesSame(same, a + Be(c.id, 8), b + Be(c.id, 8), Be(c.channelId, 8));
    var same3, a3, b3 := ThreeMaybes(same, a2, b2, c);
    MatchesSame(same3, a3, b3, TextBytes(c.nickname));
    MatchesSame(same3, a3 + TextBytes(c.nickname), b3 + TextBytes(c.nickname), TextBytes(c.content));
    var a5, b5 := a3 + TextBytes(c.nickname) + TextBytes(c.content), b3 + TextBytes(c.nickname) + TextBytes(c.content);
    MatchesSame(same3, a5, b5, Be(c.createdAt, 8));
    MaybeTimeMatches(same3, a5 + Be(c.createdAt, 8), b5 + Be(c.createdAt, 8), c.editedAt);
    MatchesSame(same3 && Plain(c.editedAt), a5 + Be(c.createdAt, 8) + MaybeTimeBytes(c.editedAt),
                b5 + Be(c.createdAt, 8) + OptionalTimeBytes(Meant(c.editedAt)), Be(c.replyCount, 4));
  }

  lemma ThreeMaybes(same: bool, a: seq<Octet>, b: seq<Octet>, c: TsChat)
    returns (same3: bool, a3: seq<Octet>, b3: seq<Octet>)
    requires Matches(same, a, b)
    ensures same3 == (same && Plain(c.subchannelId) && Plain(c.parentId) && Plain(c.authorId))
    ensures a3 == a + MaybeBytes(c.subchannelId) + MaybeBytes(c.parentId) + MaybeBytes(c.authorId)
    ensures b3 == b + OptionalBytes(Meant(c.subchannelId)) + OptionalBytes(Meant(c.parentId))
            + OptionalBytes(Meant(c.authorId))
    ensures Matches(same3, a3, b3)
  {
    hide MaybeBytes, OptionalBytes, Matches, Plain, Meant;
    MaybeMatches(same, a, b, c.subchannelId);
    var a1, b1 := a + MaybeBytes(c.subchannelId), b + OptionalBytes(Meant(c.subchannelId));
    MaybeMatches(same && Plain(c.subchannelId), a1, b1, c.parentId);
    var a2, b2 := a1 + MaybeBytes(c.parentId), b1 + OptionalBytes(Meant(c.parentId));
    MaybeMatches(same && Plain(c.subchannelId) && Plain(c.parentId), a2, b2, c.authorId);
    same3 := same && Plain(c.subchannelId) && Plain(c.parentId) && Plain(c.authorId);
    a3, b3 := a2 + MaybeBytes(c.authorId), b2 + OptionalBytes(Meant(c.authorId));
  }

  /** Two counts have the same two bytes exactly when they are the same modulo 65536. */
  lemma SameCount(count: nat, size: nat)
    ensures Be(count, 2) == Be(size, 2) <==> count % 65536 == size % 65536
  {
    var x, y := Be(count, 2), Be(size, 2);
    ByteWeights();
    MaskedDigits(Byte, count, 2);
    MaskedDigits(Byte, size, 2);
    hide Digits, Reverse, GetNumber, Pow;
    if x == y {
      NumberBack(x, 0, count, 2);
      NumberBack(x, 0, size, 2);
    }
  }

  lemma CountMatches(same: bool, a: seq<Octet>, b: seq<Octet>, count: nat, size: nat)
    requires Matches(same, a, b)
    ensures Matches(same && count % 65536 == size % 65536, a + Be(count, 2), b + Be(size, 2))
  {
    hide Be, Matches;
    var equal := count % 65536 == size % 65536;
    SameCount(count, size);
    TwoBytes(equal, Be(count, 2), Be(size, 2));
    MatchesMore(same, a, b, equal, Be(count, 2), Be(size, 2));
  }

  lemma TwoBytes(same: bool, x: seq<Octet>, y: seq<Octet>)
    requires |x| == |y| == 2 && (x == y <==> same)
    ensures Matches(same, x, y)
  {
    assert x == [x[0], x[1]] && y == [y[0], y[1]];
  }

  // ---------------------------------------------------------------- writing

  /** At a byte boundary every whole-byte write appends the big-endian bytes. */
  lemma WritesAligned()
    ensures forall o, e: Enc, v: int, w: nat {:trigger PutOp(o, e, Unsigned(v, w, BigEndian))} :: e.off == 0 ==>
              PutOp(o, e, Unsigned(v, w, BigEndian)) == Enc(e.bytes + Be(v, w), e.cur, 0)
    ensures forall o, e: Enc, v: int, w: nat {:trigger PutOp(o, e, Signed(v, w, BigEndian))} :: e.off == 0 ==>
              PutOp(o, e, Signed(v, w, BigEndian)) == Enc(e.bytes + Be(v, w), e.cur, 0)
    ensures forall o, e: Enc, n: nat {:trigger PutByte(o, e, n % 256)} :: e.off == 0 ==>
              PutByte(o, e, n % 256) == Enc(e.bytes + Be(n, 1), e.cur, 0)
  {
    hide PutOp, Be;
    forall o, e: Enc, v: int, w: nat | e.off == 0
      ensures PutOp(o, e, Unsigned(v, w, BigEndian)) == Enc(e.bytes + Be(v, w), e.cur, 0)
      ensures PutOp(o, e, Signed(v, w, BigEndian)) == Enc(e.bytes + Be(v, w), e.cur, 0)
    {
      AlignedWrite(o, e, v, w);
    }
    forall n: nat ensures Be(n, 1) == [n % 256] {
      LowByte(n);
    }
  }

  method EncodeChannel(e: BitStreamEncoder, c: TsChannel)
    requires e.bitOffset == 0
    modifies e
    ensures e.bitOffset == 0 && e.currentByte == old(e.currentByte)
    ensures e.bytes == old(e.bytes) + RecordBytes(Always(CHANNEL_KINDS), ChannelValues(c))
  {
    hide RecordBytes, PutOp, PutByte, Be, TextBytes;
    ChannelBytes(e.bytes, ChannelValues(c));
    WritesAligned();
    e.WriteUint64(c.id, BigEndian);
    WriteText(e, c.name);
    WriteText(e, c.description);
    e.WriteUint32(c.userCount, BigEndian);
    e.WriteUint8(c.isOperator);
    e.WriteUint8(c.kind);
    e.WriteUint32(c.retentionHours, BigEndian);
  }

  method EncodeChannelList(count: nat, channels: seq<TsChannel>, ghost m: Message) returns (bytes: seq<Octet>)
    requires TypedMessage(LayoutOf(Web(ChannelList)), m) && NativeMessage(TypeScript, m) == ChannelListValue(channels)
    ensures bytes == MessageBytes(LayoutOf(Web(ChannelList)), m) <==> count % 65536 == |channels| % 65536
  {
    hide RecordPrefix, RowsPrefix, PutOp, PutByte, Be, OptionalBytes, LayoutOf, TypedMessage, MessageBytes;
    hide NativeMessage;
    hide Matches;
    ghost var fs, same := Always(CHANNEL_KINDS), count % 65536 == |channels| % 65536;
    ListParts(Web(ChannelList), [], CHANNEL_KINDS, m);
    var e := new BitStreamEncoder(MsbFirst);
    WritesAligned();
    e.WriteUint16(count, BigEndian);
    ghost var head := [] + Be(|m.items|, 2);
    NothingYet();
    CountMatches(true, [], [], count, |channels|);
    RowsStart(head, fs, m.items);
    for i := 0 to |channels|
      invariant e.bitOffset == 0 && Matches(same, e.bytes, head + RowsPrefix(fs, m.items, i))
    {
      RowWritten(head, fs, m.items, i);
      NativeBytes(fs, m.items[i]);
      MatchesSame(same, e.bytes, head + RowsPrefix(fs, m.items, i), RecordBytes(fs, ChannelValues(channels[i])));
      EncodeChannel(e, channels[i]);
    }
    bytes := e.FinishStream();
    NoneOrAll(same, bytes, MessageBytes(LayoutOf(Web(ChannelList)), m));
  }

  /** The bytes of a message with a list, from those of its native form. */
  lemma ListParts(t: MessageType, ks: seq<Kind>, items: seq<Kind>, m: Message)
    requires !t.AuthResponse? && ShapeOf(t) == Listing(ks, Two, items) && TypedMessage(LayoutOf(t), m)
    ensures |ks| == |m.header| && TypedRows(Always(items), m.items)
    ensures |NativeMessage(TypeScript, m).items| == |m.items|
    ensures forall i :: 0 <= i < |m.items| ==>
            NativeMessage(TypeScript, m).items[i] == NativeRecord(TypeScript, m.items[i])
    ensures MessageBytes(LayoutOf(t), m) == RecordBytes(Always(ks), NativeMessage(TypeScript, m).header)
            + Be(|m.items|, 2) + RowsPrefix(Always(items), m.items, |m.items|)
    ensures ks == [] ==> RecordBytes(Always(ks), NativeMessage(TypeScript, m).header) == []
  {
    hide Typed, ShapeOf, RowsPrefix, Be, NativeRecord;
    NativeBytes(Always(ks), m.header);
  }

  method WriteMaybe(e: BitStreamEncoder, m: Maybe<nat>)
    requires e.bitOffset == 0
    modifies e
    ensures e.bitOffset == 0 && e.currentByte == old(e.currentByte)
    ensures e.bytes == old(e.bytes) + MaybeBytes(m)
  {
    hide PutOp, PutByte, Be;
    WritesAligned();
    e.WriteUint8(m.present);
    if m.present == 1 && m.value.Some? {
      e.WriteUint64(m.value.value, BigEndian);
    }
  }

  method WriteMaybeTime(e: BitStreamEncoder, m: Maybe<int>)
    requires e.bitOffset == 0
    modifies e
    ensures e.bitOffset == 0 && e.currentByte == old(e.currentByte)
    ensures e.bytes == old(e.bytes) + MaybeTimeBytes(m)
  {
    hide PutOp, PutByte, Be;
    WritesAligned();
    e.WriteUint8(m.present);
    if m.present == 1 && m.value.Some? {
      e.WriteInt64(m.value.value, BigEndian);
    }
  }

  /** NewMessage, and each message of a MessageList, plain or not. */
  method EncodeChat(e: BitStreamEncoder, c: TsChat)
    requires e.bitOffset == 0
    modifies e
    ensures e.bitOffset == 0 && e.currentByte == old(e.currentByte)
    ensures e.bytes == ChatWritten(old(e.bytes), c)
  {
    hide PutOp, PutByte, Be, TextBytes, MaybeBytes, MaybeTimeBytes;
    WritesAligned();
    e.WriteUint64(c.id, BigEndian);
    e.WriteUint64(c.channelId, BigEndian);
    WriteMaybe(e, c.subchannelId);
    WriteMaybe(e, c.parentId);
    WriteMaybe(e, c.authorId);
    WriteText(e, c.nickname);
    WriteText(e, c.content);
    e.WriteInt64(c.createdAt, BigEndian);
    WriteMaybeTime(e, c.editedAt);
    e.WriteUint32(c.replyCount, BigEndian);
  }

  method EncodeNewMessage(c: TsChat, ghost m: Message) returns (bytes: seq<Octet>)
    requires TypedMessage(LayoutOf(Web(NewMessage)), m) && NativeMessage(TypeScript, m) == Flatly(ChatValues(c))
    ensures bytes == ChatWritten([], c)
    ensures bytes == MessageBytes(LayoutOf(Web(NewMessage)), m) <==> PlainChat(c)
  {
    hide RecordBytes, LayoutOf, TypedMessage, MessageBytes, NativeMessage, Always, ChatWritten, PlainChat, Matches;
    ChatLayout();
    FlatNative(Web(NewMessage), MESSAGE_KINDS, m);
    var e := new BitStreamEncoder(MsbFirst);
    EncodeChat(e, c);
    bytes := e.FinishStream();
    NothingYet();
    ChatMatches(true, [], [], c);
    NoneOrAll(PlainChat(c), bytes, MessageBytes(LayoutOf(Web(NewMessage)), m));
  }

  lemma NothingYet()
    ensures Matches(true, [], [])
  {
  }

  lemma FlatNative(t: MessageType, ks: seq<Kind>, m: Message)
    requires LayoutOf(t) == Layout(Always(ks), None) && TypedMessage(LayoutOf(t), m)
    ensures |NativeMessage(TypeScript, m).header| == |ks|
    ensures MessageBytes(LayoutOf(t), m) == [] + RecordBytes(Always(ks), NativeMessage(TypeScript, m).header)
  {
    hide Typed, RecordPrefix, Be, NativeRecord, LayoutOf;
    NativeBytes(Always(ks), m.header);
  }

  method EncodeMessageList(p: TsPage, ghost m: Message) returns (bytes: seq<Octet>)
    requires TypedMessage(LayoutOf(Web(MessageList)), m) && NativeMessage(TypeScript, m) == PageValue(p)
    ensures bytes == MessageBytes(LayoutOf(Web(MessageList)), m) <==> PlainPage(p)
  {
    hide RecordBytes, RowsPrefix, PutOp, PutByte, Be, LayoutOf, TypedMessage, MessageBytes, NativeMessage;
    hide Plain, PlainChat;
    hide MaybeBytes, OptionalBytes, Meant, Matches, ChatWritten;
    ghost var fs := Always(MESSAGE_KINDS);
    ListParts(Web(MessageList), PAGE_KINDS, MESSAGE_KINDS, m);
    var e := new BitStreamEncoder(MsbFirst);
    WritesAligned();
    e.WriteUint64(p.channelId, BigEndian);
    WriteMaybe(e, p.subchannelId);
    WriteMaybe(e, p.parentId);
    e.WriteUint16(p.count, BigEndian);
    ghost var head := RecordBytes(Always(PAGE_KINDS), PageValues(p)) + Be(|m.items|, 2);
    ghost var plain := Plain(p.subchannelId) && Plain(p.parentId) && p.count % 65536 == |p.messages| % 65536;
    HeadMatches(p);
    RowsStart(head, fs, m.items);
    for i := 0 to |p.messages|
      invariant e.bitOffset == 0
      invariant plain == PlainUpTo(p, i)
      invariant Matches(plain, e.bytes, head + RowsPrefix(fs, m.items, i))
    {
      RowWritten(head, fs, m.items, i);
      NativeBytes(fs, m.items[i]);
      ChatMatches(plain, e.bytes, head + RowsPrefix(fs, m.items, i), p.messages[i]);
      EncodeChat(e, p.messages[i]);
      plain := plain && PlainChat(p.messages[i]);
    }
    bytes := e.FinishStream();
    NoneOrAll(plain, bytes, MessageBytes(LayoutOf(Web(MessageList)), m));
  }

  predicate PlainUpTo(p: TsPage, n: nat)
    requires n <= |p.messages|
  {
    && Plain(p.subchannelId) && Plain(p.parentId) && p.count % 65536 == |p.messages| % 65536
    && forall i :: 0 <= i < n ==> PlainChat(p.messages[i])
  }

  lemma HeadMatches(p: TsPage)
    ensures Matches(Plain(p.subchannelId) && Plain(p.parentId) && p.count % 65536 == |p.messages| % 65536,
                    [] + Be(p.channelId, 8) + MaybeBytes(p.subchannelId) + MaybeBytes(p.parentId) + Be(p.count, 2),
                    RecordBytes(Always(PAGE_KINDS), PageValues(p)) + Be(|p.messages|, 2))
  {
    hide Be, MaybeBytes, OptionalBytes, Matches, Plain, Meant, RecordBytes;
    NothingYet();
    PageBytes([], PageValues(p));
    assert [] + RecordBytes(Always(PAGE_KINDS), PageValues(p)) == RecordBytes(Always(PAGE_KINDS), PageValues(p));
    var a, b := [] + Be(p.channelId, 8), [] + Be(p.channelId, 8);
    MatchesSame(true, [], [], Be(p.channelId, 8));
    MaybeMatches(true, a, b, p.subchannelId);
    var a1, b1 := a + MaybeBytes(p.subchannelId), b + OptionalBytes(Meant(p.subchannelId));
    MaybeMatches(Plain(p.subchannelId), a1, b1, p.parentId);
    CountMatches(Plain(p.subchannelId) && Plain(p.parentId), a1 + MaybeBytes(p.parentId),
                 b1 + OptionalBytes(Meant(p.parentId)), p.count, |p.messages|);
  }

  method EncodePost(p: TsPost, ghost m: Message) returns (bytes: seq<Octet>)
    requires TypedMessage(LayoutOf(Web(PostMessage)), m) && NativeMessage(TypeScript, m) == Flatly(PostValues(p))
    ensures bytes == MessageBytes(LayoutOf(Web(PostMessage)), m) <==> Plain(p.subchannelId) && Plain(p.parentId)
  {
    hide RecordBytes, PutOp, PutByte, Be, TextBytes, LayoutOf, TypedMessage, MessageBytes, NativeMessage, Plain;
    hide MaybeBytes, OptionalBytes, Meant, Matches;
    PostShape();
    FlatNative(Web(PostMessage), POST_KINDS, m);
    var e := new BitStreamEncoder(MsbFirst);
    WritesAligned();
    e.WriteUint64(p.channelId, BigEndian);
    WriteMaybe(e, p.subchannelId);
    WriteMaybe(e, p.parentId);
    WriteText(e, p.content);
    bytes := e.FinishStream();
    PostMatches(p);
    NoneOrAll(Plain(p.subchannelId) && Plain(p.parentId), bytes, MessageBytes(LayoutOf(Web(PostMessage)), m));
  }

  lemma PostMatches(p: TsPost)
    ensures Matches(Plain(p.subchannelId) && Plain(p.parentId),
                    [] + Be(p.channelId, 8) + MaybeBytes(p.subchannelId) + MaybeBytes(p.parentId)
                        + TextBytes(p.content),
                    [] + RecordBytes(Always(POST_KINDS), PostValues(p)))
  {
    hide Be, TextBytes, MaybeBytes, OptionalBytes, Matches, Plain, Meant, RecordBytes;
    NothingYet();
    PostBytes([], PostValues(p));
    var a, b := [] + Be(p.channelId, 8), [] + Be(p.channelId, 8);
    MatchesSame(true, [], [], Be(p.channelId, 8));
    MaybeMatches(true, a, b, p.subchannelId);
    var a1, b1 := a + MaybeBytes(p.subchannelId), b + OptionalBytes(Meant(p.subchannelId));
    MaybeMatches(Plain(p.subchannelId), a1, b1, p.parentId);
    MatchesSame(Plain(p.subchannelId) && Plain(p.parentId), a1 + MaybeBytes(p.parentId),
                b1 + OptionalBytes(Meant(p.parentId)), TextBytes(p.content));
  }

  method EncodeConfig(c: TsConfig, ghost m: Message) returns (bytes: seq<Octet>)
    requires TypedMessage(LayoutOf(Web(ServerConfig)), m) && NativeMessage(TypeScript, m) == Flatly(ConfigValues(c))
    ensures bytes == MessageBytes(LayoutOf(Web(ServerConfig)), m)
  {
    hide PutOp, PutByte, Be, LayoutOf, TypedMessage, MessageBytes, NativeMessage, ConfigValues;
    ConfigParts(c, m);
    var e := new BitStreamEncoder(MsbFirst);
    WritesAligned();
    e.WriteUint8(c.protocolVersion);
    e.WriteUint16(c.messageRate, BigEndian);
    e.WriteUint16(c.channelCreates, BigEndian);
    e.WriteUint16(c.cleanupDays, BigEndian);
    e.WriteUint8(c.connectionsPerIp);
    e.WriteUint32(c.messageLength, BigEndian);
    e.WriteUint16(c.threadSubscriptions, BigEndian);
    e.WriteUint16(c.channelSubscriptions, BigEndian);
    e.WriteUint8(c.directoryEnabled);
    bytes := e.FinishStream();
  }

  lemma ConfigParts(c: TsConfig, m: Message)
    requires TypedMessage(LayoutOf(Web(ServerConfig)), m) && NativeMessage(TypeScript, m) == Flatly(ConfigValues(c))
    ensures MessageBytes(LayoutOf(Web(ServerConfig)), m) ==
            [] + Be(c.protocolVersion, 1) + Be(c.messageRate, 2) + Be(c.channelCreates, 2) + Be(c.cleanupDays, 2)
            + Be(c.connectionsPerIp, 1) + Be(c.messageLength, 4) + Be(c.threadSubscriptions, 2)
            + Be(c.channelSubscriptions, 2) + Be(c.directoryEnabled, 1)
  {
    hide RecordBytes, Be, LayoutOf, TypedMessage, MessageBytes, NativeMessage;
    ConfigShape();
    FlatNative(Web(ServerConfig), CONFIG_KINDS, m);
    ConfigBytes([], ConfigValues(c));
  }

  // ---------------------------------------------------------------- reading

  /** At a byte boundary every whole-byte read takes the big-endian bytes. */
  lemma ReadsAligned(data: seq<Octet>)
    ensures forall o, pos: nat, w: nat {:trigger GetOp(o, data, Cursor(pos, 0), Unsigned(0, w, BigEndian))} ::
              w > 0 ==> GetOp(o, data, Cursor(pos, 0), Unsigned(0, w, BigEndian)) == AtByte(GetNumber(data, pos, w))
    ensures forall o, pos: nat {:trigger GetOp(o, data, Cursor(pos, 0), Signed(0, 8, BigEndian))} ::
              GetOp(o, data, Cursor(pos, 0), Signed(0, 8, BigEndian)) == AtByte(GetInt64(data, pos))
    ensures forall o, pos: nat {:trigger GetByte(o, data, Cursor(pos, 0))} ::
              GetByte(o, data, Cursor(pos, 0)) == AtByte(GetNumber(data, pos, 1))
  {
    hide GetOp, GetByte, GetNumber, GetInt64;
    forall o, pos: nat, w: nat | w > 0
      ensures GetOp(o, data, Cursor(pos, 0), Unsigned(0, w, BigEndian)) == AtByte(GetNumber(data, pos, w))
      ensures w == 8 ==> GetOp(o, data, Cursor(pos, 0), Signed(0, w, BigEndian)) == AtByte(GetInt64(data, pos))
    {
      AlignedRead(o, data, pos, w);
    }
    forall o, pos: nat ensures GetByte(o, data, Cursor(pos, 0)) == AtByte(GetNumber(data, pos, 1)) {
      AlignedByte(o, data, pos);
    }
  }

  /** A record was read as `spec` says, and the decoder is at the byte after it. */
  ghost predicate DecodedAs<T>(d: BitStreamDecoder, spec: Option<(seq<Value>, nat)>, got: Option<T>,
                               values: T -> seq<Value>)
    reads d
  {
    match spec
    case None => got.None?
    case Some((vs, next)) => got.Some? && values(got.value) == vs && d.byteOffset == next && d.bitOffset == 0
  }

  method DecodeChannel(d: BitStreamDecoder) returns (c: Option<TsChannel>)
    requires d.bitOffset == 0
    modifies d`byteOffset, d`bitOffset
    ensures DecodedAs(d, GetRecord(TypeScript, Always(CHANNEL_KINDS), d.bytes, old(d.byteOffset), []), c, ChannelValues)
  {
    hide GetRecord, GetNumber, GetText, GetOp, GetByte;
    ChannelRead(TypeScript, d.bytes, d.byteOffset);
    ReadsAligned(d.bytes);
    var id :- d.ReadUint64(BigEndian);
    var name :- ReadText(d);
    var description :- ReadText(d);
    var userCount :- d.ReadUint32(BigEndian);
    var isOperator :- d.ReadUint8();
    var kind :- d.ReadUint8();
    var retentionHours :- d.ReadUint32(BigEndian);
    return Some(TsChannel(id, name, description, userCount, isOperator, kind, retentionHours));
  }

  method DecodeChannelList(payload: seq<Octet>) returns (channels: Option<seq<TsChannel>>)
    ensures Image(channels, ChannelListValue) == GetMessage(TypeScript, LayoutOf(Web(ChannelList)), payload)
  {
    hide GetMessage, LayoutOf, GetRecord, GetNumber, GetRows, GetOp, GetByte;
    var fs := Always(CHANNEL_KINDS);
    ChannelListRead(TypeScript, payload);
    ReadsAligned(payload);
    var d := new BitStreamDecoder(payload, MsbFirst);
    var count :- d.ReadUint16(BigEndian);
    var read: seq<TsChannel> := [];
    ghost var start := d.byteOffset;
    for i := 0 to count
      invariant d.bytes == payload && d.bitOffset == 0 && |read| == i
      invariant GetRows(TypeScript, fs, payload, start, count, []) ==
                GetRows(TypeScript, fs, payload, d.byteOffset, count, Rows(read, ChannelValues))
    {
      RowsTurn(TypeScript, fs, payload, d.byteOffset, count, Rows(read, ChannelValues));
      var c :- DecodeChannel(d);
      OneMoreRow(read, c, ChannelValues);
      read := read + [c];
    }
    RowsTurn(TypeScript, fs, payload, d.byteOffset, count, Rows(read, ChannelValues));
    return Some(read);
  }

  /** The client takes only the byte 1 for "present". */
  method ReadMaybe(d: BitStreamDecoder) returns (m: Option<Maybe<nat>>)
    requires d.bitOffset == 0
    modifies d`byteOffset, d`bitOffset
    ensures d.bitOffset < 8
    ensures Reached(d, GetOpt(TypeScript, d.bytes, old(d.byteOffset)), Image(m, (x: Maybe<nat>) => Meant(x)))
  {
    hide GetNumber, GetOp, GetByte;
    ReadsAligned(d.bytes);
    var present :- d.ReadUint8();
    if present == 1 {
      var v :- d.ReadUint64(BigEndian);
      return Some(Maybe(present, Some(v)));
    }
    return Some(Maybe(present, None));
  }

  method ReadMaybeTime(d: BitStreamDecoder) returns (m: Option<Maybe<int>>)
    requires d.bitOffset == 0
    modifies d`byteOffset, d`bitOffset
    ensures d.bitOffset < 8
    ensures Reached(d, GetOptTime(TypeScript, d.bytes, old(d.byteOffset)), Image(m, (x: Maybe<int>) => Meant(x)))
  {
    hide GetNumber, GetInt64, GetOp, GetByte;
    ReadsAligned(d.bytes);
    var present :- d.ReadUint8();
    if present == 1 {
      var v :- d.ReadInt64(BigEndian);
      return Some(Maybe(present, Some(v)));
    }
    return Some(Maybe(present, None));
  }

  method DecodeChat(d: BitStreamDecoder) returns (c: Option<TsChat>)
    requires d.bitOffset == 0
    modifies d`byteOffset, d`bitOffset
    ensures DecodedAs(d, GetRecord(TypeScript, Always(MESSAGE_KINDS), d.bytes, old(d.byteOffset), []), c, ChatValues)
  {
    hide GetRecord, GetNumber, GetInt64, GetText, GetOpt, GetOptTime, GetOp, GetByte;
    ChatRead(TypeScript, d.bytes, d.byteOffset);
    ReadsAligned(d.bytes);
    var id :- d.ReadUint64(BigEndian);
    var channelId :- d.ReadUint64(BigEndian);
    var subchannelId :- ReadMaybe(d);
    var parentId :- ReadMaybe(d);
    var authorId :- ReadMaybe(d);
    var nickname :- ReadText(d);
    var content :- ReadText(d);
    var createdAt :- d.ReadInt64(BigEndian);
    var editedAt :- ReadMaybeTime(d);
    var replyCount :- d.ReadUint32(BigEndian);
    return Some(TsChat(id, channelId, subchannelId, parentId, authorId, nickname, content, createdAt, editedAt,
                       replyCount));
  }

  method DecodeNewMessage(payload: seq<Octet>) returns (c: Option<TsChat>)
    ensures Image(c, (x: TsChat) => Flatly(ChatValues(x))) == GetMessage(TypeScript, LayoutOf(Web(NewMessage)), payload)
  {
    hide GetRecord, GetMessage, LayoutOf;
    ChatLayout();
    FlatRead(TypeScript, Web(NewMessage), MESSAGE_KINDS, payload);
    var d := new BitStreamDecoder(payload, MsbFirst);
    c := DecodeChat(d);
  }

  method DecodeMessageList(payload: seq<Octet>) returns (p: Option<TsPage>)
    ensures Image(p, PageValue) == GetMessage(TypeScript, LayoutOf(Web(MessageList)), payload)
    ensures p.Some? ==> p.value.count == |p.value.messages|
  {
    hide GetMessage, LayoutOf, GetRecord, GetNumber, GetRows, GetOpt, GetOp, GetByte;
    var fs := Always(MESSAGE_KINDS);
    MessageListRead(TypeScript, payload);
    ReadsAligned(payload);
    var d := new BitStreamDecoder(payload, MsbFirst);
    var channelId :- d.ReadUint64(BigEndian);
    var subchannelId :- ReadMaybe(d);
    var parentId :- ReadMaybe(d);
    var count :- d.ReadUint16(BigEndian);
    var read: seq<TsChat> := [];
    ghost var start := d.byteOffset;
    for i := 0 to count
      invariant d.bytes == payload && d.bitOffset == 0 && |read| == i
      invariant GetRows(TypeScript, fs, payload, start, count, []) ==
                GetRows(TypeScript, fs, payload, d.byteOffset, count, Rows(read, ChatValues))
    {
      RowsTurn(TypeScript, fs, payload, d.byteOffset, count, Rows(read, ChatValues));
      var c :- DecodeChat(d);
      OneMoreRow(read, c, ChatValues);
      read := read + [c];
    }
    RowsTurn(TypeScript, fs, payload, d.byteOffset, count, Rows(read, ChatValues));
    return Some(TsPage(channelId, subchannelId, parentId, count, read));
  }

  /** The length of the content is Go's affair. */
  method DecodePost(payload: seq<Octet>) returns (p: Option<TsPost>)
    ensures Image(p, (x: TsPost) => Flatly(PostValues(x))) ==
            GetMessage(TypeScript, LayoutOf(Web(PostMessage)), payload)
  {
    hide GetMessage, LayoutOf, GetRecord, GetNumber, GetText, GetOpt, GetOp, GetByte;
    PostShape();
    FlatRead(TypeScript, Web(PostMessage), POST_KINDS, payload);
    PostRead(TypeScript, payload, 0);
    ReadsAligned(payload);
    var d := new BitStreamDecoder(payload, MsbFirst);
    var channelId :- d.ReadUint64(BigEndian);
    var subchannelId :- ReadMaybe(d);
    var parentId :- ReadMaybe(d);
    var content :- ReadText(d);
    return Some(TsPost(channelId, subchannelId, parentId, content));
  }

  method DecodeConfig(payload: seq<Octet>) returns (c: Option<TsConfig>)
    ensures Image(c, (x: TsConfig) => Flatly(ConfigValues(x))) ==
            GetMessage(TypeScript, LayoutOf(Web(ServerConfig)), payload)
  {
    hide GetMessage, LayoutOf, GetRecord, GetNumber, GetOp, GetByte;
    ConfigShape();
    FlatRead(TypeScript, Web(ServerConfig), CONFIG_KINDS, payload);
    ConfigRead(TypeScript, payload, 0);
    ReadsAligned(payload);
    var d := new BitStreamDecoder(payload, MsbFirst);
    var protocolVersion :- d.ReadUint8();
    var messageRate :- d.ReadUint16(BigEndian);
    var channelCreates :- d.ReadUint16(BigEndian);
    var cleanupDays :- d.ReadUint16(BigEndian);
    var connectionsPerIp :- d.ReadUint8();
    var messageLength :- d.ReadUint32(BigEndian);
    var threadSubscriptions :- d.ReadUint16(BigEndian);
    var channelSubscriptions :- d.ReadUint16(BigEndian);
    var directoryEnabled :- d.ReadUint8();
    return Some(TsConfig(protocolVersion, messageRate, channelCreates, cleanupDays, connectionsPerIp, messageLength,
                         threadSubscriptions, channelSubscriptions, directoryEnabled));
  }
}
