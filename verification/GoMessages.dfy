/** Messages that server and client exchange, as the server writes and reads them: one call after
    another, in the order of pkg/protocol/messages.go.  Texts are their UTF-8 bytes, times are
    milliseconds. */
module GoMessages {
  import opened Codec
  import opened GoCodec
  import opened Layouts
  import opened Octets
  import opened Records
  import opened Wire
  import opened Wrappers

  datatype Channel = Channel(
    id: nat, name: seq<Octet>, description: seq<Octet>, userCount: nat, isOperator: bool, kind: Octet,
    retentionHours: nat)

  datatype Chat = Chat(
    id: nat, channelId: nat, subchannelId: Option<nat>, parentId: Option<nat>, authorId: Option<nat>,
    nickname: seq<Octet>, content: seq<Octet>, createdAt: int, editedAt: Option<int>, replyCount: nat)

  datatype Page = Page(channelId: nat, subchannelId: Option<nat>, parentId: Option<nat>, messages: seq<Chat>)

  datatype Post = Post(channelId: nat, subchannelId: Option<nat>, parentId: Option<nat>, content: seq<Octet>)

  datatype Config = Config(
    protocolVersion: Octet, messageRate: nat, channelCreates: nat, cleanupDays: nat, connectionsPerIp: Octet,
    messageLength: nat, threadSubscriptions: nat, channelSubscriptions: nat, directoryEnabled: bool)

  /** AuthResponse: user ID, nickname and flags count only on success. */
  datatype Auth = Auth(success: bool, userId: nat, nickname: seq<Octet>, text: seq<Octet>, userFlags: Option<Octet>)

  // ---------------------------------------------------------------- as field values

  function ChannelFields(c: Channel): (vs: seq<Value>)
    ensures |vs| == 7
  {
    [Num(c.id), Str(c.name), Str(c.description), Num(c.userCount), Bool(c.isOperator), Num(c.kind),
     Num(c.retentionHours)]
  }

  function ChatFields(c: Chat): (vs: seq<Value>)
    ensures |vs| == 10
  {
    [Num(c.id), Num(c.channelId), Opt(c.subchannelId), Opt(c.parentId), Opt(c.authorId), Str(c.nickname),
     Str(c.content), Int(c.createdAt), OptInt(c.editedAt), Num(c.replyCount)]
  }

  function PageFields(p: Page): (vs: seq<Value>)
    ensures |vs| == 3
  {
    [Num(p.channelId), Opt(p.subchannelId), Opt(p.parentId)]
  }

  function PostFields(p: Post): (vs: seq<Value>)
    ensures |vs| == 4
  {
    [Num(p.channelId), Opt(p.subchannelId), Opt(p.parentId), Str(p.content)]
  }

  function ConfigFields(c: Config): (vs: seq<Value>)
    ensures |vs| == 9
  {
    [Num(c.protocolVersion), Num(c.messageRate), Num(c.channelCreates), Num(c.cleanupDays), Num(c.connectionsPerIp),
     Num(c.messageLength), Num(c.threadSubscriptions), Num(c.channelSubscriptions), Bool(c.directoryEnabled)]
  }

  function AuthMessage(a: Auth): Message {
    Message([Bool(a.success), Num(a.userId), Str(a.nickname), Str(a.text), Last(a.userFlags)], [])
  }

  function Rows<T>(items: seq<T>, fields: T -> seq<Value>): (rows: seq<seq<Value>>)
    ensures |rows| == |items|
    ensures forall i :: 0 <= i < |items| ==> rows[i] == fields(items[i])
  {
    seq(|items|, i requires 0 <= i < |items| => fields(items[i]))
  }

  lemma OneMoreRow<T>(items: seq<T>, x: T, fields: T -> seq<Value>)
    ensures Rows(items + [x], fields) == Rows(items, fields) + [fields(x)]
  {
  }

  function Image<T, U>(o: Option<T>, f: T -> U): Option<U> {
    if o.None? then None else Some(f(o.value))
  }

  function ChannelListMessage(channels: seq<Channel>): Message {
    Message([], Rows(channels, ChannelFields))
  }

  function PageMessage(p: Page): Message {
    Message(PageFields(p), Rows(p.messages, ChatFields))
  }

  // ---------------------------------------------------------------- writing

  method EncodeChannel(w: Writer, c: Channel) returns (ok: bool)
    modifies w
    ensures ok <==> RecordInLimits(Always(CHANNEL_KINDS), ChannelFields(c))
    ensures ok ==> w.buf == old(w.buf) + RecordBytes(Always(CHANNEL_KINDS), ChannelFields(c))
    ensures ok <==> |c.name| <= 65535 && |c.description| <= 65535
    ensures ok ==>
      w.buf == old(w.buf) + Be(c.id, 8) + TextBytes(c.name) + TextBytes(c.description) + Be(c.userCount, 4)
               + [if c.isOperator then 1 else 0] + Be(c.kind, 1) + Be(c.retentionHours, 4)
  {
    hide RecordBytes, RecordInLimits, Be, TextBytes, BoolBytes;
    ChannelLimits(c);
    ChannelBytes(w.buf, ChannelFields(c));
    w.WriteUint64(c.id);
    ok := w.WriteString(c.name);
    if !ok {
      return;
    }
    ok := w.WriteString(c.description);
    if !ok {
      return;
    }
    w.WriteUint32(c.userCount);
    w.WriteBool(c.isOperator);
    w.WriteUint8(c.kind);
    w.WriteUint32(c.retentionHours);
  }

  lemma ChannelLimits(c: Channel)
    ensures RecordInLimits(Always(CHANNEL_KINDS), ChannelFields(c)) <==>
            |c.name| <= MAX_STRING && |c.description| <= MAX_STRING
  {
    var fs, vs := Always(CHANNEL_KINDS), ChannelFields(c);
    assert On(fs, vs, 1) && On(fs, vs, 2);
    assert InLimits(fs[1].kind, vs[1]) <==> |c.name| <= MAX_STRING;
    assert InLimits(fs[2].kind, vs[2]) <==> |c.description| <= MAX_STRING;
  }

  method EncodeChannelList(w: Writer, channels: seq<Channel>) returns (ok: bool)
    requires TypedMessage(LayoutOf(Web(ChannelList)), ChannelListMessage(channels))
    modifies w
    ensures ok <==> MessageInLimits(LayoutOf(Web(ChannelList)), ChannelListMessage(channels))
    ensures ok ==> w.buf == old(w.buf) + MessageBytes(LayoutOf(Web(ChannelList)), ChannelListMessage(channels))
  {
    hide *;
    ghost var start, fs, rows := w.buf, Always(CHANNEL_KINDS), Rows(channels, ChannelFields);
    ChannelListParts(start, channels);
    WriteCount(w, Two, |channels|);
    ghost var head := w.buf;
    RowsStart(head, fs, rows);
    for i := 0 to |channels|
      invariant w.buf == head + RowsPrefix(fs, rows, i)
      invariant forall j :: 0 <= j < i ==> RecordInLimits(fs, rows[j])
    {
      RowWritten(head, fs, rows, i);
      ok := EncodeChannel(w, channels[i]);
      if !ok {
        return;
      }
    }
    return true;
  }

  lemma ChannelListParts(start: seq<Octet>, channels: seq<Channel>)
    requires TypedMessage(LayoutOf(Web(ChannelList)), ChannelListMessage(channels))
    ensures var fs, rows := Always(CHANNEL_KINDS), Rows(channels, ChannelFields);
      && TypedRows(fs, rows) && (forall i :: 0 <= i < |rows| ==> |rows[i]| == |fs|) && Size(Two) == 2
      && (MessageInLimits(LayoutOf(Web(ChannelList)), ChannelListMessage(channels)) <==>
          forall i :: 0 <= i < |rows| ==> RecordInLimits(fs, rows[i]))
      && start + MessageBytes(LayoutOf(Web(ChannelList)), ChannelListMessage(channels)) ==
         start + Be(|channels|, 2) + RowsPrefix(fs, rows, |rows|)
  {
    hide RowsPrefix, Be, Typed, InLimits;
    RowWidths(Always(CHANNEL_KINDS), Rows(channels, ChannelFields));
  }

  /** NewMessage, and each message of a MessageList. */
  method EncodeChat(w: Writer, c: Chat) returns (ok: bool)
    modifies w
    ensures ok <==> RecordInLimits(Always(MESSAGE_KINDS), ChatFields(c))
    ensures ok ==> w.buf == old(w.buf) + RecordBytes(Always(MESSAGE_KINDS), ChatFields(c))
  {
    hide *;
    ChatLimits(c);
    ChatWritten(w.buf, c);
    w.WriteUint64(c.id);
    w.WriteUint64(c.channelId);
    w.WriteOptionalUint64(c.subchannelId);
    w.WriteOptionalUint64(c.parentId);
    w.WriteOptionalUint64(c.authorId);
    ok := w.WriteString(c.nickname);
    if !ok {
      return;
    }
    ok := w.WriteString(c.content);
    if !ok {
      return;
    }
    w.WriteInt64(c.createdAt);
    w.WriteOptionalTimestamp(c.editedAt);
    w.WriteUint32(c.replyCount);
  }

  lemma ChatWritten(start: seq<Octet>, c: Chat)
    ensures start + RecordBytes(Always(MESSAGE_KINDS), ChatFields(c)) ==
            start + Be(c.id, 8) + Be(c.channelId, 8) + OptionalBytes(c.subchannelId) + OptionalBytes(c.parentId)
            + OptionalBytes(c.authorId) + TextBytes(c.nickname) + TextBytes(c.content) + Be(c.createdAt, 8)
            + OptionalTimeBytes(c.editedAt) + Be(c.replyCount, 4)
  {
    hide RecordBytes, Be, TextBytes, OptionalBytes, OptionalTimeBytes;
    ChatBytes(start, ChatFields(c));
  }

  method EncodeNewMessage(w: Writer, c: Chat) returns (ok: bool)
    requires TypedMessage(LayoutOf(Web(NewMessage)), Flatly(ChatFields(c)))
    modifies w
    ensures ok <==> MessageInLimits(LayoutOf(Web(NewMessage)), Flatly(ChatFields(c)))
    ensures ok ==> w.buf == old(w.buf) + MessageBytes(LayoutOf(Web(NewMessage)), Flatly(ChatFields(c)))
    ensures ok <==> |c.nickname| <= 65535 && |c.content| <= 65535
    ensures ok ==>
      w.buf == old(w.buf) + Be(c.id, 8) + Be(c.channelId, 8) + OptionalBytes(c.subchannelId)
               + OptionalBytes(c.parentId) + OptionalBytes(c.authorId) + TextBytes(c.nickname) + TextBytes(c.content)
               + Be(c.createdAt, 8) + OptionalTimeBytes(c.editedAt) + Be(c.replyCount, 4)
  {
    hide *;
    ChatShape(c);
    ChatLimits(c);
    ChatWritten(w.buf, c);
    ok := EncodeChat(w, c);
  }

  lemma ChatShape(c: Chat)
    requires TypedMessage(LayoutOf(Web(NewMessage)), Flatly(ChatFields(c)))
    ensures MessageBytes(LayoutOf(Web(NewMessage)), Flatly(ChatFields(c))) ==
            RecordBytes(Always(MESSAGE_KINDS), ChatFields(c))
    ensures MessageInLimits(LayoutOf(Web(NewMessage)), Flatly(ChatFields(c))) <==>
            RecordInLimits(Always(MESSAGE_KINDS), ChatFields(c))
  {
    hide RecordBytes, RecordInLimits, TypedMessage, MessageBytes;
    FlatBytes(Web(NewMessage), MESSAGE_KINDS, ChatFields(c));
  }

  lemma ChatLimits(c: Chat)
    ensures RecordInLimits(Always(MESSAGE_KINDS), ChatFields(c)) <==>
            |c.nickname| <= 65535 && |c.content| <= 65535
  {
    var fs, vs := Always(MESSAGE_KINDS), ChatFields(c);
    assert On(fs, vs, 5) && On(fs, vs, 6);
    assert InLimits(fs[5].kind, vs[5]) <==> |c.nickname| <= MAX_STRING;
    assert InLimits(fs[6].kind, vs[6]) <==> |c.content| <= MAX_STRING;
  }

  method EncodeMessageList(w: Writer, p: Page) returns (ok: bool)
    requires TypedMessage(LayoutOf(Web(MessageList)), PageMessage(p))
    modifies w
    ensures ok <==> MessageInLimits(LayoutOf(Web(MessageList)), PageMessage(p))
    ensures ok ==> w.buf == old(w.buf) + MessageBytes(LayoutOf(Web(MessageList)), PageMessage(p))
  {
    hide *;
    ghost var start, fs, rows := w.buf, Always(MESSAGE_KINDS), Rows(p.messages, ChatFields);
    PageParts(start, p);
    EncodePageHead(w, p);
    ghost var head := w.buf;
    RowsStart(head, fs, rows);
    for i := 0 to |p.messages|
      invariant w.buf == head + RowsPrefix(fs, rows, i)
      invariant forall j :: 0 <= j < i ==> RecordInLimits(fs, rows[j])
    {
      RowWritten(head, fs, rows, i);
      ok := EncodeChat(w, p.messages[i]);
      if !ok {
        return;
      }
    }
    return true;
  }

  method EncodePageHead(w: Writer, p: Page)
    modifies w
    ensures w.buf == old(w.buf) + RecordBytes(Always(PAGE_KINDS), PageFields(p)) + Be(|p.messages|, 2)
    ensures w.buf == old(w.buf) + Be(p.channelId, 8) + OptionalBytes(p.subchannelId) + OptionalBytes(p.parentId)
                     + Be(|p.messages|, 2)
  {
    PageStart(w.buf, p);
    hide *;
    w.WriteUint64(p.channelId);
    w.WriteOptionalUint64(p.subchannelId);
    w.WriteOptionalUint64(p.parentId);
    WriteCount(w, Two, |p.messages|);
  }

  lemma PageStart(start: seq<Octet>, p: Page)
    ensures start + RecordBytes(Always(PAGE_KINDS), PageFields(p)) ==
            start + Be(p.channelId, 8) + OptionalBytes(p.subchannelId) + OptionalBytes(p.parentId)
  {
    hide RecordBytes, Be, OptionalBytes;
    PageBytes(start, PageFields(p));
  }

  lemma PageParts(start: seq<Octet>, p: Page)
    requires TypedMessage(LayoutOf(Web(MessageList)), PageMessage(p))
    ensures var fs, rows := Always(MESSAGE_KINDS), Rows(p.messages, ChatFields);
      && TypedRows(fs, rows) && (forall i :: 0 <= i < |rows| ==> |rows[i]| == |fs|) && Size(Two) == 2
      && |Always(PAGE_KINDS)| == 3
      && (MessageInLimits(LayoutOf(Web(MessageList)), PageMessage(p)) <==>
          forall i :: 0 <= i < |rows| ==> RecordInLimits(fs, rows[i]))
      && start + MessageBytes(LayoutOf(Web(MessageList)), PageMessage(p)) ==
         start + RecordBytes(Always(PAGE_KINDS), PageFields(p)) + Be(|p.messages|, 2) + RowsPrefix(fs, rows, |rows|)
  {
    hide RecordPrefix, RowsPrefix, Be, Typed;
    RowWidths(Always(MESSAGE_KINDS), Rows(p.messages, ChatFields));
  }

  /** Nothing is written of a post that is empty or too long. */
  method EncodePost(w: Writer, p: Post) returns (ok: bool)
    requires TypedMessage(LayoutOf(Web(PostMessage)), Flatly(PostFields(p)))
    modifies w
    ensures ok <==> 1 <= |p.content| <= 4096
    ensures ok <==> MessageInLimits(LayoutOf(Web(PostMessage)), Flatly(PostFields(p)))
    ensures w.buf ==
            if ok then old(w.buf) + MessageBytes(LayoutOf(Web(PostMessage)), Flatly(PostFields(p))) else old(w.buf)
    ensures ok ==>
      w.buf == old(w.buf) + Be(p.channelId, 8) + OptionalBytes(p.subchannelId) + OptionalBytes(p.parentId)
               + TextBytes(p.content)
  {
    hide RecordBytes, LayoutOf, TypedMessage, MessageInLimits, MessageBytes, Be, TextBytes, OptionalBytes;
    PostLayout(p);
    PostBytes(w.buf, PostFields(p));
    if |p.content| == 0 {
      return false;
    }
    if |p.content| > 4096 {
      return false;
    }
    w.WriteUint64(p.channelId);
    w.WriteOptionalUint64(p.subchannelId);
    w.WriteOptionalUint64(p.parentId);
    ok := w.WriteString(p.content);
  }

  lemma PostLayout(p: Post)
    requires TypedMessage(LayoutOf(Web(PostMessage)), Flatly(PostFields(p)))
    ensures MessageBytes(LayoutOf(Web(PostMessage)), Flatly(PostFields(p))) ==
            RecordBytes(Always(POST_KINDS), PostFields(p))
    ensures MessageInLimits(LayoutOf(Web(PostMessage)), Flatly(PostFields(p))) <==> 1 <= |p.content| <= 4096
  {
    hide RecordBytes, TypedMessage, MessageInLimits, MessageBytes;
    FlatBytes(Web(PostMessage), POST_KINDS, PostFields(p));
    assert InLimits(POST_KINDS[3], PostFields(p)[3]) <==> 1 <= |p.content| <= 4096;
  }

  method EncodeConfig(w: Writer, c: Config)
    requires TypedMessage(LayoutOf(Web(ServerConfig)), Flatly(ConfigFields(c)))
    modifies w
    ensures w.buf == old(w.buf) + MessageBytes(LayoutOf(Web(ServerConfig)), Flatly(ConfigFields(c)))
    ensures w.buf ==
            old(w.buf) + [c.protocolVersion] + Be(c.messageRate, 2) + Be(c.channelCreates, 2) + Be(c.cleanupDays, 2)
            + [c.connectionsPerIp] + Be(c.messageLength, 4) + Be(c.threadSubscriptions, 2)
            + Be(c.channelSubscriptions, 2) + [if c.directoryEnabled then 1 else 0]
  {
    hide *;
    ConfigLayout(w.buf, c);
    w.WriteUint8(c.protocolVersion);
    w.WriteUint16(c.messageRate);
    w.WriteUint16(c.channelCreates);
    w.WriteUint16(c.cleanupDays);
    w.WriteUint8(c.connectionsPerIp);
    w.WriteUint32(c.messageLength);
    w.WriteUint16(c.threadSubscriptions);
    w.WriteUint16(c.channelSubscriptions);
    w.WriteBool(c.directoryEnabled);
  }

  lemma ConfigLayout(start: seq<Octet>, c: Config)
    requires TypedMessage(LayoutOf(Web(ServerConfig)), Flatly(ConfigFields(c)))
    ensures start + MessageBytes(LayoutOf(Web(ServerConfig)), Flatly(ConfigFields(c))) ==
            start + Be(c.protocolVersion, 1) + Be(c.messageRate, 2) + Be(c.channelCreates, 2) + Be(c.cleanupDays, 2)
            + Be(c.connectionsPerIp, 1) + Be(c.messageLength, 4) + Be(c.threadSubscriptions, 2)
            + Be(c.channelSubscriptions, 2) + BoolBytes(c.directoryEnabled)
  {
    hide RecordBytes, TypedMessage, MessageBytes, Be, BoolBytes;
    FlatBytes(Web(ServerConfig), CONFIG_KINDS, ConfigFields(c));
    ConfigBytes(start, ConfigFields(c));
  }

  method EncodeAuth(w: Writer, a: Auth) returns (ok: bool)
    requires TypedMessage(AUTH_RESPONSE, AuthMessage(a))
    modifies w
    ensures ok <==> MessageInLimits(AUTH_RESPONSE, AuthMessage(a))
    ensures ok ==> w.buf == old(w.buf) + MessageBytes(AUTH_RESPONSE, AuthMessage(a))
    ensures ok <==> |a.text| <= 65535 && (a.success ==> |a.nickname| <= 65535)
    ensures ok ==>
      w.buf == old(w.buf)
               + (if a.success then [1] + Be(a.userId, 8) + TextBytes(a.nickname) else [0])
               + TextBytes(a.text)
               + (if a.success && a.userFlags.Some? then [a.userFlags.value] else [])
  {
    hide *;
    AuthBytes(w.buf, a);
    AuthWritten(w.buf, a);
    AuthLimits(a);
    w.WriteBool(a.success);
    if a.success {
      w.WriteUint64(a.userId);
      ok := w.WriteString(a.nickname);
      if !ok {
        return;
      }
    }
    ok := w.WriteString(a.text);
    if !ok {
      return;
    }
    if a.success && a.userFlags.Some? {
      w.WriteUint8(a.userFlags.value);
    }
  }

  lemma AuthBytes(start: seq<Octet>, a: Auth)
    requires TypedMessage(AUTH_RESPONSE, AuthMessage(a))
    ensures var before := start + BoolBytes(a.success);
      && (!a.success ==> start + MessageBytes(AUTH_RESPONSE, AuthMessage(a)) == before + TextBytes(a.text))
      && (a.success && a.userFlags.None? ==>
            start + MessageBytes(AUTH_RESPONSE, AuthMessage(a)) ==
            before + Be(a.userId, 8) + TextBytes(a.nickname) + TextBytes(a.text))
      && (a.success && a.userFlags.Some? ==>
            start + MessageBytes(AUTH_RESPONSE, AuthMessage(a)) ==
            before + Be(a.userId, 8) + TextBytes(a.nickname) + TextBytes(a.text) + Be(a.userFlags.value, 1))
  {
    hide RecordPrefix, Be, TextBytes, BoolBytes;
    var fs, vs := AUTH_RESPONSE.header, AuthMessage(a).header;
    NothingWritten(start, fs, vs);
    PartWritten(start, fs, vs, 0);
    PartWritten(start, fs, vs, 1);
    PartWritten(start, fs, vs, 2);
    PartWritten(start, fs, vs, 3);
    PartWritten(start, fs, vs, 4);
    if a.userFlags.Some? {
      OneByte(a.userFlags.value);
    }
    assert RecordBytes(fs, vs) + [] == RecordBytes(fs, vs);
  }

  lemma AuthWritten(start: seq<Octet>, a: Auth)
    requires TypedMessage(AUTH_RESPONSE, AuthMessage(a))
    ensures start + MessageBytes(AUTH_RESPONSE, AuthMessage(a)) ==
            start + (if a.success then [1] + Be(a.userId, 8) + TextBytes(a.nickname) else [0]) + TextBytes(a.text)
            + (if a.success && a.userFlags.Some? then [a.userFlags.value] else [])
  {
    hide MessageBytes, TypedMessage, Be, TextBytes;
    AuthBytes(start, a);
    if a.userFlags.Some? {
      OneByte(a.userFlags.value);
    }
  }

  lemma AuthLimits(a: Auth)
    requires TypedMessage(AUTH_RESPONSE, AuthMessage(a))
    ensures MessageInLimits(AUTH_RESPONSE, AuthMessage(a)) <==>
            |a.text| <= 65535 && (a.success ==> |a.nickname| <= 65535)
  {
    var fs, vs := AUTH_RESPONSE.header, AuthMessage(a).header;
    assert On(fs, vs, 2) <==> a.success;
    assert On(fs, vs, 3);
    assert InLimits(fs[2].kind, vs[2]) <==> |a.nickname| <= MAX_STRING;
    assert InLimits(fs[3].kind, vs[3]) <==> |a.text| <= MAX_STRING;
  }

  // ---------------------------------------------------------------- reading

  /** A record was read as `spec` says. */
  ghost predicate ReadAs<T>(r: Reader, spec: Option<(seq<Value>, nat)>, got: Option<T>, fields: T -> seq<Value>)
    reads r
  {
    match spec
    case None => got.None?
    case Some((vs, next)) => got.Some? && fields(got.value) == vs && r.pos == next
  }

  method DecodeChannel(r: Reader) returns (c: Option<Channel>)
    modifies r`pos
    ensures ReadAs(r, GetRecord(Go, Always(CHANNEL_KINDS), r.data, old(r.pos), []), c, ChannelFields)
  {
    hide GetRecord, GetNumber, GetText;
    ChannelRead(Go, r.data, r.pos);
    var id :- r.ReadUint(8);
    var name :- r.ReadString();
    var description :- r.ReadString();
    var userCount :- r.ReadUint(4);
    var isOperator :- r.ReadBool();
    var kind :- r.ReadUint8();
    var retentionHours :- r.ReadUint(4);
    return Some(Channel(id, name, description, userCount, isOperator, kind, retentionHours));
  }

  method DecodeChannelList(payload: seq<Octet>) returns (channels: Option<seq<Channel>>)
    ensures Image(channels, ChannelListMessage) == GetMessage(Go, LayoutOf(Web(ChannelList)), payload)
  {
    hide GetRecord, GetNumber, GetRows;
    var fs := Always(CHANNEL_KINDS);
    ChannelListRead(Go, payload);
    var r := new Reader(payload);
    var count :- r.ReadUint(2);
    var read: seq<Channel> := [];
    ghost var start := r.pos;
    for i := 0 to count
      invariant r.data == payload && |read| == i
      invariant GetRows(Go, fs, payload, start, count, []) ==
                GetRows(Go, fs, payload, r.pos, count, Rows(read, ChannelFields))
    {
      RowsTurn(Go, fs, payload, r.pos, count, Rows(read, ChannelFields));
      var c :- DecodeChannel(r);
      OneMoreRow(read, c, ChannelFields);
      read := read + [c];
    }
    RowsTurn(Go, fs, payload, r.pos, count, Rows(read, ChannelFields));
    return Some(read);
  }

  method DecodeChat(r: Reader) returns (c: Option<Chat>)
    modifies r`pos
    ensures ReadAs(r, GetRecord(Go, Always(MESSAGE_KINDS), r.data, old(r.pos), []), c, ChatFields)
  {
    hide GetRecord, GetNumber, GetText, GetInt64, GetOpt, GetOptional, GetOptTime, GetOptionalTime;
    ChatRead(Go, r.data, r.pos);
    GoOpts(r.data);
    var id :- r.ReadUint(8);
    var channelId :- r.ReadUint(8);
    var subchannelId :- r.ReadOptionalUint64();
    var parentId :- r.ReadOptionalUint64();
    var authorId :- r.ReadOptionalUint64();
    var nickname :- r.ReadString();
    var content :- r.ReadString();
    var createdAt :- r.ReadInt64();
    var editedAt :- r.ReadOptionalTimestamp();
    var replyCount :- r.ReadUint(4);
    return Some(Chat(id, channelId, subchannelId, parentId, authorId, nickname, content, createdAt, editedAt,
                     replyCount));
  }

  method DecodeNewMessage(payload: seq<Octet>) returns (c: Option<Chat>)
    ensures Image(c, (x: Chat) => Flatly(ChatFields(x))) == GetMessage(Go, LayoutOf(Web(NewMessage)), payload)
  {
    hide GetRecord, GetMessage, LayoutOf;
    ChatLayout();
    FlatRead(Go, Web(NewMessage), MESSAGE_KINDS, payload);
    var r := new Reader(payload);
    c := DecodeChat(r);
  }

  lemma ChatLayout()
    ensures LayoutOf(Web(NewMessage)) == Layout(Always(MESSAGE_KINDS), None)
  {
  }

  method DecodeMessageList(payload: seq<Octet>) returns (p: Option<Page>)
    ensures Image(p, PageMessage) == GetMessage(Go, LayoutOf(Web(MessageList)), payload)
  {
    hide GetMessage, LayoutOf, GetRecord, GetNumber, GetRows, GetOpt, GetOptional;
    var fs := Always(MESSAGE_KINDS);
    MessageListRead(Go, payload);
    GoOpts(payload);
    var r := new Reader(payload);
    var channelId :- r.ReadUint(8);
    var subchannelId :- r.ReadOptionalUint64();
    var parentId :- r.ReadOptionalUint64();
    var count :- r.ReadUint(2);
    var read: seq<Chat> := [];
    ghost var start := r.pos;
    for i := 0 to count
      invariant r.data == payload && |read| == i
      invariant GetRows(Go, fs, payload, start, count, []) ==
                GetRows(Go, fs, payload, r.pos, count, Rows(read, ChatFields))
    {
      RowsTurn(Go, fs, payload, r.pos, count, Rows(read, ChatFields));
      var c :- DecodeChat(r);
      OneMoreRow(read, c, ChatFields);
      read := read + [c];
    }
    RowsTurn(Go, fs, payload, r.pos, count, Rows(read, ChatFields));
    return Some(Page(channelId, subchannelId, parentId, read));
  }

  method DecodePost(payload: seq<Octet>) returns (p: Option<Post>)
    ensures Image(p, (x: Post) => Flatly(PostFields(x))) == GetMessage(Go, LayoutOf(Web(PostMessage)), payload)
  {
    hide GetMessage, LayoutOf, GetRecord, GetNumber, GetText, GetOpt, GetOptional;
    PostShape();
    FlatRead(Go, Web(PostMessage), POST_KINDS, payload);
    PostRead(Go, payload, 0);
    GoOpts(payload);
    var r := new Reader(payload);
    var channelId :- r.ReadUint(8);
    var subchannelId :- r.ReadOptionalUint64();
    var parentId :- r.ReadOptionalUint64();
    var content :- r.ReadString();
    if |content| == 0 {
      return None;
    }
    if |content| > 4096 {
      return None;
    }
    return Some(Post(channelId, subchannelId, parentId, content));
  }

  lemma PostShape()
    ensures LayoutOf(Web(PostMessage)) == Layout(Always(POST_KINDS), None)
  {
  }

  method DecodeConfig(payload: seq<Octet>) returns (c: Option<Config>)
    ensures Image(c, (x: Config) => Flatly(ConfigFields(x))) == GetMessage(Go, LayoutOf(Web(ServerConfig)), payload)
  {
    hide GetMessage, LayoutOf, GetRecord, GetNumber;
    ConfigShape();
    FlatRead(Go, Web(ServerConfig), CONFIG_KINDS, payload);
    ConfigRead(Go, payload, 0);
    var r := new Reader(payload);
    var protocolVersion :- r.ReadUint8();
    var messageRate :- r.ReadUint(2);
    var channelCreates :- r.ReadUint(2);
    var cleanupDays :- r.ReadUint(2);
    var connectionsPerIp :- r.ReadUint8();
    var messageLength :- r.ReadUint(4);
    var threadSubscriptions :- r.ReadUint(2);
    var channelSubscriptions :- r.ReadUint(2);
    var directoryEnabled :- r.ReadBool();
    return Some(Config(protocolVersion, messageRate, channelCreates, cleanupDays, connectionsPerIp, messageLength,
                       threadSubscriptions, channelSubscriptions, directoryEnabled));
  }

  lemma ConfigShape()
    ensures LayoutOf(Web(ServerConfig)) == Layout(Always(CONFIG_KINDS), None)
  {
  }

  /** What is absent is zero, and a byte after the text is the flags. */
  method DecodeAuth(payload: seq<Octet>) returns (a: Option<Auth>)
    ensures Image(a, AuthMessage) == GetMessage(Go, AUTH_RESPONSE, payload)
  {
    hide GetMessage, GetNumber, GetText;
    AuthRead(payload);
    var r := new Reader(payload);
    var success :- r.ReadBool();
    var userId, nickname := 0, [];
    if success {
      userId :- r.ReadUint(8);
      nickname :- r.ReadString();
    }
    var text :- r.ReadString();
    var userFlags: Option<Octet> := None;
    if success && r.pos < |payload| {
      ByteNumber(payload, r.pos);
      userFlags := r.ReadUint8();
    }
    return Some(Auth(success, userId, nickname, text, userFlags));
  }

  function GetAuthTail(data: seq<Octet>, success: bool, userId: nat, nickname: seq<Octet>, pos: nat): Option<Message> {
    var text :- GetText(data, pos);
    Some(AuthMessage(Auth(success, userId, nickname, text.0,
                          if success && text.1 < |data| then Some(data[text.1]) else None)))
  }

  function GetAuth(data: seq<Octet>): Option<Message> {
    var success :- GetBool(data, 0);
    if !success.0 then GetAuthTail(data, false, 0, [], success.1)
    else
      var userId :- GetNumber(data, success.1, 8);
      var nickname :- GetText(data, userId.1);
      GetAuthTail(data, true, userId.0, nickname.0, nickname.1)
  }

  lemma AuthTailRead(data: seq<Octet>, success: bool, userId: nat, nickname: seq<Octet>, pos: nat)
    ensures var r := GetRecord(Go, AUTH_RESPONSE.header, data, pos, [Bool(success), Num(userId), Str(nickname)]);
      GetAuthTail(data, success, userId, nickname, pos) == if r.None? then None else Some(Message(r.value.0, []))
  {
    hide GetText, GetRecord;
    TextShort(data, pos);
    var fs, got := AUTH_RESPONSE.header, [Bool(success), Num(userId), Str(nickname)];
    RecordTurn(Go, fs, data, pos, got);
    if GetText(data, pos).Some? {
      var (text, next) := GetText(data, pos).value;
      var more := got + [Str(text)];
      RecordTurn(Go, fs, data, next, more);
      var last := if success && next < |data| then Some(data[next]) else None;
      assert more + [Last(last)] == AuthMessage(Auth(success, userId, nickname, text, last)).header;
      RecordTurn(Go, fs, data, if success && next < |data| then next + 1 else next, more + [Last(last)]);
    }
  }

  lemma AuthRead(data: seq<Octet>)
    ensures GetMessage(Go, AUTH_RESPONSE, data) == GetAuth(data)
  {
    hide GetNumber, GetText, GetRecord, GetAuthTail;
    var fs := AUTH_RESPONSE.header;
    RecordTurn(Go, fs, data, 0, []);
    var success := GetBool(data, 0);
    if success.Some? {
      var (b, pos) := success.value;
      var got := [] + [Bool(b)];
      RecordTurn(Go, fs, data, pos, got);
      if !b {
        RecordTurn(Go, fs, data, pos, got + [Num(0)]);
        assert got + [Num(0)] + [Str([])] == [Bool(b), Num(0), Str([])];
        AuthTailRead(data, false, 0, [], pos);
      } else if GetNumber(data, pos, 8).Some? {
        var (userId, next) := GetNumber(data, pos, 8).value;
        RecordTurn(Go, fs, data, next, got + [Num(userId)]);
        TextShort(data, next);
        if GetText(data, next).Some? {
          var (nickname, after) := GetText(data, next).value;
          assert got + [Num(userId)] + [Str(nickname)] == [Bool(b), Num(userId), Str(nickname)];
          AuthTailRead(data, true, userId, nickname, after);
        }
      }
    }
  }
}
