/** The layout of every message of the protocol, read off the `EncodeTo` and `Decode` methods of
    pkg/protocol/messages.go, which agree with each other field for field. */
module Layouts {
  import opened Codec
  import opened Octets
  import opened Positional
  import opened Wire
  import opened Wrappers

  /** The messages that the generated codec of the web client has in the same form. */
  datatype WebMessage =
    | AuthRequest | SetNickname | NicknameResponse | RegisterUser | ListChannels | ChannelList | JoinChannel
    | JoinResponse | ListMessages | MessageList | PostMessage | MessagePosted | NewMessage | Ping | Pong
    | ErrorReply | ServerConfig | SubscribeThread | UnsubscribeThread | SubscribeChannel | UnsubscribeChannel
    | SubscribeOk | FrameHeader

  datatype ChatMessage =
    | RegisterResponse | Logout | LeaveChannel | LeaveResponse | CreateChannel | ChannelCreated
    | EditMessage | MessageEdited | DeleteMessage | MessageDeleted | Disconnect | GetUserInfo | UserInfo
    | ListUsers | UserList | ListChannelUsers | ChannelUserList | ChannelPresence | ServerPresence
    | GetUnreadCounts | UnreadCounts | UpdateReadState

  /** Messages of the server directory and of a user's own account. */
  datatype DirectoryMessage =
    | ListServers | ServerList | RegisterServer | RegisterAck | VerifyRegistration | VerifyResponse
    | Heartbeat | HeartbeatAck | ChangePassword | PasswordChanged | AddSSHKey | SSHKeyAdded | ListSSHKeys
    | SSHKeyList | UpdateSSHKeyLabel | SSHKeyLabelUpdated | DeleteSSHKey | SSHKeyDeleted

  datatype AdminMessage =
    | BanUser | UserBanned | BanIP | IPBanned | UnbanUser | UserUnbanned | UnbanIP | IPUnbanned | ListBans | BanList
    | DeleteUser | UserDeleted | DeleteChannel | ChannelDeleted

  datatype MessageType =
    | AuthResponse
    | Web(w: WebMessage)
    | Chatting(c: ChatMessage)
    | Directory(d: DirectoryMessage)
    | Admin(a: AdminMessage)

  const ANY_TEXT := Text(0, 65535)

  /** A Go time that was never set: the first day of year 1, in milliseconds. */
  const NO_TIME := -62135596800000

  const TIME := Signed64(NO_TIME)
  const INT64 := Signed64(0)

  const MESSAGE_KINDS := [Uint(Eight), Uint(Eight), OptUint, OptUint, OptUint, ANY_TEXT, ANY_TEXT, TIME, OptSigned64,
                          Uint(Four)]

  const CHANNEL_KINDS := [Uint(Eight), ANY_TEXT, ANY_TEXT, Uint(Four), Flag, Uint(One), Uint(Four)]

  const PAGE_KINDS := [Uint(Eight), OptUint, OptUint]

  const POST_KINDS := [Uint(Eight), OptUint, OptUint, Text(1, 4096)]

  const CONFIG_KINDS := [Uint(One), Uint(Two), Uint(Two), Uint(Two), Uint(One), Uint(Four), Uint(Two), Uint(Two), Flag]

  const HEADER_KINDS := [Uint(Four), Uint(One), Uint(One), Uint(One)]

  /** All fields always there; or some fields and a list; or a flag, and after some more fields a
      group that is there only if the flag is set. */
  datatype Shape =
    | Flat(fields: seq<Kind>)
    | Listing(fields: seq<Kind>, count: Width, items: seq<Kind>)
    | OnSuccess(before: seq<Kind>, group: seq<Kind>, after: seq<Kind>)

  predicate NoTrailerIn(ks: seq<Kind>) {
    forall k :: k in ks ==> !k.Trailer?
  }

  /** What a generated codec can hold: every field is always there. */
  predicate Common(k: Kind) {
    !k.LateFlag? && !k.OptText? && !k.Trailer?
  }

  predicate CommonIn(ks: seq<Kind>) {
    forall k :: k in ks ==> Common(k)
  }

  predicate CommonShape(s: Shape) {
    match s
    case Flat(ks) => CommonIn(ks)
    case Listing(ks, count, items) => count == Two && CommonIn(ks) && CommonIn(items)
    case OnSuccess(_, _, _) => false
  }

  predicate Plain(s: Shape) {
    match s
    case Flat(ks) => NoTrailerIn(ks)
    case Listing(ks, _, items) => NoTrailerIn(ks) && NoTrailerIn(items)
    case OnSuccess(before, group, after) => NoTrailerIn(before) && NoTrailerIn(group) && NoTrailerIn(after)
  }

  function Compile(s: Shape): Layout {
    match s
    case Flat(ks) => Layout(Always(ks), None)
    case Listing(ks, count, items) => Layout(Always(ks), Some(Items(count, Always(items))))
    case OnSuccess(before, group, after) =>
      Layout(Always([Flag] + before) + seq(|group|, i requires 0 <= i < |group| => Field(group[i], Some(0)))
             + Always(after), None)
  }

  /** Success, then user ID and nickname if so, a text, and the user flags if so and if set. */
  const AUTH_RESPONSE := Layout([Field(Flag, None), Field(Uint(Eight), Some(0)), Field(ANY_TEXT, Some(0)),
                                 Field(ANY_TEXT, None), Field(Trailer, Some(0))], None)

  function LayoutOf(t: MessageType): Layout {
    if t.AuthResponse? then AUTH_RESPONSE else Compile(ShapeOf(t))
  }

  function ShapeOf(t: MessageType): (s: Shape)
    requires !t.AuthResponse?
    ensures Plain(s)
  {
    match t
    case Web(w) => WebShape(w)
    case Chatting(c) => ChatShape(c)
    case Directory(d) => DirectoryShape(d)
    case Admin(a) => AdminShape(a)
  }

  function WebShape(m: WebMessage): (s: Shape)
    ensures Plain(s) && !s.OnSuccess?
  {
    match m
    case AuthRequest => Flat([ANY_TEXT, ANY_TEXT])
    case SetNickname => Flat([Text(3, 20)])
    case NicknameResponse => Flat([Flag, ANY_TEXT])
    case RegisterUser => Flat([ANY_TEXT])
    case ListChannels => Flat([Uint(Eight), Uint(Two)])
    case ChannelList => Listing([], Two, CHANNEL_KINDS)
    case JoinChannel => Flat([Uint(Eight), OptUint])
    case JoinResponse => Flat([Flag, Uint(Eight), OptUint, ANY_TEXT])
    case ListMessages => Flat([Uint(Eight), OptUint, Uint(Two), OptUint, OptUint, OptUint])
    case MessageList => Listing(PAGE_KINDS, Two, MESSAGE_KINDS)
    case PostMessage => Flat(POST_KINDS)
    case MessagePosted => Flat([Flag, Uint(Eight), ANY_TEXT])
    case NewMessage => Flat(MESSAGE_KINDS)
    case Ping => Flat([INT64])
    case Pong => Flat([INT64])
    case ErrorReply => Flat([Uint(Two), ANY_TEXT])
    case ServerConfig => Flat(CONFIG_KINDS)
    case SubscribeThread => Flat([Uint(Eight)])
    case UnsubscribeThread => Flat([Uint(Eight)])
    case SubscribeChannel => Flat([Uint(Eight), OptUint])
    case UnsubscribeChannel => Flat([Uint(Eight), OptUint])
    case SubscribeOk => Flat([Uint(One), Uint(Eight), OptUint])
    case FrameHeader => Flat(HEADER_KINDS)
  }

  function ChatShape(m: ChatMessage): (s: Shape)
    ensures Plain(s)
  {
    match m
    case RegisterResponse => OnSuccess([], [Uint(Eight)], [ANY_TEXT])
    case Logout => Flat([])
    case LeaveChannel => Flat([Uint(Eight), OptUint])
    case LeaveResponse => Flat([Flag, Uint(Eight), OptUint, ANY_TEXT])
    case CreateChannel => Flat([ANY_TEXT, ANY_TEXT, OptText, Uint(One), Uint(Four)])
    case ChannelCreated => OnSuccess([], [Uint(Eight), ANY_TEXT, ANY_TEXT, Uint(One), Uint(Four)], [ANY_TEXT])
    case EditMessage => Flat([Uint(Eight), Text(1, 4096)])
    case MessageEdited => OnSuccess([Uint(Eight)], [TIME, ANY_TEXT], [ANY_TEXT])
    case DeleteMessage => Flat([Uint(Eight)])
    case MessageDeleted => OnSuccess([Uint(Eight)], [TIME], [ANY_TEXT])
    case Disconnect => Flat([OptText])
    case GetUserInfo => Flat([ANY_TEXT])
    case UserInfo => Flat([ANY_TEXT, Flag, OptUint, Flag])
    case ListUsers => Flat([Uint(Two), LateFlag])
    case UserList => Listing([], Two, [ANY_TEXT, Flag, OptUint, Flag])
    case ListChannelUsers => Flat([Uint(Eight), OptUint])
    case ChannelUserList => Listing([Uint(Eight), OptUint], Two, [Uint(Eight), ANY_TEXT, Flag, OptUint, Uint(One)])
    case ChannelPresence => Flat([Uint(Eight), OptUint, Uint(Eight), ANY_TEXT, Flag, OptUint, Uint(One), Flag])
    case ServerPresence => Flat([Uint(Eight), ANY_TEXT, Flag, OptUint, Uint(One), Flag])
    case GetUnreadCounts => Listing([OptSigned64], Two, [Uint(Eight), OptUint, OptUint])
    case UnreadCounts => Listing([], Two, [Uint(Eight), OptUint, OptUint, Uint(Four)])
    case UpdateReadState => Flat([Uint(Eight), OptUint, INT64])
  }

  function DirectoryShape(m: DirectoryMessage): (s: Shape)
    ensures Plain(s)
  {
    match m
    case ListServers => Flat([Uint(Two)])
    case ServerList =>
      Listing([], Two, [ANY_TEXT, Uint(Two), ANY_TEXT, ANY_TEXT, Uint(Four), Uint(Four), Uint(Eight), Flag, Uint(Four)])
    case RegisterServer => Flat([ANY_TEXT, Uint(Two), ANY_TEXT, ANY_TEXT, Uint(Four), Flag, Uint(Four)])
    case RegisterAck => OnSuccess([], [Uint(Four)], [ANY_TEXT])
    case VerifyRegistration => Flat([Uint(Eight)])
    case VerifyResponse => Flat([Uint(Eight)])
    case Heartbeat => Flat([ANY_TEXT, Uint(Two), Uint(Four), Uint(Eight), Uint(Four)])
    case HeartbeatAck => Flat([Uint(Four)])
    case ChangePassword => Flat([ANY_TEXT, ANY_TEXT])
    case PasswordChanged => Flat([Flag, ANY_TEXT])
    case AddSSHKey => Flat([ANY_TEXT, ANY_TEXT])
    case SSHKeyAdded => Flat([Flag, INT64, ANY_TEXT, ANY_TEXT])
    case ListSSHKeys => Flat([])
    case SSHKeyList =>
      Listing([], Four, [INT64, ANY_TEXT, ANY_TEXT, ANY_TEXT, INT64, INT64])
    case UpdateSSHKeyLabel => Flat([INT64, ANY_TEXT])
    case SSHKeyLabelUpdated => Flat([Flag, ANY_TEXT])
    case DeleteSSHKey => Flat([INT64])
    case SSHKeyDeleted => Flat([Flag, ANY_TEXT])
  }

  function AdminShape(m: AdminMessage): (s: Shape)
    ensures Plain(s)
  {
    match m
    case BanUser => Flat([OptUint, OptText, ANY_TEXT, Flag, OptUint])
    case UserBanned => OnSuccess([], [Uint(Eight)], [ANY_TEXT])
    case BanIP => Flat([ANY_TEXT, ANY_TEXT, OptUint])
    case IPBanned => OnSuccess([], [Uint(Eight)], [ANY_TEXT])
    case UnbanUser => Flat([OptUint, OptText])
    case UserUnbanned => Flat([Flag, ANY_TEXT])
    case UnbanIP => Flat([ANY_TEXT])
    case IPUnbanned => Flat([Flag, ANY_TEXT])
    case ListBans => Flat([Flag])
    case BanList =>
      Listing([], Two, [Uint(Eight), ANY_TEXT, OptUint, OptText, OptText, ANY_TEXT, Flag, INT64, OptSigned64, ANY_TEXT])
    case DeleteUser => Flat([Uint(Eight)])
    case UserDeleted => Flat([Flag, ANY_TEXT])
    case DeleteChannel => Flat([Uint(Eight), ANY_TEXT])
    case ChannelDeleted => Flat([Flag, Uint(Eight), ANY_TEXT])
  }

  lemma LongListsCommon()
    ensures CommonIn(MESSAGE_KINDS) && CommonIn(CHANNEL_KINDS) && CommonIn(PAGE_KINDS)
    ensures CommonIn(POST_KINDS) && CommonIn(CONFIG_KINDS) && CommonIn(HEADER_KINDS)
  {
  }

  lemma WebCommon(m: WebMessage)
    ensures CommonShape(WebShape(m))
  {
    hide MESSAGE_KINDS, CHANNEL_KINDS, PAGE_KINDS, POST_KINDS, CONFIG_KINDS, HEADER_KINDS;
    LongListsCommon();
  }

  lemma CompiledGood(s: Shape)
    requires Plain(s)
    ensures GoodLayout(Compile(s)) && !HasTrailer(Compile(s))
  {
    if s.OnSuccess? {
      var fs, n, m := Compile(s).header, |s.before|, |s.group|;
      forall i | 0 <= i < |fs|
        ensures !fs[i].kind.Trailer? && (fs[i].when.None? || (fs[i].when == Some(0) && i > 0))
      {
        assert 0 < i <= n ==> fs[i].kind in s.before;
        assert n < i <= n + m ==> fs[i].kind in s.group;
        assert i > n + m ==> fs[i].kind in s.after;
      }
      assert fs[0] == Field(Flag, None);
    }
  }

  /** Every message of the protocol has a good layout; only AuthResponse ends with a trailer. */
  lemma AllGood(t: MessageType)
    ensures GoodLayout(LayoutOf(t)) && (HasTrailer(LayoutOf(t)) <==> t.AuthResponse?)
  {
    if t.AuthResponse? {
      assert AUTH_RESPONSE.header[4].kind.Trailer?;
    } else {
      hide GoodLayout, HasTrailer, ShapeOf, Compile;
      CompiledGood(ShapeOf(t));
    }
  }

  /** Any message of the protocol, encoded by Go, is decoded by Go to itself exactly when its
      list fits the count and the fields that its flag leaves out are zero. */
  lemma GoReadsBackIff(t: MessageType, m: Message)
    requires TypedMessage(LayoutOf(t), m) && MessageInLimits(LayoutOf(t), m)
    ensures GetMessage(Go, LayoutOf(t), MessageBytes(LayoutOf(t), m)) == Some(m) <==>
            CountFits(LayoutOf(t), m) && AbsentZero(LayoutOf(t), m)
  {
    hide *;
    var bytes := MessageBytes(LayoutOf(t), m);
    assert bytes + [] == bytes;
    AllGood(t);
    ReadsBackIff(Go, LayoutOf(t), m, []);
    GoIsNative(m);
  }

  lemma GoIsNative(m: Message)
    ensures NativeMessage(Go, m) == m
  {
    assert NativeRecord(Go, m.header) == m.header;
    forall i | 0 <= i < |m.items| ensures NativeRecord(Go, m.items[i]) == m.items[i] {
    }
    assert NativeRows(Go, m.items) == m.items;
  }

  // ---------------------------------------------------------------- the messages with a group

  function Zeros(ks: seq<Kind>): seq<Value> {
    if ks == [] then [] else [Zero(ks[0])] + Zeros(ks[1..])
  }

  lemma {:induction false} ZerosAt(ks: seq<Kind>, i: nat)
    ensures |Zeros(ks)| == |ks|
    ensures i < |ks| ==> Zeros(ks)[i] == Zero(ks[i])
  {
    if ks != [] {
      ZerosAt(ks[1..], if i == 0 then 0 else i - 1);
    }
  }

  /** The fields of the group are zero, or the flag is set. */
  ghost predicate GroupZero(s: Shape, vs: seq<Value>)
    requires s.OnSuccess? && |vs| == 1 + |s.before| + |s.group| + |s.after|
  {
    var n := 1 + |s.before|;
    Raised(vs[0]) || vs[n..n + |s.group|] == Zeros(s.group)
  }

  lemma GroupFields(s: Shape, i: nat)
    requires s.OnSuccess? && i < |Compile(s).header|
    ensures var n := 1 + |s.before|;
      Compile(s).header[i] ==
      if n <= i < n + |s.group| then Field(s.group[i - n], Some(0))
      else Field(if i == 0 then Flag else if i < n then s.before[i - 1] else s.after[i - n - |s.group|], None)
  {
  }

  lemma FieldZeroIff(s: Shape, vs: seq<Value>, i: nat)
    requires s.OnSuccess? && i < |Compile(s).header| == |vs|
    ensures var n := 1 + |s.before|;
      && (n <= i < n + |s.group| ==>
            (ZeroUnlessOn(Compile(s).header, vs, i) <==> Raised(vs[0]) || vs[i] == Zero(s.group[i - n])))
      && (!(n <= i < n + |s.group|) ==> ZeroUnlessOn(Compile(s).header, vs, i))
  {
    hide Zero, Compile, Raised;
    GroupFields(s, i);
  }

  lemma GroupIff(s: Shape, m: Message)
    requires s.OnSuccess? && TypedMessage(Compile(s), m)
    ensures |m.header| == 1 + |s.before| + |s.group| + |s.after|
    ensures AbsentZero(Compile(s), m) <==> GroupZero(s, m.header)
    ensures CountFits(Compile(s), m)
  {
    hide Typed, Zero, Compile, Raised, ZeroUnlessOn;
    GroupParts(s);
    var fs, vs, n := Compile(s).header, m.header, 1 + |s.before|;
    hide Zeros;
    var slice := vs[n..n + |s.group|];
    ZerosAt(s.group, 0);
    if AbsentZero(Compile(s), m) && !Raised(vs[0]) {
      forall i | 0 <= i < |s.group| ensures slice[i] == Zeros(s.group)[i] {
        FieldZeroIff(s, vs, n + i);
        ZerosAt(s.group, i);
      }
    }
    if GroupZero(s, vs) {
      forall i | 0 <= i < |fs| ensures ZeroUnlessOn(fs, vs, i) {
        FieldZeroIff(s, vs, i);
        if n <= i < n + |s.group| && !Raised(vs[0]) {
          ZerosAt(s.group, i - n);
          assert slice[i - n] == vs[i];
        }
      }
    }
  }

  lemma GroupParts(s: Shape)
    requires s.OnSuccess?
    ensures |Compile(s).header| == 1 + |s.before| + |s.group| + |s.after| && Compile(s).items.None?
  {
  }

  /** A message with a group is read back exactly when it is a success or its group is zero. */
  lemma OnSuccessReadsBackIff(t: MessageType, m: Message)
    requires !t.AuthResponse? && ShapeOf(t).OnSuccess?
    requires TypedMessage(LayoutOf(t), m) && MessageInLimits(LayoutOf(t), m)
    ensures var s := ShapeOf(t);
      && |m.header| == 1 + |s.before| + |s.group| + |s.after|
      && (GetMessage(Go, LayoutOf(t), MessageBytes(LayoutOf(t), m)) == Some(m) <==> GroupZero(s, m.header))
  {
    hide GetMessage, MessageBytes, MessageInLimits, TypedMessage, AbsentZero, CountFits, ShapeOf, Compile, GroupZero;
    GoReadsBackIff(t, m);
    GroupIff(ShapeOf(t), m);
  }

  lemma GroupZeros()
    ensures Zeros([TIME]) == [Int(NO_TIME)] && Zeros([TIME, ANY_TEXT]) == [Int(NO_TIME), Str([])]
    ensures Zeros([Uint(Eight), ANY_TEXT, ANY_TEXT, Uint(One), Uint(Four)]) ==
            [Num(0), Str([]), Str([]), Num(0), Num(0)]
  {
    assert [TIME][1..] == [] && [TIME, ANY_TEXT][1..] == [ANY_TEXT] && [ANY_TEXT][1..] == [];
    var ks := [Uint(Eight), ANY_TEXT, ANY_TEXT, Uint(One), Uint(Four)];
    ZerosAt(ks, 0);
    ZerosAt(ks, 1);
    ZerosAt(ks, 2);
    ZerosAt(ks, 3);
    ZerosAt(ks, 4);
    assert Zeros(ks) == [Zeros(ks)[0], Zeros(ks)[1], Zeros(ks)[2], Zeros(ks)[3], Zeros(ks)[4]];
  }

  /** Registration: no user ID without success. */
  lemma RegisterResponseIff(m: Message)
    requires TypedMessage(LayoutOf(Chatting(RegisterResponse)), m)
            && MessageInLimits(LayoutOf(Chatting(RegisterResponse)), m)
    ensures |m.header| == 3
    ensures var f := LayoutOf(Chatting(RegisterResponse));
            GetMessage(Go, f, MessageBytes(f, m)) == Some(m) <==>
            Raised(m.header[0]) || m.header[1] == Num(0)
  {
    hide LayoutOf, GetMessage, MessageBytes, MessageInLimits, TypedMessage, Raised;
    OnSuccessReadsBackIff(Chatting(RegisterResponse), m);
  }

  /** Channel creation: ID, name, description, type and retention only with success. */
  lemma ChannelCreatedIff(m: Message)
    requires TypedMessage(LayoutOf(Chatting(ChannelCreated)), m)
            && MessageInLimits(LayoutOf(Chatting(ChannelCreated)), m)
    ensures |m.header| == 7
    ensures var f := LayoutOf(Chatting(ChannelCreated));
            GetMessage(Go, f, MessageBytes(f, m)) == Some(m) <==>
            Raised(m.header[0]) || m.header[1..6] == [Num(0), Str([]), Str([]), Num(0), Num(0)]
  {
    hide LayoutOf, GetMessage, MessageBytes, MessageInLimits, TypedMessage, Raised, Zeros;
    OnSuccessReadsBackIff(Chatting(ChannelCreated), m);
    GroupZeros();
  }

  /** A nickname of 3 to 20 bytes, and no other, can be set, and it arrives. */
  lemma NicknameLimits(s: seq<Octet>)
    ensures var f, m := LayoutOf(Web(SetNickname)), Message([Str(s)], []);
      && (MessageInLimits(f, m) <==> 3 <= |s| <= 20)
      && (3 <= |s| <= 20 ==> GetMessage(Go, f, MessageBytes(f, m)) == Some(m))
  {
    hide GetMessage, MessageBytes;
    var f, m := LayoutOf(Web(SetNickname)), Message([Str(s)], []);
    assert On(f.header, m.header, 0);
    assert InLimits(f.header[0].kind, m.header[0]) <==> 3 <= |s| <= 20;
    if 3 <= |s| <= 20 {
      GoReadsBackIff(Web(SetNickname), m);
    }
  }

  /** So does the new content of a message if it has 1 to 4096 bytes, and none else can be sent. */
  lemma ContentLimits(id: nat, s: seq<Octet>)
    requires Uint64(id)
    ensures var f, m := LayoutOf(Chatting(EditMessage)), Message([Num(id), Str(s)], []);
      && (MessageInLimits(f, m) <==> 1 <= |s| <= 4096)
      && (1 <= |s| <= 4096 ==> GetMessage(Go, f, MessageBytes(f, m)) == Some(m))
  {
    hide GetMessage, MessageBytes, Pow;
    ByteWeights();
    var f, m := LayoutOf(Chatting(EditMessage)), Message([Num(id), Str(s)], []);
    assert On(f.header, m.header, 0) && On(f.header, m.header, 1);
    assert InLimits(f.header[1].kind, m.header[1]) <==> 1 <= |s| <= 4096;
    if 1 <= |s| <= 4096 {
      GoReadsBackIff(Chatting(EditMessage), m);
    }
  }

  /** Edits: time and new content only with success. */
  lemma MessageEditedIff(m: Message)
    requires TypedMessage(LayoutOf(Chatting(MessageEdited)), m) && MessageInLimits(LayoutOf(Chatting(MessageEdited)), m)
    ensures |m.header| == 5
    ensures var f := LayoutOf(Chatting(MessageEdited));
            GetMessage(Go, f, MessageBytes(f, m)) == Some(m) <==>
            Raised(m.header[0]) || (m.header[2] == Int(-62135596800000) && m.header[3] == Str([]))
  {
    hide LayoutOf, GetMessage, MessageBytes, MessageInLimits, TypedMessage, Raised, Zeros;
    OnSuccessReadsBackIff(Chatting(MessageEdited), m);
    GroupZeros();
    assert m.header[2..4] == [m.header[2], m.header[3]];
  }

  /** Deletions: the time only with success. */
  lemma MessageDeletedIff(m: Message)
    requires TypedMessage(LayoutOf(Chatting(MessageDeleted)), m)
            && MessageInLimits(LayoutOf(Chatting(MessageDeleted)), m)
    ensures |m.header| == 4
    ensures var f := LayoutOf(Chatting(MessageDeleted));
            GetMessage(Go, f, MessageBytes(f, m)) == Some(m) <==>
            Raised(m.header[0]) || m.header[2] == Int(-62135596800000)
  {
    hide LayoutOf, GetMessage, MessageBytes, MessageInLimits, TypedMessage, Raised, Zeros;
    OnSuccessReadsBackIff(Chatting(MessageDeleted), m);
    GroupZeros();
    assert m.header[2..3] == [m.header[2]];
  }

  /** A login: user ID, nickname and flags only with success. */
  lemma AuthResponseIff(m: Message)
    requires TypedMessage(AUTH_RESPONSE, m) && MessageInLimits(AUTH_RESPONSE, m)
    ensures |m.header| == 5
    ensures GetMessage(Go, AUTH_RESPONSE, MessageBytes(AUTH_RESPONSE, m)) == Some(m) <==>
            Raised(m.header[0]) || (m.header[1] == Num(0) && m.header[2] == Str([]) && m.header[4] == Last(None))
  {
    hide GetMessage, MessageBytes, MessageInLimits, Typed, Raised;
    GoReadsBackIff(AuthResponse, m);
    var fs, vs := AUTH_RESPONSE.header, m.header;
    assert ZeroUnlessOn(fs, vs, 0) && ZeroUnlessOn(fs, vs, 3);
    assert ZeroUnlessOn(fs, vs, 1) <==> Raised(vs[0]) || vs[1] == Num(0);
    assert ZeroUnlessOn(fs, vs, 2) <==> Raised(vs[0]) || vs[2] == Str([]);
    assert ZeroUnlessOn(fs, vs, 4) <==> Raised(vs[0]) || vs[4] == Last(None);
  }

  /** For instance: a refused registration that names user 7 arrives naming user 0. */
  lemma RefusedRegistrationLosesId(text: seq<Octet>)
    requires |text| <= 65535
    ensures var f := LayoutOf(Chatting(RegisterResponse));
      GetMessage(Go, f, MessageBytes(f, Message([Bool(false), Num(7), Str(text)], []))) ==
      Some(Message([Bool(false), Num(0), Str(text)], []))
  {
    hide LayoutOf, GetMessage, MessageBytes, GoodLayout, TypedMessage, MessageInLimits, CountFits, HasTrailer;
    hide ClearedMessage, NativeMessage;
    var t, f := Chatting(RegisterResponse), LayoutOf(Chatting(RegisterResponse));
    var m := Message([Bool(false), Num(7), Str(text)], []);
    AllGood(t);
    RegistrationFits(text);
    assert MessageBytes(f, m) + [] == MessageBytes(f, m);
    EitherSideReads(Go, f, m, []);
    GoIsNative(ClearedMessage(f, m));
  }

  lemma RegistrationFits(text: seq<Octet>)
    requires |text| <= 65535
    ensures var f, m := LayoutOf(Chatting(RegisterResponse)), Message([Bool(false), Num(7), Str(text)], []);
      && TypedMessage(f, m) && MessageInLimits(f, m) && CountFits(f, m)
      && ClearedMessage(f, m) == Message([Bool(false), Num(0), Str(text)], [])
  {
    var f, m := LayoutOf(Chatting(RegisterResponse)), Message([Bool(false), Num(7), Str(text)], []);
    ByteWeights();
    assert f.header == [Field(Flag, None), Field(Uint(Eight), Some(0)), Field(ANY_TEXT, None)];
    assert Cleared(f.header, m.header) == [Bool(false), Num(0), Str(text)];
  }

  /** Every flat message of the protocol is read back, whatever it holds: an optional
      description of a channel, say. */
  lemma FlatReadsBack(t: MessageType, m: Message)
    requires !t.AuthResponse? && ShapeOf(t).Flat?
    requires TypedMessage(LayoutOf(t), m) && MessageInLimits(LayoutOf(t), m)
    ensures GetMessage(Go, LayoutOf(t), MessageBytes(LayoutOf(t), m)) == Some(m)
  {
    hide GetMessage, MessageBytes, MessageInLimits, TypedRecord, ShapeOf;
    GoReadsBackIff(t, m);
  }

  /** For instance: a list of 65536 channels arrives as an empty one. */
  lemma FullChannelListArrivesEmpty(m: Message)
    requires TypedMessage(LayoutOf(Web(ChannelList)), m) && MessageInLimits(LayoutOf(Web(ChannelList)), m)
    requires |m.items| == 65536
    ensures GetMessage(Go, LayoutOf(Web(ChannelList)), MessageBytes(LayoutOf(Web(ChannelList)), m)) ==
            Some(Message([], []))
  {
    hide GetMessage, MessageBytes, MessageInLimits, GoodLayout, Pow, TypedRows, NativeRecord, Cleared;
    ByteWeights();
    AllGood(Web(ChannelList));
    var bytes := MessageBytes(LayoutOf(Web(ChannelList)), m);
    assert bytes + [] == bytes;
    WrappedCountReadsNone(Go, LayoutOf(Web(ChannelList)), m, []);
  }
}
