/** The records of the messages that the server and the web client write and read step by step:
    a record is its fields one after another, whatever values they have. */
module Records {
  import opened Codec
  import opened Layouts
  import opened Octets
  import opened Wire
  import opened Wrappers

  /** A message without a list. */
  function Flatly(vs: seq<Value>): Message {
    Message(vs, [])
  }

  // ---------------------------------------------------------------- writing

  lemma FlatBytes(t: MessageType, ks: seq<Kind>, vs: seq<Value>)
    requires LayoutOf(t) == Layout(Always(ks), None) && TypedMessage(LayoutOf(t), Flatly(vs))
    ensures MessageBytes(LayoutOf(t), Flatly(vs)) == RecordBytes(Always(ks), vs)
    ensures MessageInLimits(LayoutOf(t), Flatly(vs)) <==> forall i :: 0 <= i < |ks| ==> InLimits(ks[i], vs[i])
  {
    hide LayoutOf, RecordBytes, Typed, InLimits;
    assert RecordBytes(Always(ks), vs) + [] == RecordBytes(Always(ks), vs);
    if MessageInLimits(LayoutOf(t), Flatly(vs)) {
      forall i | 0 <= i < |ks| ensures InLimits(ks[i], vs[i]) {
        assert On(Always(ks), vs, i);
      }
    }
  }

  lemma Part(start: seq<Octet>, ks: seq<Kind>, vs: seq<Value>, i: nat)
    requires i < |ks| == |vs|
    ensures start + RecordPrefix(Always(ks), vs, i + 1)
            == (if i == 0 then start else start + RecordPrefix(Always(ks), vs, i)) + FieldBytes(vs[i], ks[i])
  {
    hide RecordPrefix, FieldBytes;
    NothingWritten(start, Always(ks), vs);
    PartWritten(start, Always(ks), vs, i);
  }

  lemma PageBytes(start: seq<Octet>, vs: seq<Value>)
    requires |vs| == 3
    ensures start + RecordBytes(Always(PAGE_KINDS), vs)
            == start + FieldBytes(vs[0], Uint(Eight)) + FieldBytes(vs[1], OptUint) + FieldBytes(vs[2], OptUint)
  {
    hide RecordPrefix, FieldBytes, Always;
    Part(start, PAGE_KINDS, vs, 0);
    Part(start, PAGE_KINDS, vs, 1);
    Part(start, PAGE_KINDS, vs, 2);
  }

  lemma PostBytes(start: seq<Octet>, vs: seq<Value>)
    requires |vs| == 4
    ensures start + RecordBytes(Always(POST_KINDS), vs)
            == start + FieldBytes(vs[0], Uint(Eight)) + FieldBytes(vs[1], OptUint) + FieldBytes(vs[2], OptUint)
               + FieldBytes(vs[3], Text(1, 4096))
  {
    hide RecordPrefix, FieldBytes, Always;
    Part(start, POST_KINDS, vs, 0);
    Part(start, POST_KINDS, vs, 1);
    Part(start, POST_KINDS, vs, 2);
    Part(start, POST_KINDS, vs, 3);
  }

  lemma ConfigBytes(start: seq<Octet>, vs: seq<Value>)
    requires |vs| == 9
    ensures start + RecordBytes(Always(CONFIG_KINDS), vs)
            == start + FieldBytes(vs[0], Uint(One)) + FieldBytes(vs[1], Uint(Two)) + FieldBytes(vs[2], Uint(Two))
               + FieldBytes(vs[3], Uint(Two)) + FieldBytes(vs[4], Uint(One)) + FieldBytes(vs[5], Uint(Four))
               + FieldBytes(vs[6], Uint(Two)) + FieldBytes(vs[7], Uint(Two)) + FieldBytes(vs[8], Flag)
  {
    hide RecordPrefix, FieldBytes, Always;
    Part(start, CONFIG_KINDS, vs, 0);
    Part(start, CONFIG_KINDS, vs, 1);
    Part(start, CONFIG_KINDS, vs, 2);
    Part(start, CONFIG_KINDS, vs, 3);
    Part(start, CONFIG_KINDS, vs, 4);
    Part(start, CONFIG_KINDS, vs, 5);
    Part(start, CONFIG_KINDS, vs, 6);
    Part(start, CONFIG_KINDS, vs, 7);
    Part(start, CONFIG_KINDS, vs, 8);
  }

  lemma ChannelBytes(start: seq<Octet>, vs: seq<Value>)
    requires |vs| == 7
    ensures start + RecordBytes(Always(CHANNEL_KINDS), vs)
            == start + FieldBytes(vs[0], Uint(Eight)) + FieldBytes(vs[1], ANY_TEXT) + FieldBytes(vs[2], ANY_TEXT)
               + FieldBytes(vs[3], Uint(Four)) + FieldBytes(vs[4], Flag) + FieldBytes(vs[5], Uint(One))
               + FieldBytes(vs[6], Uint(Four))
  {
    hide RecordPrefix, FieldBytes, Always;
    Part(start, CHANNEL_KINDS, vs, 0);
    Part(start, CHANNEL_KINDS, vs, 1);
    Part(start, CHANNEL_KINDS, vs, 2);
    Part(start, CHANNEL_KINDS, vs, 3);
    Part(start, CHANNEL_KINDS, vs, 4);
    Part(start, CHANNEL_KINDS, vs, 5);
    Part(start, CHANNEL_KINDS, vs, 6);
  }

  lemma ChatBytes(start: seq<Octet>, vs: seq<Value>)
    requires |vs| == 10
    ensures start + RecordBytes(Always(MESSAGE_KINDS), vs)
            == start + FieldBytes(vs[0], Uint(Eight)) + FieldBytes(vs[1], Uint(Eight)) + FieldBytes(vs[2], OptUint)
               + FieldBytes(vs[3], OptUint) + FieldBytes(vs[4], OptUint) + FieldBytes(vs[5], ANY_TEXT)
               + FieldBytes(vs[6], ANY_TEXT) + FieldBytes(vs[7], TIME) + FieldBytes(vs[8], OptSigned64)
               + FieldBytes(vs[9], Uint(Four))
  {
    hide RecordPrefix, FieldBytes, Always;
    Part(start, MESSAGE_KINDS, vs, 0);
    Part(start, MESSAGE_KINDS, vs, 1);
    Part(start, MESSAGE_KINDS, vs, 2);
    Part(start, MESSAGE_KINDS, vs, 3);
    Part(start, MESSAGE_KINDS, vs, 4);
    Part(start, MESSAGE_KINDS, vs, 5);
    Part(start, MESSAGE_KINDS, vs, 6);
    Part(start, MESSAGE_KINDS, vs, 7);
    Part(start, MESSAGE_KINDS, vs, 8);
    Part(start, MESSAGE_KINDS, vs, 9);
  }

  // ---------------------------------------------------------------- reading

  function GetChannel(l: Language, data: seq<Octet>, pos: nat): Option<(seq<Value>, nat)> {
    var id :- GetNumber(data, pos, 8);
    var name :- GetText(data, id.1);
    var description :- GetText(data, name.1);
    var userCount :- GetNumber(data, description.1, 4);
    var isOperator :- GetNumber(data, userCount.1, 1);
    var kind :- GetNumber(data, isOperator.1, 1);
    var retention :- GetNumber(data, kind.1, 4);
    Some(([Num(id.0), Str(name.0), Str(description.0), Num(userCount.0), FlagOf(l, isOperator.0), Num(kind.0),
           Num(retention.0)], retention.1))
  }

  lemma ChannelRead(l: Language, data: seq<Octet>, pos: nat)
    ensures GetRecord(l, Always(CHANNEL_KINDS), data, pos, []) == GetChannel(l, data, pos)
  {
    hide GetNumber, GetText, GetRecord, Always, FlagOf;
    FieldsInTurn(l, CHANNEL_KINDS, data);
    TextsShort(data);
    if GetChannel(l, data, pos).Some? {
      var vs := GetChannel(l, data, pos).value.0;
      assert vs == [] + [vs[0]] + [vs[1]] + [vs[2]] + [vs[3]] + [vs[4]] + [vs[5]] + [vs[6]];
    }
  }

  /** An optional field: a presence byte, which the two sides take differently. */
  function GetOpt(l: Language, data: seq<Octet>, pos: nat): Option<(Option<nat>, nat)> {
    var present :- GetNumber(data, pos, 1);
    if !Present(l, present.0) then Some((None, present.1))
    else
      var v :- GetNumber(data, present.1, 8);
      Some((Some(v.0), v.1))
  }

  function GetOptTime(l: Language, data: seq<Octet>, pos: nat): Option<(Option<int>, nat)> {
    var present :- GetNumber(data, pos, 1);
    if !Present(l, present.0) then Some((None, present.1))
    else
      var v :- GetInt64(data, present.1);
      Some((Some(v.0), v.1))
  }

  lemma OptsRead(l: Language, data: seq<Octet>)
    ensures forall pos: nat {:trigger GetField(l, OptUint, data, pos)} ::
              var r := GetOpt(l, data, pos);
              GetField(l, OptUint, data, pos) == if r.None? then None else Some((Opt(r.value.0), r.value.1))
    ensures forall pos: nat {:trigger GetField(l, OptSigned64, data, pos)} ::
              var r := GetOptTime(l, data, pos);
              GetField(l, OptSigned64, data, pos) == if r.None? then None else Some((OptInt(r.value.0), r.value.1))
  {
    hide GetNumber, GetInt64, Present;
  }

  /** Go reads an optional field so. */
  lemma GoOpts(data: seq<Octet>)
    ensures forall pos: nat :: GetOpt(Go, data, pos) == GetOptional(data, pos)
    ensures forall pos: nat :: GetOptTime(Go, data, pos) == GetOptionalTime(data, pos)
  {
    hide GetNumber, GetInt64;
  }

  function GetChatIds(l: Language, data: seq<Octet>, pos: nat): (r: Option<(seq<Value>, nat)>)
    ensures r.Some? ==> |r.value.0| == 5
  {
    var id :- GetNumber(data, pos, 8);
    var channelId :- GetNumber(data, id.1, 8);
    var subchannelId :- GetOpt(l, data, channelId.1);
    var parentId :- GetOpt(l, data, subchannelId.1);
    var authorId :- GetOpt(l, data, parentId.1);
    Some(([Num(id.0), Num(channelId.0), Opt(subchannelId.0), Opt(parentId.0), Opt(authorId.0)], authorId.1))
  }

  function GetChatRest(l: Language, data: seq<Octet>, ids: seq<Value>, pos: nat): Option<(seq<Value>, nat)>
    requires |ids| == 5
  {
    var nickname :- GetText(data, pos);
    var content :- GetText(data, nickname.1);
    var createdAt :- GetInt64(data, content.1);
    var editedAt :- GetOptTime(l, data, createdAt.1);
    var replyCount :- GetNumber(data, editedAt.1, 4);
    Some(([ids[0], ids[1], ids[2], ids[3], ids[4], Str(nickname.0), Str(content.0), Int(createdAt.0),
           OptInt(editedAt.0), Num(replyCount.0)], replyCount.1))
  }

  function GetChat(l: Language, data: seq<Octet>, pos: nat): Option<(seq<Value>, nat)> {
    var ids :- GetChatIds(l, data, pos);
    GetChatRest(l, data, ids.0, ids.1)
  }

  lemma ChatIdsRead(l: Language, data: seq<Octet>, pos: nat)
    ensures var ids := GetChatIds(l, data, pos);
      GetRecord(l, Always(MESSAGE_KINDS), data, pos, []) ==
      if ids.None? then None else GetRecord(l, Always(MESSAGE_KINDS), data, ids.value.1, ids.value.0)
  {
    hide GetNumber, GetRecord, Always, GetOpt, GetOptTime, Present;
    FieldsInTurn(l, MESSAGE_KINDS, data);
    OptsRead(l, data);
    if GetChatIds(l, data, pos).Some? {
      var vs := GetChatIds(l, data, pos).value.0;
      assert vs == [] + [vs[0]] + [vs[1]] + [vs[2]] + [vs[3]] + [vs[4]];
    }
  }

  lemma ChatRestRead(l: Language, data: seq<Octet>, ids: seq<Value>, pos: nat)
    requires |ids| == 5
    ensures GetRecord(l, Always(MESSAGE_KINDS), data, pos, ids) == GetChatRest(l, data, ids, pos)
  {
    hide GetNumber, GetText, GetInt64, GetRecord, Always, GetOpt, GetOptTime, Present;
    FieldsInTurn(l, MESSAGE_KINDS, data);
    TextsShort(data);
    OptsRead(l, data);
    if GetChatRest(l, data, ids, pos).Some? {
      var vs := GetChatRest(l, data, ids, pos).value.0;
      assert vs == ids + [vs[5]] + [vs[6]] + [vs[7]] + [vs[8]] + [vs[9]];
    }
  }

  lemma ChatRead(l: Language, data: seq<Octet>, pos: nat)
    ensures GetRecord(l, Always(MESSAGE_KINDS), data, pos, []) == GetChat(l, data, pos)
  {
    hide GetRecord, GetChatRest;
    ChatIdsRead(l, data, pos);
    var ids := GetChatIds(l, data, pos);
    if ids.Some? {
      ChatRestRead(l, data, ids.value.0, ids.value.1);
    }
  }

  function GetPage(l: Language, data: seq<Octet>, pos: nat): Option<(seq<Value>, nat)> {
    var channelId :- GetNumber(data, pos, 8);
    var subchannelId :- GetOpt(l, data, channelId.1);
    var parentId :- GetOpt(l, data, subchannelId.1);
    Some(([Num(channelId.0), Opt(subchannelId.0), Opt(parentId.0)], parentId.1))
  }

  lemma PageRead(l: Language, data: seq<Octet>, pos: nat)
    ensures GetRecord(l, Always(PAGE_KINDS), data, pos, []) == GetPage(l, data, pos)
  {
    hide GetNumber, GetRecord, Always, GetOpt, GetOptTime, Present;
    FieldsInTurn(l, PAGE_KINDS, data);
    OptsRead(l, data);
    if GetPage(l, data, pos).Some? {
      var vs := GetPage(l, data, pos).value.0;
      assert vs == [] + [vs[0]] + [vs[1]] + [vs[2]];
    }
  }

  /** Only Go checks the length of the content. */
  function GetPost(l: Language, data: seq<Octet>, pos: nat): Option<(seq<Value>, nat)> {
    var channelId :- GetNumber(data, pos, 8);
    var subchannelId :- GetOpt(l, data, channelId.1);
    var parentId :- GetOpt(l, data, subchannelId.1);
    var content :- GetText(data, parentId.1);
    if l == Go && !(1 <= |content.0| <= 4096) then None
    else Some(([Num(channelId.0), Opt(subchannelId.0), Opt(parentId.0), Str(content.0)], content.1))
  }

  lemma PostRead(l: Language, data: seq<Octet>, pos: nat)
    ensures GetRecord(l, Always(POST_KINDS), data, pos, []) == GetPost(l, data, pos)
  {
    hide GetNumber, GetText, GetRecord, Always, GetOpt, GetOptTime, Present;
    FieldsInTurn(l, POST_KINDS, data);
    OptsRead(l, data);
    if GetPost(l, data, pos).Some? {
      var vs := GetPost(l, data, pos).value.0;
      assert vs == [] + [vs[0]] + [vs[1]] + [vs[2]] + [vs[3]];
    }
  }

  function GetConfigRates(data: seq<Octet>, pos: nat): (r: Option<(seq<Value>, nat)>)
    ensures r.Some? ==> |r.value.0| == 5
  {
    var version :- GetNumber(data, pos, 1);
    var messageRate :- GetNumber(data, version.1, 2);
    var channelCreates :- GetNumber(data, messageRate.1, 2);
    var cleanupDays :- GetNumber(data, channelCreates.1, 2);
    var connections :- GetNumber(data, cleanupDays.1, 1);
    Some(([Num(version.0), Num(messageRate.0), Num(channelCreates.0), Num(cleanupDays.0), Num(connections.0)],
          connections.1))
  }

  function GetConfigLimits(l: Language, data: seq<Octet>, rates: seq<Value>, pos: nat): Option<(seq<Value>, nat)>
    requires |rates| == 5
  {
    var messageLength :- GetNumber(data, pos, 4);
    var threads :- GetNumber(data, messageLength.1, 2);
    var channels :- GetNumber(data, threads.1, 2);
    var directory :- GetNumber(data, channels.1, 1);
    Some(([rates[0], rates[1], rates[2], rates[3], rates[4], Num(messageLength.0), Num(threads.0), Num(channels.0),
           FlagOf(l, directory.0)], directory.1))
  }

  function GetConfig(l: Language, data: seq<Octet>, pos: nat): Option<(seq<Value>, nat)> {
    var rates :- GetConfigRates(data, pos);
    GetConfigLimits(l, data, rates.0, rates.1)
  }

  lemma ConfigRatesRead(l: Language, data: seq<Octet>, pos: nat)
    ensures var rates := GetConfigRates(data, pos);
      GetRecord(l, Always(CONFIG_KINDS), data, pos, []) ==
      if rates.None? then None else GetRecord(l, Always(CONFIG_KINDS), data, rates.value.1, rates.value.0)
  {
    hide GetNumber, GetRecord, Always;
    FieldsInTurn(l, CONFIG_KINDS, data);
    if GetConfigRates(data, pos).Some? {
      var vs := GetConfigRates(data, pos).value.0;
      assert vs == [] + [vs[0]] + [vs[1]] + [vs[2]] + [vs[3]] + [vs[4]];
    }
  }

  lemma ConfigLimitsRead(l: Language, data: seq<Octet>, rates: seq<Value>, pos: nat)
    requires |rates| == 5
    ensures GetRecord(l, Always(CONFIG_KINDS), data, pos, rates) == GetConfigLimits(l, data, rates, pos)
  {
    hide GetNumber, GetRecord, Always, FlagOf;
    FieldsInTurn(l, CONFIG_KINDS, data);
    if GetConfigLimits(l, data, rates, pos).Some? {
      var vs := GetConfigLimits(l, data, rates, pos).value.0;
      assert vs == rates + [vs[5]] + [vs[6]] + [vs[7]] + [vs[8]];
    }
  }

  lemma ConfigRead(l: Language, data: seq<Octet>, pos: nat)
    ensures GetRecord(l, Always(CONFIG_KINDS), data, pos, []) == GetConfig(l, data, pos)
  {
    hide GetRecord, GetConfigLimits;
    ConfigRatesRead(l, data, pos);
    var rates := GetConfigRates(data, pos);
    if rates.Some? {
      ConfigLimitsRead(l, data, rates.value.0, rates.value.1);
    }
  }

  // ---------------------------------------------------------------- messages with a list

  lemma ChannelListRead(l: Language, data: seq<Octet>)
    ensures var count := GetNumber(data, 0, 2);
      GetMessage(l, LayoutOf(Web(ChannelList)), data) ==
      if count.None? then None
      else
        var rows := GetRows(l, Always(CHANNEL_KINDS), data, count.value.1, count.value.0, []);
        if rows.None? then None else Some(Message([], rows.value.0))
  {
    hide GetNumber, GetRows;
  }

  lemma MessageListRead(l: Language, data: seq<Octet>)
    ensures var page := GetPage(l, data, 0);
      GetMessage(l, LayoutOf(Web(MessageList)), data) ==
      if page.None? then None
      else
        var count := GetNumber(data, page.value.1, 2);
        if count.None? then None
        else
          var rows := GetRows(l, Always(MESSAGE_KINDS), data, count.value.1, count.value.0, []);
          if rows.None? then None else Some(Message(page.value.0, rows.value.0))
  {
    hide GetNumber, GetRecord, GetRows, GetPage;
    PageRead(l, data, 0);
  }

  lemma FlatRead(l: Language, t: MessageType, ks: seq<Kind>, data: seq<Octet>)
    requires LayoutOf(t) == Layout(Always(ks), None)
    ensures var vs := GetRecord(l, Always(ks), data, 0, []);
      GetMessage(l, LayoutOf(t), data) == if vs.None? then None else Some(Message(vs.value.0, []))
  {
    hide GetRecord, LayoutOf;
  }
}
