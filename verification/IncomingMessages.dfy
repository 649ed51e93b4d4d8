/** Incoming messages: sorting out the items of a request and collecting them into a message. */
module IncomingMessages {
  import opened Results
  import opened Base64
  import opened Uuids
  import opened Mentions
  import opened Sequences
  import Attachments

  datatype IncomingError = MissingMentionData | BadContent(error: Attachments.DecodeError)

  // ----- validate_items -----

  /** An element of a raw list: a dictionary, or anything else. */
  datatype Item<D> = DictItem(raw: D) | OtherItem

  /** A dictionary that fits the model, or one that does not and is kept as it is. */
  datatype Parsed<E, D> = Known(value: E) | Unknown(raw: D)

  function Dicts<D>(items: seq<Item<D>>): seq<D>
  {
    if items == [] then [] else (if items[0].DictItem? then [items[0].raw] else []) + Dicts(items[1..])
  }

  function Validated<E, D>(raw: D, validate: D -> Option<E>): Parsed<E, D>
  {
    match validate(raw)
    case Some(value) => Known(value)
    case None => Unknown(raw)
  }

  lemma {:induction false} DictsAppend<D>(items: seq<Item<D>>, item: Item<D>)
    ensures Dicts(items + [item]) == Dicts(items) + (if item.DictItem? then [item.raw] else [])
  {
    var all := items + [item];
    if items == [] {
      assert all == [item] && all[1..] == [];
    } else {
      DictsAppend(items[1..], item);
      assert all[1..] == items[1..] + [item];
      assert Dicts(all) == (if all[0].DictItem? then [all[0].raw] else []) + Dicts(all[1..]);
    }
  }

  /** `validate_items`: every dictionary stays, in order, validated or raw; nothing else does. */
  method ValidateItems<E, D>(items: seq<Item<D>>, validate: D -> Option<E>) returns (parsed: seq<Parsed<E, D>>)
    ensures |parsed| == |Dicts(items)|
    ensures forall i | 0 <= i < |parsed| :: parsed[i] == Validated(Dicts(items)[i], validate)
  {
    parsed := [];
    for n := 0 to |items|
      invariant |parsed| == |Dicts(items[..n])|
      invariant forall i | 0 <= i < |parsed| :: parsed[i] == Validated(Dicts(items[..n])[i], validate)
    {
      assert items[..n + 1] == items[..n] + [items[n]];
      DictsAppend(items[..n], items[n]);
      if items[n].DictItem? {
        var value := validate(items[n].raw);
        parsed := parsed + [if value.Some? then Known(value.value) else Unknown(items[n].raw)];
      }
    }
    assert items[..|items|] == items;
  }

  // ----- Entities -----

  datatype NestedMentionData = NestedMentionData(entityId: Uuid, name: string)

  datatype BotAPIMentionData = BotAPIMentionData(
    mentionType: MentionType, mentionId: Uuid, data: Option<NestedMentionData>)
  {
    /** Only a mention of everyone can do without data. */
    predicate Convertible()
    {
      mentionType == ALL || data.Some?
    }

    /** `_convert_bot_api_mention_to_domain`. */
    function ToDomain(): Mention
      requires Convertible()
    {
      match mentionType
      case USER => MentionUser(data.value.entityId, Some(data.value.name))
      case CHAT => MentionChat(data.value.entityId, Some(data.value.name))
      case CONTACT => MentionContact(data.value.entityId, Some(data.value.name))
      case CHANNEL => MentionChannel(data.value.entityId, Some(data.value.name))
      case ALL => MentionAll
    }
  }

  datatype APIChatType = APIChat | APINotes | APIGroupChat | APIChannel | APIThread | APIVoexCall
  {
    /** `convert_chat_type_to_domain`. */
    function ToDomain(): ChatType
    {
      match this
      case APIChat => PersonalChat
      case APINotes => PersonalChat
      case APIGroupChat => GroupChat
      case APIChannel => Channel
      case APIThread => Thread
      case APIVoexCall => GroupChat
    }
  }

  datatype ChatType = PersonalChat | GroupChat | Channel | Thread

  /** `insertedAt` is a point in time; it is only passed on. */
  datatype Forward = Forward(
    chatId: Uuid, authorId: Uuid, syncId: Uuid, chatName: string, forwardType: ChatType, insertedAt: int)

  datatype Reply = Reply(authorId: Uuid, syncId: Uuid, body: string, mentions: seq<Mention>)

  datatype Entity =
    | MentionEntity(data: BotAPIMentionData)
    | ForwardEntity(
        groupChatId: Uuid, senderHuid: Uuid, sourceSyncId: Uuid, sourceChatName: string, forwardType: APIChatType,
        sourceInsertedAt: int)
    | ReplyEntity(authorId: Uuid, syncId: Uuid, body: string, mentions: seq<BotAPIMentionData>)
  {
    predicate Convertible()
    {
      match this
      case MentionEntity(data) => data.Convertible()
      case ForwardEntity(_, _, _, _, _, _) => true
      case ReplyEntity(_, _, _, mentions) => AllConvertible(mentions)
    }
  }

  predicate AllConvertible(mentions: seq<BotAPIMentionData>)
  {
    forall m | m in mentions :: m.Convertible()
  }

  function MentionsToDomain(mentions: seq<BotAPIMentionData>): seq<Mention>
    requires AllConvertible(mentions)
  {
    seq(|mentions|, i requires 0 <= i < |mentions| => mentions[i].ToDomain())
  }

  /** The forward branch of `convert_bot_api_entity_to_domain`. */
  function ForwardToDomain(e: Entity): Forward
    requires e.ForwardEntity?
  {
    Forward(e.groupChatId, e.senderHuid, e.sourceSyncId, e.sourceChatName, e.forwardType.ToDomain(), e.sourceInsertedAt)
  }

  function ReplyToDomain(e: Entity): Reply
    requires e.ReplyEntity? && e.Convertible()
  {
    Reply(e.authorId, e.syncId, e.body, MentionsToDomain(e.mentions))
  }

  // ----- What a conversion keeps -----

  /** A mention of one entity that came without data. */
  predicate LacksData(d: BotAPIMentionData)
  {
    d.mentionType != ALL && d.data.None?
  }

  ghost predicate EntityLacksData(e: Entity)
  {
    match e
    case MentionEntity(d) => LacksData(d)
    case ForwardEntity(_, _, _, _, _, _) => false
    case ReplyEntity(_, _, _, mentions) => exists d | d in mentions :: LacksData(d)
  }

  /** The mention has the type of the data, and unless it is of everyone, the entity and the name. */
  ghost predicate IsMentionOf(m: Mention, d: BotAPIMentionData)
  {
    && m.Type() == d.mentionType
    && (d.mentionType != ALL ==>
          d.data.Some? && m.entityId == d.data.value.entityId && m.name == Some(d.data.value.name))
  }

  ghost predicate AreMentionsOf(ms: seq<Mention>, ds: seq<BotAPIMentionData>)
  {
    |ms| == |ds| && forall i | 0 <= i < |ms| :: IsMentionOf(ms[i], ds[i])
  }

  /** All fields of a forward; personal chats and notes are personal, calls belong to group chats. */
  ghost predicate IsForwardOf(f: Forward, e: Entity)
  {
    && e.ForwardEntity?
    && f.chatId == e.groupChatId && f.authorId == e.senderHuid && f.syncId == e.sourceSyncId
    && f.chatName == e.sourceChatName && f.insertedAt == e.sourceInsertedAt
    && (f.forwardType == PersonalChat <==> e.forwardType == APIChat || e.forwardType == APINotes)
    && (f.forwardType == GroupChat <==> e.forwardType == APIGroupChat || e.forwardType == APIVoexCall)
    && (f.forwardType == Channel <==> e.forwardType == APIChannel)
    && (f.forwardType == Thread <==> e.forwardType == APIThread)
  }

  ghost predicate IsReplyOf(r: Reply, e: Entity)
  {
    && e.ReplyEntity?
    && r.authorId == e.authorId && r.syncId == e.syncId && r.body == e.body
    && AreMentionsOf(r.mentions, e.mentions)
  }

  /** Each conversion is possible exactly without missing data, and keeps everything. */
  lemma {:induction false} ConversionKeeps(e: Entity)
    ensures e.Convertible() <==> !EntityLacksData(e)
    ensures e.MentionEntity? && e.Convertible() ==> IsMentionOf(e.data.ToDomain(), e.data)
    ensures e.ForwardEntity? ==> IsForwardOf(ForwardToDomain(e), e)
    ensures e.ReplyEntity? && e.Convertible() ==> IsReplyOf(ReplyToDomain(e), e)
  {
    if e.ReplyEntity? && e.Convertible() {
      forall i | 0 <= i < |e.mentions| ensures IsMentionOf(MentionsToDomain(e.mentions)[i], e.mentions[i]) {
        assert e.mentions[i] in e.mentions;
      }
    }
  }

  /** The reply branch of `convert_bot_api_entity_to_domain`. */
  method ConvertReply(e: Entity) returns (r: Result<Reply, IncomingError>)
    requires e.ReplyEntity?
    ensures r == if e.Convertible() then Success(ReplyToDomain(e)) else Failure(MissingMentionData)
    ensures if EntityLacksData(e) then r == Failure(MissingMentionData) else r.Success? && IsReplyOf(r.value, e)
  {
    ConversionKeeps(e);
    hide EntityLacksData, IsReplyOf;
    var mentions := [];
    for n := 0 to |e.mentions|
      invariant AllConvertible(e.mentions[..n]) && mentions == MentionsToDomain(e.mentions[..n])
    {
      assert e.mentions[n] in e.mentions;
      if !e.mentions[n].Convertible() {
        return Failure(MissingMentionData);
      }
      assert e.mentions[..n + 1] == e.mentions[..n] + [e.mentions[n]];
      mentions := mentions + [e.mentions[n].ToDomain()];
    }
    assert e.mentions[..|e.mentions|] == e.mentions;
    r := Success(Reply(e.authorId, e.syncId, e.body, mentions));
  }

  /** All known entities convert. */
  predicate EntitiesConvert<D(==)>(entities: seq<Parsed<Entity, D>>)
  {
    forall e | e in entities :: e.Known? ==> e.value.Convertible()
  }

  /** The mention an entity contributes, if it is one. */
  function MentionOf<D>(e: Parsed<Entity, D>): seq<Mention>
    requires e.Known? ==> e.value.Convertible()
  {
    if e.Known? && e.value.MentionEntity? then [e.value.data.ToDomain()] else []
  }

  /** The mentions among the entities, converted, in order. */
  function MentionsOf<D(==)>(entities: seq<Parsed<Entity, D>>): seq<Mention>
    requires EntitiesConvert(entities)
  {
    if entities == [] then
      []
    else
      assert entities[0] in entities;
      assert forall e | e in entities[1..] :: e in entities;
      MentionOf(entities[0]) + MentionsOf(entities[1..])
  }

  function LastForward<D>(entities: seq<Parsed<Entity, D>>): Option<Forward>
  {
    if entities == [] then None
    else
      var last := entities[|entities| - 1];
      if last.Known? && last.value.ForwardEntity? then Some(ForwardToDomain(last.value))
      else LastForward(entities[..|entities| - 1])
  }

  function LastReply<D(==)>(entities: seq<Parsed<Entity, D>>): Option<Reply>
    requires EntitiesConvert(entities)
  {
    if entities == [] then None
    else
      var last := entities[|entities| - 1];
      assert last in entities;
      assert forall e | e in entities[..|entities| - 1] :: e in entities;
      if last.Known? && last.value.ReplyEntity? then Some(ReplyToDomain(last.value))
      else LastReply(entities[..|entities| - 1])
  }

  datatype Collected = Collected(mentions: seq<Mention>, forward: Option<Forward>, reply: Option<Reply>)

  lemma {:induction false} MentionsConcat<D>(a: seq<Parsed<Entity, D>>, b: seq<Parsed<Entity, D>>)
    requires EntitiesConvert(a) && EntitiesConvert(b) && EntitiesConvert(a + b)
    ensures MentionsOf(a + b) == MentionsOf(a) + MentionsOf(b)
  {
    hide Entity.Convertible, MentionOf;
    if a == [] {
      assert a + b == b;
    } else {
      assert (a + b)[1..] == a[1..] + b;
      assert forall x | x in a[1..] :: x in a;
      assert forall x | x in a[1..] + b :: x in a + b;
      MentionsConcat(a[1..], b);
      assert (a + b)[0] == a[0];
      Regroup(MentionOf(a[0]), MentionsOf(a[1..]), MentionsOf(b));
    }
  }

  lemma {:induction false} MentionsAppend<D>(entities: seq<Parsed<Entity, D>>, e: Parsed<Entity, D>)
    requires EntitiesConvert(entities) && (e.Known? ==> e.value.Convertible())
    ensures EntitiesConvert(entities + [e])
    ensures MentionsOf(entities + [e]) == MentionsOf(entities) + MentionOf(e)
  {
    hide Entity.Convertible, MentionOf;
    assert [e][1..] == [];
    MentionsConcat(entities, [e]);
  }

  /**
   The entity loop of `to_domain`: mentions are gathered in order, a later forward or reply replaces an
   earlier one.
   */
  method CollectEntities<D(==)>(entities: seq<Parsed<Entity, D>>) returns (r: Result<Collected, IncomingError>)
    ensures r == if EntitiesConvert(entities)
                 then Success(Collected(MentionsOf(entities), LastForward(entities), LastReply(entities)))
                 else Failure(MissingMentionData)
  {
    var mentions: seq<Mention> := [];
    var forward: Option<Forward> := None;
    var reply: Option<Reply> := None;
    for n := 0 to |entities|
      invariant EntitiesConvert(entities[..n])
      invariant mentions == MentionsOf(entities[..n])
      invariant forward == LastForward(entities[..n])
      invariant reply == LastReply(entities[..n])
    {
      var entity := entities[n];
      assert entity in entities;
      assert entities[..n + 1] == entities[..n] + [entity];
      if entity.Known? {
        match entity.value {
          case MentionEntity(data) =>
            if !data.Convertible() {
              return Failure(MissingMentionData);
            }
            mentions := mentions + [data.ToDomain()];
          case ForwardEntity(_, _, _, _, _, _) =>
            forward := Some(ForwardToDomain(entity.value));
          case ReplyEntity(_, _, _, _) =>
            var converted := ConvertReply(entity.value);
            if converted.Failure? {
              return Failure(converted.error);
            }
            reply := Some(converted.value);
        }
      }
      MentionsAppend(entities[..n], entity);
      assert entities[..n + 1][..n] == entities[..n];
    }
    assert entities[..|entities|] == entities;
    r := Success(Collected(mentions, forward, reply));
  }

  lemma {:induction false} LastConcat<D>(a: seq<Parsed<Entity, D>>, b: seq<Parsed<Entity, D>>)
    requires EntitiesConvert(a) && EntitiesConvert(b) && EntitiesConvert(a + b)
    ensures LastForward(a + b) == if LastForward(b).Some? then LastForward(b) else LastForward(a)
    ensures LastReply(a + b) == if LastReply(b).Some? then LastReply(b) else LastReply(a)
    decreases |b|
  {
    if b == [] {
      assert a + b == a;
    } else {
      var front := b[..|b| - 1];
      assert (a + b)[..|a + b| - 1] == a + front;
      assert forall x | x in front :: x in b;
      assert forall x | x in a + front :: x in a + b;
      LastConcat(a, front);
    }
  }

  /** A dictionary that fits no entity changes nothing, wherever it stands. */
  lemma {:induction false} UnknownChangesNothing<D>(a: seq<Parsed<Entity, D>>, raw: D, b: seq<Parsed<Entity, D>>)
    ensures EntitiesConvert(a + [Unknown(raw)] + b) <==> EntitiesConvert(a + b)
    ensures EntitiesConvert(a + b) ==>
      && MentionsOf(a + [Unknown(raw)] + b) == MentionsOf(a + b)
      && LastForward(a + [Unknown(raw)] + b) == LastForward(a + b)
      && LastReply(a + [Unknown(raw)] + b) == LastReply(a + b)
  {
    var u: seq<Parsed<Entity, D>> := [Unknown(raw)];
    assert forall x | x in a + b :: x in a + u + b;
    assert forall x | x in a + u + b :: x in a + b || x == Unknown(raw);
    if EntitiesConvert(a + b) {
      assert forall x | x in a || x in b :: x in a + b;
      assert forall x | x in a + u :: x in a + u + b;
      assert u[1..] == [] && u[..0] == [];
      MentionsConcat(a, b); MentionsConcat(a + u, b); MentionsConcat(a, u);
      LastConcat(a, b); LastConcat(a + u, b); LastConcat(a, u);
      assert MentionsOf(a) + [] == MentionsOf(a);
    }
  }

  // ----- From the raw list to the message -----

  /** The data of the mentions among the dictionaries, in order. */
  function RawMentionData<D>(raws: seq<D>, validate: D -> Option<Entity>): seq<BotAPIMentionData>
  {
    if raws == [] then
      []
    else
      (match validate(raws[0]) case Some(MentionEntity(d)) => [d] case _ => [])
      + RawMentionData(raws[1..], validate)
  }

  ghost predicate SomeLackData<D>(raws: seq<D>, validate: D -> Option<Entity>)
  {
    exists i | 0 <= i < |raws| :: validate(raws[i]).Some? && EntityLacksData(validate(raws[i]).value)
  }

  predicate FitsForward<D>(raw: D, validate: D -> Option<Entity>)
  {
    validate(raw).Some? && validate(raw).value.ForwardEntity?
  }

  predicate FitsReply<D>(raw: D, validate: D -> Option<Entity>)
  {
    validate(raw).Some? && validate(raw).value.ReplyEntity?
  }

  /** The forward of the last dictionary that fits one, if any does. */
  ghost predicate IsLastForward<D>(raws: seq<D>, validate: D -> Option<Entity>, found: Option<Forward>)
  {
    match found
    case None => forall i | 0 <= i < |raws| :: !FitsForward(raws[i], validate)
    case Some(f) =>
      exists i | 0 <= i < |raws| ::
        && FitsForward(raws[i], validate) && IsForwardOf(f, validate(raws[i]).value)
        && forall j | i < j < |raws| :: !FitsForward(raws[j], validate)
  }

  /** The reply of the last dictionary that fits one, if any does. */
  ghost predicate IsLastReply<D>(raws: seq<D>, validate: D -> Option<Entity>, found: Option<Reply>)
  {
    match found
    case None => forall i | 0 <= i < |raws| :: !FitsReply(raws[i], validate)
    case Some(r) =>
      exists i | 0 <= i < |raws| ::
        && FitsReply(raws[i], validate) && IsReplyOf(r, validate(raws[i]).value)
        && forall j | i < j < |raws| :: !FitsReply(raws[j], validate)
  }

  ghost predicate AreValidated<D>(parsed: seq<Parsed<Entity, D>>, raws: seq<D>, validate: D -> Option<Entity>)
  {
    |parsed| == |raws| && forall i | 0 <= i < |raws| :: parsed[i] == Validated(raws[i], validate)
  }

  lemma {:induction false} ValidatedConvert<D>(
    parsed: seq<Parsed<Entity, D>>, raws: seq<D>, validate: D -> Option<Entity>)
    requires AreValidated(parsed, raws, validate)
    ensures EntitiesConvert(parsed) <==> !SomeLackData(raws, validate)
  {
    hide Entity.Convertible, EntityLacksData;
    forall e: Entity ensures e.Convertible() <==> !EntityLacksData(e) {
      ConversionKeeps(e);
    }
    if SomeLackData(raws, validate) {
      var i :| 0 <= i < |raws| && validate(raws[i]).Some? && EntityLacksData(validate(raws[i]).value);
      assert parsed[i] in parsed && !parsed[i].value.Convertible();
    }
    forall e | !SomeLackData(raws, validate) && e in parsed ensures e.Known? ==> e.value.Convertible() {
      var i :| 0 <= i < |parsed| && parsed[i] == e;
      assert parsed[i] == Validated(raws[i], validate);
    }
  }

  lemma {:induction false} ValidatedMentions<D>(
    parsed: seq<Parsed<Entity, D>>, raws: seq<D>, validate: D -> Option<Entity>)
    requires AreValidated(parsed, raws, validate) && EntitiesConvert(parsed)
    ensures AreMentionsOf(MentionsOf(parsed), RawMentionData(raws, validate))
  {
    hide Entity.Convertible, BotAPIMentionData.ToDomain, IsMentionOf;
    if raws == [] {
    } else {
      assert parsed[0] in parsed;
      assert forall e | e in parsed[1..] :: e in parsed;
      ValidatedMentions(parsed[1..], raws[1..], validate);
      if parsed[0].Known? {
        ConversionKeeps(parsed[0].value);
      }
    }
  }

  lemma {:induction false} ValidatedForward<D>(
    parsed: seq<Parsed<Entity, D>>, raws: seq<D>, validate: D -> Option<Entity>)
    requires AreValidated(parsed, raws, validate)
    ensures IsLastForward(raws, validate, LastForward(parsed))
  {
    hide ForwardToDomain, IsForwardOf;
    if raws == [] {
    } else {
      var n := |raws| - 1;
      ValidatedForward(parsed[..n], raws[..n], validate);
      assert forall i | 0 <= i < n :: raws[..n][i] == raws[i];
      assert parsed[n] == Validated(raws[n], validate);
      if parsed[n].Known? {
        ConversionKeeps(parsed[n].value);
      }
    }
  }

  lemma {:induction false} ValidatedReply<D>(
    parsed: seq<Parsed<Entity, D>>, raws: seq<D>, validate: D -> Option<Entity>)
    requires AreValidated(parsed, raws, validate) && EntitiesConvert(parsed)
    ensures IsLastReply(raws, validate, LastReply(parsed))
  {
    hide Entity.Convertible, ReplyToDomain, IsReplyOf, EntityLacksData;
    if raws == [] {
    } else {
      var n := |raws| - 1;
      assert parsed[n] in parsed;
      assert forall e | e in parsed[..n] :: e in parsed;
      ValidatedReply(parsed[..n], raws[..n], validate);
      assert forall i | 0 <= i < n :: raws[..n][i] == raws[i];
      assert parsed[n] == Validated(raws[n], validate);
      if parsed[n].Known? {
        ConversionKeeps(parsed[n].value);
      }
    }
  }

  /**
   The entities of a request, from the raw list to the message: the dictionaries that fit a mention in
   order, the last that fits a forward, the last that fits a reply, each with all its fields; it fails
   exactly if a dictionary fits a mention or reply that lacks data.
   */
  method EntitiesOfRequest<D(==)>(items: seq<Item<D>>, validate: D -> Option<Entity>)
    returns (r: Result<Collected, IncomingError>)
    ensures if SomeLackData(Dicts(items), validate) then r == Failure(MissingMentionData) else r.Success?
    ensures r.Success? ==>
      && AreMentionsOf(r.value.mentions, RawMentionData(Dicts(items), validate))
      && IsLastForward(Dicts(items), validate, r.value.forward)
      && IsLastReply(Dicts(items), validate, r.value.reply)
  {
    hide Entity.Convertible, MentionsOf, RawMentionData, LastForward, LastReply, IsLastForward, IsLastReply;
    hide SomeLackData, AreMentionsOf;
    var parsed := ValidateItems(items, validate);
    r := CollectEntities(parsed);
    ValidatedConvert(parsed, Dicts(items), validate);
    ValidatedForward(parsed, Dicts(items), validate);
    if r.Success? {
      ValidatedMentions(parsed, Dicts(items), validate);
      ValidatedReply(parsed, Dicts(items), validate);
    }
  }

  // ----- The attachment -----

  datatype Attachment =
    | ImageAttachment(content: string, fileName: string)
    | VideoAttachment(content: string, fileName: string, duration: int)
    | DocumentAttachment(content: string, fileName: string)
    | VoiceAttachment(content: string, duration: int)
    | LocationAttachment(name: string, address: string, latitude: string, longitude: string)
    | ContactAttachment(name: string)
    | LinkAttachment(url: string, title: string, preview: string, text: string)
    | StickerAttachment(id: Uuid, link: string, pack: Uuid)

  datatype IncomingFile = IncomingFile(filename: string, size: nat, content: seq<Byte>, duration: Option<int>)

  datatype Location = Location(name: string, address: string, latitude: string, longitude: string)

  datatype Contact = Contact(name: string)

  datatype Link = Link(url: string, title: string, preview: string, text: string)

  datatype Sticker = Sticker(id: Uuid, imageLink: string, packId: Uuid, emoji: string)

  datatype Slots = Slots(
    file: Option<IncomingFile>, location: Option<Location>, contact: Option<Contact>, link: Option<Link>,
    sticker: Option<Sticker>)
  {
    function Filled(): nat
    {
      (if file.Some? then 1 else 0) + (if location.Some? then 1 else 0) + (if contact.Some? then 1 else 0)
      + (if link.Some? then 1 else 0) + (if sticker.Some? then 1 else 0)
    }
  }

  const NO_SLOTS := Slots(None, None, None, None, None)

  function FileSlot(filename: string, encoded: string, duration: Option<int>): Result<Slots, IncomingError>
  {
    match Attachments.DecodeRfc2397(encoded)
    case Failure(e) => Failure(BadContent(e))
    case Success(content) => Success(NO_SLOTS.(file := Some(IncomingFile(filename, |content|, content, duration))))
  }

  /**
   The attachment part of `to_domain`: only the first attachment counts, and a sticker takes its emoji
   from the body.
   */
  function AttachmentSlots<D>(attachments: seq<Parsed<Attachment, D>>, body: string): Result<Slots, IncomingError>
  {
    if attachments == [] || attachments[0].Unknown? then
      Success(NO_SLOTS)
    else
      match attachments[0].value
      case ImageAttachment(content, name) => FileSlot(name, content, None)
      case VideoAttachment(content, name, duration) => FileSlot(name, content, Some(duration))
      case DocumentAttachment(content, name) => FileSlot(name, content, None)
      case VoiceAttachment(content, duration) =>
        (match Attachments.DecodeRfc2397(content)
         case Failure(e) => Failure(BadContent(e))
         case Success(_) =>
           match Attachments.ExtensionOfEncoded(content)
           case Failure(e) => Failure(BadContent(e))
           case Success(extension) => FileSlot("record." + extension, content, Some(duration)))
      case LocationAttachment(name, address, latitude, longitude) =>
        Success(NO_SLOTS.(location := Some(Location(name, address, latitude, longitude))))
      case ContactAttachment(name) => Success(NO_SLOTS.(contact := Some(Contact(name))))
      case LinkAttachment(url, title, preview, text) =>
        Success(NO_SLOTS.(link := Some(Link(url, title, preview, text))))
      case StickerAttachment(id, link, pack) => Success(NO_SLOTS.(sticker := Some(Sticker(id, link, pack, body))))
  }

  /** At most one slot is filled, and one is exactly if the first attachment was recognised. */
  lemma {:induction false} OneSlotPerAttachment<D>(attachments: seq<Parsed<Attachment, D>>, body: string)
    requires AttachmentSlots(attachments, body).Success?
    ensures AttachmentSlots(attachments, body).value.Filled()
         == if attachments != [] && attachments[0].Known? then 1 else 0
  {
  }

  ghost predicate IsFile(slots: Slots, filename: string, content: seq<Byte>, duration: Option<int>)
  {
    && slots.Filled() == 1 && slots.file.Some?
    && slots.file.value.filename == filename && slots.file.value.duration == duration
    && slots.file.value.content == content && slots.file.value.size == |content|
  }

  /** What the first attachment arrives as, kind by kind and field by field. */
  lemma {:induction false} AttachmentArrives<D>(a: Attachment, more: seq<Parsed<Attachment, D>>, body: string)
    requires AttachmentSlots([Known(a)] + more, body).Success?
    ensures var slots := AttachmentSlots([Known(a)] + more, body).value;
      match a
      case ImageAttachment(data, name) =>
        Attachments.DecodeRfc2397(data).Success? && IsFile(slots, name, Attachments.DecodeRfc2397(data).value, None)
      case VideoAttachment(data, name, duration) =>
        && Attachments.DecodeRfc2397(data).Success?
        && IsFile(slots, name, Attachments.DecodeRfc2397(data).value, Some(duration))
      case DocumentAttachment(data, name) =>
        Attachments.DecodeRfc2397(data).Success? && IsFile(slots, name, Attachments.DecodeRfc2397(data).value, None)
      case VoiceAttachment(data, duration) =>
        && Attachments.DecodeRfc2397(data).Success? && Attachments.ExtensionOfEncoded(data).Success?
        && IsFile(slots, "record." + Attachments.ExtensionOfEncoded(data).value,
                  Attachments.DecodeRfc2397(data).value, Some(duration))
      case LocationAttachment(name, address, latitude, longitude) =>
        && slots.Filled() == 1 && slots.location.Some?
        && slots.location.value.name == name && slots.location.value.address == address
        && slots.location.value.latitude == latitude && slots.location.value.longitude == longitude
      case ContactAttachment(name) =>
        slots.Filled() == 1 && slots.contact.Some? && slots.contact.value.name == name
      case LinkAttachment(url, title, preview, text) =>
        && slots.Filled() == 1 && slots.link.Some?
        && slots.link.value.url == url && slots.link.value.title == title
        && slots.link.value.preview == preview && slots.link.value.text == text
      case StickerAttachment(id, link, pack) =>
        && slots.Filled() == 1 && slots.sticker.Some?
        && slots.sticker.value.id == id && slots.sticker.value.imageLink == link
        && slots.sticker.value.packId == pack && slots.sticker.value.emoji == body
  {
    hide Attachments.DecodeRfc2397, Attachments.ExtensionOfEncoded;
  }

  /** Without a first attachment, or with one that fits no model, no slot is filled. */
  lemma {:induction false} NothingArrives<D>(attachments: seq<Parsed<Attachment, D>>, body: string)
    requires attachments == [] || attachments[0].Unknown?
    ensures AttachmentSlots(attachments, body).Success? && AttachmentSlots(attachments, body).value.Filled() == 0
  {
  }

  /**
   The attachment part fails exactly on a file whose data cannot be decoded, or on a voice message whose
   data has no slash in front of its first semicolon: a voice message without data fails, while any
   other file without data arrives empty.
   */
  lemma {:induction false} AttachmentFails<D>(attachments: seq<Parsed<Attachment, D>>, body: string)
    ensures AttachmentSlots(attachments, body).Failure? <==>
      && attachments != [] && attachments[0].Known?
      && match attachments[0].value
         case ImageAttachment(content, _) => Attachments.Unreadable(content)
         case VideoAttachment(content, _, _) => Attachments.Unreadable(content)
         case DocumentAttachment(content, _) => Attachments.Unreadable(content)
         case VoiceAttachment(content, _) =>
           Attachments.Unreadable(content) || '/' !in Attachments.Before(content, ";")
         case _ => false
  {
    hide Attachments.DecodeRfc2397, Attachments.ExtensionOfEncoded, Attachments.Unreadable, Attachments.Before;
    if attachments != [] && attachments[0].Known? {
      match attachments[0].value {
        case ImageAttachment(content, _) => Attachments.DecodeFails(content);
        case VideoAttachment(content, _, _) => Attachments.DecodeFails(content);
        case DocumentAttachment(content, _) => Attachments.DecodeFails(content);
        case VoiceAttachment(content, _) =>
          Attachments.DecodeFails(content);
          Attachments.ExtensionFails(content);
        case _ =>
      }
    }
  }

  /**
   A file sent the way this library encodes it arrives with its bytes and its size; a voice message is
   named after the type of its data.
   */
  lemma {:induction false} EncodedFilesArrive<D>(
    name: string, content: seq<Byte>, lower: string -> string, duration: int, more: seq<Parsed<Attachment, D>>,
    body: string)
    ensures
      var data := Attachments.FromFileAttachment(name, content, lower).data;
      var subtype := Attachments.MimetypeByFilename(name, lower).subtype;
      && AttachmentSlots([Known(DocumentAttachment(data, name))] + more, body)
         == Success(NO_SLOTS.(file := Some(IncomingFile(name, |content|, content, None))))
      && AttachmentSlots([Known(VoiceAttachment(data, duration))] + more, body)
         == Success(NO_SLOTS.(file := Some(IncomingFile("record." + subtype, |content|, content, Some(duration)))))
  {
    hide Attachments.FromFileAttachment, Attachments.DecodeRfc2397, Attachments.ExtensionOfEncoded;
    hide Attachments.MimetypeByFilename;
    Attachments.AttachmentRoundTrip(name, content, lower);
    Attachments.AttachmentExtension(name, content, lower);
  }

  // ----- Both parts -----

  /** The parts of an incoming message that are collected from its items. */
  datatype MessageParts = MessageParts(slots: Slots, collected: Collected)

  /** The first dictionary of the raw attachments, validated; the others are never looked at. */
  function FirstAttachment<D>(raws: seq<D>, validate: D -> Option<Attachment>): seq<Parsed<Attachment, D>>
  {
    if raws == [] then [] else [Validated(raws[0], validate)]
  }

  /**
   `to_domain`, from the raw lists of a request to the parts of the message. The attachment is converted
   before the entities: the call fails exactly if one of the two parts does, and with the error of the
   attachment if both do.
   */
  method ToDomain<D(==)>(
    attachments: seq<Item<D>>, validateAttachment: D -> Option<Attachment>,
    entities: seq<Item<D>>, validateEntity: D -> Option<Entity>, body: string)
    returns (r: Result<MessageParts, IncomingError>)
    ensures
      var slots := AttachmentSlots(FirstAttachment(Dicts(attachments), validateAttachment), body);
      && (r.Success? <==> slots.Success? && !SomeLackData(Dicts(entities), validateEntity))
      && (r.Failure? ==> r.error == if slots.Failure? then slots.error else MissingMentionData)
      && (r.Success? ==>
            && r.value.slots == slots.value
            && AreMentionsOf(r.value.collected.mentions, RawMentionData(Dicts(entities), validateEntity))
            && IsLastForward(Dicts(entities), validateEntity, r.value.collected.forward)
            && IsLastReply(Dicts(entities), validateEntity, r.value.collected.reply))
  {
    hide FileSlot, Attachments.DecodeRfc2397, Attachments.ExtensionOfEncoded, Dicts;
    hide SomeLackData, RawMentionData, AreMentionsOf, IsLastForward, IsLastReply;
    var parsed := ValidateItems(attachments, validateAttachment);
    var slots := AttachmentSlots(parsed, body);
    if slots.Failure? {
      return Failure(slots.error);
    }
    var collected := EntitiesOfRequest(entities, validateEntity);
    if collected.Failure? {
      return Failure(collected.error);
    }
    r := Success(MessageParts(slots.value, collected.value));
  }
}
