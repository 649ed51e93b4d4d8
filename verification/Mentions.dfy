/** Mentions in the domain and on the wire: printing a tag, converting a match, printing a token. */
module Mentions {
  import opened Results
  import opened LazyRegex
  import opened Sequences
  import opened Uuids
  import opened EmbedPattern

  datatype MentionType = CONTACT | CHAT | CHANNEL | USER | ALL
  {
    function Value(): (r: string)
      ensures 3 <= |r| <= 7 && r != "" && AllIn(NotNewline, r) && ':' !in r
    {
      match this
      case CONTACT => "CONTACT"
      case CHAT => "CHAT"
      case CHANNEL => "CHANNEL"
      case USER => "USER"
      case ALL => "ALL"
    }
  }

  /** `MentionTypes(value)`. */
  function TypeOfValue(value: string): (r: Option<MentionType>)
    ensures forall t: MentionType :: r == Some(t) <==> t.Value() == value
  {
    if value == "CONTACT" then Some(CONTACT)
    else if value == "CHAT" then Some(CHAT)
    else if value == "CHANNEL" then Some(CHANNEL)
    else if value == "USER" then Some(USER)
    else if value == "ALL" then Some(ALL)
    else None
  }

  datatype Mention =
    | MentionUser(entityId: Uuid, name: Option<string>)
    | MentionContact(entityId: Uuid, name: Option<string>)
    | MentionChat(entityId: Uuid, name: Option<string>)
    | MentionChannel(entityId: Uuid, name: Option<string>)
    | MentionAll
  {
    function Type(): MentionType
    {
      match this
      case MentionUser(_, _) => USER
      case MentionContact(_, _) => CONTACT
      case MentionChat(_, _) => CHAT
      case MentionChannel(_, _) => CHANNEL
      case MentionAll => ALL
    }

    /** The name as it is printed: no name and the empty name look the same. */
    function PrintedName(): string
    {
      if MentionAll? || name.None? then "" else name.value
    }

    /** `str(mention)`. */
    function Print(): string
    {
      if MentionAll? then
        BuildEmbedMention(Type(), None, None)
      else
        BuildEmbedMention(Type(), Some(entityId), name)
    }

    /** The groups one would like to read back from the printed tag. */
    function Groups(): EmbedMatch
    {
      EmbedMatch(Type().Value(), if MentionAll? then "" else Str(entityId), PrintedName())
    }
  }

  function BuildEmbedMention(mentionType: MentionType, entityId: Option<Uuid>, name: Option<string>): string
  {
    var nameStr := if name.Some? then name.value else "";
    var entityIdStr := if entityId.None? then "" else Str(entityId.value);
    "<embed_mention>" + mentionType.Value() + ":" + entityIdStr + ":" + nameStr + "</embed_mention>"
  }

  lemma {:induction false} PrintIsTag(m: Mention)
    ensures m.Print() == m.Groups().Text()
  {
    hide Str;
    var g := m.Groups();
    SeparatedAsTag("<embed_mention>", g.mentionType, ":", g.entityId, ":", g.name, "</embed_mention>");
  }

  /** What a printed mention looks like, kind by kind; no name and the empty name print the same. */
  lemma {:induction false} PrintedText(m: Mention)
    ensures match m
      case MentionUser(id, _) =>
        m.Print() == "<embed_mention>" + "USER" + ":" + Str(id) + ":" + m.PrintedName() + "</embed_mention>"
      case MentionContact(id, _) =>
        m.Print() == "<embed_mention>" + "CONTACT" + ":" + Str(id) + ":" + m.PrintedName() + "</embed_mention>"
      case MentionChat(id, _) =>
        m.Print() == "<embed_mention>" + "CHAT" + ":" + Str(id) + ":" + m.PrintedName() + "</embed_mention>"
      case MentionChannel(id, _) =>
        m.Print() == "<embed_mention>" + "CHANNEL" + ":" + Str(id) + ":" + m.PrintedName() + "</embed_mention>"
      case MentionAll =>
        m.Print() == "<embed_mention>" + "ALL" + ":" + "" + ":" + "" + "</embed_mention>"
    ensures m.PrintedName() == if m.MentionAll? || m.name.None? then "" else m.name.value
  {
    hide Str;
  }

  lemma {:induction false} SeparatedAsTag(
    open: string, mentionType: string, colon: string, entityId: string, colon': string, name: string, close: string)
    ensures open + mentionType + colon + entityId + colon' + name + close
         == open + (mentionType + (colon + (entityId + (colon' + (name + close)))))
  {
    RegroupFour(open + mentionType + colon, entityId, colon', name + close);
    Regroup(open + mentionType + colon + entityId + colon', name, close);
    Regroup(open + mentionType + colon + entityId, colon', name + close);
    RegroupFour(open, mentionType, colon, entityId + (colon' + (name + close)));
  }

  /** The mention objects of a request; `mentionId` is what `uuid4()` returned. */
  datatype BotXAPIMention =
    | BotXAPIUserMention(mentionId: Uuid, userHuid: Uuid, name: Missing<string>)
    | BotXAPIContactMention(mentionId: Uuid, userHuid: Uuid, name: Missing<string>)
    | BotXAPIChatMention(mentionId: Uuid, groupChatId: Uuid, name: Missing<string>)
    | BotXAPIChannelMention(mentionId: Uuid, groupChatId: Uuid, name: Missing<string>)
    | BotXAPIAllMention(mentionId: Uuid)
  {
    /** What the token of this kind of mention starts with. */
    function Sign(): string
    {
      match this
      case BotXAPIUserMention(_, _, _) => "@"
      case BotXAPIContactMention(_, _, _) => "@@"
      case BotXAPIChatMention(_, _, _) => "##"
      case BotXAPIChannelMention(_, _, _) => "##"
      case BotXAPIAllMention(_) => "@"
    }

    /** `to_botx_embed_mention_format()`. */
    function Token(): string
    {
      Sign() + "{mention:" + Str(mentionId) + "}"
    }
  }

  datatype MentionError = UnknownMentionType | MalformedEntityId

  /** `build_botx_api_embed_mention`; the entity id of an ALL tag is not looked at. */
  function BuildBotXAPIEmbedMention(groups: EmbedMatch, mentionId: Uuid): Result<BotXAPIMention, MentionError>
  {
    match TypeOfValue(groups.mentionType)
    case None => Failure(UnknownMentionType)
    case Some(ALL) => Success(BotXAPIAllMention(mentionId))
    case Some(mentionType) =>
      var name := if groups.name == "" then Undefined else Given(groups.name);
      match Parse(groups.entityId)
      case None => Failure(MalformedEntityId)
      case Some(entityId) =>
        match mentionType
        case USER => Success(BotXAPIUserMention(mentionId, entityId, name))
        case CONTACT => Success(BotXAPIContactMention(mentionId, entityId, name))
        case CHAT => Success(BotXAPIChatMention(mentionId, entityId, name))
        case CHANNEL => Success(BotXAPIChannelMention(mentionId, entityId, name))
  }

  /**
   What a tag converts to: a tag of type ALL always, to a mention of everyone, whatever stands in it; a
   tag of one of the other four types exactly if its entity id is one, to a mention of that entity, with
   the name if there is one; no other tag.
   */
  lemma {:induction false} ConversionOfTag(g: EmbedMatch, mentionId: Uuid)
    ensures var r := BuildBotXAPIEmbedMention(g, mentionId);
      if g.mentionType == "ALL" then
        r == Success(BotXAPIAllMention(mentionId))
      else if g.mentionType !in ["USER", "CONTACT", "CHAT", "CHANNEL"] then
        r == Failure(UnknownMentionType)
      else if Parse(g.entityId).None? then
        r == Failure(MalformedEntityId)
      else
        && r.Success? && r.value.mentionId == mentionId
        && (g.mentionType == "USER" <==> r.value.BotXAPIUserMention?)
        && (g.mentionType == "CONTACT" <==> r.value.BotXAPIContactMention?)
        && (g.mentionType == "CHAT" <==> r.value.BotXAPIChatMention?)
        && (g.mentionType == "CHANNEL" <==> r.value.BotXAPIChannelMention?)
        && (g.mentionType in ["USER", "CONTACT"] ==> Parse(g.entityId) == Some(r.value.userHuid))
        && (g.mentionType in ["CHAT", "CHANNEL"] ==> Parse(g.entityId) == Some(r.value.groupChatId))
        && (g.name == "" <==> r.value.name == Undefined)
        && (g.name != "" <==> r.value.name == Given(g.name))
  {
    hide Parse;
  }

  /** The request object a domain mention stands for. */
  function ToApi(m: Mention, mentionId: Uuid): BotXAPIMention
  {
    var name := if m.PrintedName() == "" then Undefined else Given(m.PrintedName());
    match m
    case MentionUser(id, _) => BotXAPIUserMention(mentionId, id, name)
    case MentionContact(id, _) => BotXAPIContactMention(mentionId, id, name)
    case MentionChat(id, _) => BotXAPIChatMention(mentionId, id, name)
    case MentionChannel(id, _) => BotXAPIChannelMention(mentionId, id, name)
    case MentionAll => BotXAPIAllMention(mentionId)
  }

  /** Reading the printed groups back gives the same kind, the same id and the same name. */
  lemma {:induction false} ConvertPrintedGroups(m: Mention, mentionId: Uuid)
    ensures BuildBotXAPIEmbedMention(m.Groups(), mentionId) == Success(ToApi(m, mentionId))
  {
    assert TypeOfValue(m.Groups().mentionType) == Some(m.Type());
    if !m.MentionAll? {
      ParseStr(m.entityId);
    }
  }

  /**
   What the rewriter needs of a token: it opens with a character no opening tag continues with, closes
   with one no opening tag holds, and opens no tag itself.
   */
  ghost predicate IsToken(s: string)
  {
    s != "" && s[0] !in OPEN_TAG && s[|s| - 1] !in OPEN_TAG && '<' !in s
  }

  lemma {:induction false} SignedText(sign: string, id: Uuid)
    requires sign == "@" || sign == "@@" || sign == "##"
    ensures var text := sign + "{mention:" + Str(id) + "}";
      IsToken(text) && |text| == |sign| + 46
  {
    hide Str;
    var digits := Str(id);
    assert '<' !in digits;
  }

  lemma {:induction false} TokenShape(m: BotXAPIMention)
    ensures IsToken(m.Token())
    ensures |m.Token()| == if m.BotXAPIUserMention? || m.BotXAPIAllMention? then 47 else 48
  {
    hide IsToken, Str;
    SignedText(m.Sign(), m.mentionId);
  }

  /** The text of the token that replaces a tag of this type. */
  function TokenText(mentionType: string, mentionId: Uuid): string
  {
    (if mentionType == "CONTACT" then "@@{mention:"
     else if mentionType == "CHAT" || mentionType == "CHANNEL" then "##{mention:"
     else "@{mention:")
    + Str(mentionId) + "}"
  }

  /** Two signs for a contact, a chat and a channel, one for a user and for everyone. */
  lemma {:induction false} TokenOfTag(g: EmbedMatch, mentionId: Uuid, m: BotXAPIMention)
    requires BuildBotXAPIEmbedMention(g, mentionId) == Success(m)
    ensures m.Token() == TokenText(g.mentionType, mentionId)
  {
    ConversionOfTag(g, mentionId);
    TokenByKind(m);
    hide Str, Parse, BuildBotXAPIEmbedMention, BotXAPIMention.Token;
  }

  /** The text of a token, kind by kind. */
  lemma {:induction false} TokenByKind(m: BotXAPIMention)
    ensures match m
      case BotXAPIUserMention(id, _, _) => m.Token() == "@{mention:" + Str(id) + "}"
      case BotXAPIContactMention(id, _, _) => m.Token() == "@@{mention:" + Str(id) + "}"
      case BotXAPIChatMention(id, _, _) => m.Token() == "##{mention:" + Str(id) + "}"
      case BotXAPIChannelMention(id, _, _) => m.Token() == "##{mention:" + Str(id) + "}"
      case BotXAPIAllMention(id) => m.Token() == "@{mention:" + Str(id) + "}"
  {
    hide Str;
  }

  /**
   Tokens are the same exactly if the identifiers are and the kinds are written alike: a token tells
   which mention it stands for.
   */
  lemma {:induction false} SameToken(m: BotXAPIMention, n: BotXAPIMention)
    ensures m.Token() == n.Token() <==> m.mentionId == n.mentionId && m.Sign() == n.Sign()
  {
    hide Str;
    var a, b := Str(m.mentionId), Str(n.mentionId);
    if m.Token() == n.Token() {
      assert |m.Token()| == |m.Sign()| + 46 && |n.Token()| == |n.Sign()| + 46;
      assert m.Sign()[0] == m.Token()[0] == n.Token()[0] == n.Sign()[0];
      assert m.Sign() == n.Sign();
      var at := |m.Sign()| + 9;
      assert a == m.Token()[at..at + 36] == n.Token()[at..at + 36] == b;
      ParseStr(m.mentionId);
      ParseStr(n.mentionId);
    }
  }
}
