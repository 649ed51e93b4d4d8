/**
 The requests that send a direct notification and edit a message, from their arguments to what goes
 over the wire.
 */
module MessagePayloads {
  import opened Results
  import opened Base64
  import opened Uuids
  import opened Mentions
  import opened MentionRewriter
  import opened PayloadTree
  import opened PayloadFields
  import Attachments
  import opened EmbedPattern
  import Markup
  import MarkupPayload
  import MentionLengths
  import MentionTheorems
  import PayloadLeaves

  datatype File = File(filename: string, content: seq<Byte>)

  datatype PayloadError = BodyTooLong | BadMention(error: MentionError)

  // ----- Parts -----

  /** `convert_mention_type_from_domain`, as text. */
  function MentionTypeText(m: BotXAPIMention): string
  {
    match m
    case BotXAPIUserMention(_, _, _) => "user"
    case BotXAPIContactMention(_, _, _) => "contact"
    case BotXAPIChatMention(_, _, _) => "chat"
    case BotXAPIChannelMention(_, _, _) => "channel"
    case BotXAPIAllMention(_) => "all"
  }

  function MentionTree(m: BotXAPIMention): Tree
  {
    Dict([Entry("mention_type", Chars(MentionTypeText(m))), Entry("mention_id", Chars(Str(m.mentionId)))]
         + match m
           case BotXAPIUserMention(_, id, name) => [Entry("mention_data", MentionData("user_huid", id, name))]
           case BotXAPIContactMention(_, id, name) => [Entry("mention_data", MentionData("user_huid", id, name))]
           case BotXAPIChatMention(_, id, name) => [Entry("mention_data", MentionData("group_chat_id", id, name))]
           case BotXAPIChannelMention(_, id, name) => [Entry("mention_data", MentionData("group_chat_id", id, name))]
           case BotXAPIAllMention(_) => [])
  }

  function MentionData(idKey: string, id: Uuid, name: Missing<string>): Tree
  {
    Dict([Entry(idKey, Chars(Str(id))), Entry("name", TextField(name))])
  }

  function MentionTrees(mentions: seq<BotXAPIMention>): (r: seq<Tree>)
    ensures |r| == |mentions|
  {
    seq(|mentions|, i requires 0 <= i < |mentions| => MentionTree(mentions[i]))
  }

  function FileTree(file: File, lower: string -> string): Tree
  {
    var attachment := Attachments.FromFileAttachment(file.filename, file.content, lower);
    Dict([Entry("file_name", Chars(attachment.fileName)), Entry("data", Chars(attachment.data))])
  }

  function FileField(file: Missing<File>, lower: string -> string): Tree
  {
    if file.Undefined? then Absent else FileTree(file.value, lower)
  }

  function GridField(grid: Missing<Markup.Grid>): Tree
  {
    if grid.Undefined? then Absent else MarkupPayload.MarkupTree(grid.value)
  }

  function MetadataField(metadata: Missing<seq<Entry>>): Tree
  {
    if metadata.Undefined? then Absent else Dict(metadata.value)
  }

  function IdTrees(ids: seq<Uuid>): (r: seq<Tree>)
    ensures |r| == |ids|
  {
    seq(|ids|, i requires 0 <= i < |ids| => Chars(Str(ids[i])))
  }

  function RecipientsField(recipients: Missing<seq<Uuid>>): Tree
  {
    if recipients.Undefined? then Absent else List(IdTrees(recipients.value))
  }

  lemma {:induction false} MentionsStay(mentions: seq<BotXAPIMention>)
    ensures HasLeaf(List(MentionTrees(mentions)))
    ensures var sent := Prune(List(MentionTrees(mentions)));
      && sent.List? && |sent.items| == |mentions|
      && forall i | 0 <= i < |mentions| :: sent.items[i] == Prune(MentionTree(mentions[i]))
  {
    var trees := MentionTrees(mentions);
    hide MentionTree, Prune;
    forall x | x in trees ensures HasLeaf(x) {
      var i :| 0 <= i < |trees| && trees[i] == x;
      MentionHasLeaf(mentions[i]);
    }
    if trees != [] {
      assert trees[0] in trees;
    }
    AllItemsStay(trees);
    PruneOfList(trees);
  }

  lemma {:induction false} MentionHasLeaf(m: BotXAPIMention)
    ensures HasLeaf(MentionTree(m))
  {
    assert HasLeaf(MentionTree(m).entries[0].value);
  }

  lemma {:induction false} PruneOfList(items: seq<Tree>)
    ensures Prune(List(items)) == List(PruneItems(items))
  {
  }

  /** A mention object tells its kind and its id, a targeted one also whom it addresses, by name if there is one. */
  lemma {:induction false} SentMention(m: BotXAPIMention)
    ensures var sent := Prune(MentionTree(m));
      && Field(sent, "mention_type") == (match m
                                         case BotXAPIUserMention(_, _, _) => Some(Chars("user"))
                                         case BotXAPIContactMention(_, _, _) => Some(Chars("contact"))
                                         case BotXAPIChatMention(_, _, _) => Some(Chars("chat"))
                                         case BotXAPIChannelMention(_, _, _) => Some(Chars("channel"))
                                         case BotXAPIAllMention(_) => Some(Chars("all")))
      && Field(sent, "mention_id") == Some(Chars(Str(m.mentionId)))
      && (m.BotXAPIAllMention? ==> Field(sent, "mention_data") == None)
      && (!m.BotXAPIAllMention? ==> Field(sent, "mention_data").Some?)
      && (m.BotXAPIUserMention? || m.BotXAPIContactMention? ==>
            Field(Field(sent, "mention_data").value, "user_huid") == Some(Chars(Str(m.userHuid))))
      && (m.BotXAPIChatMention? || m.BotXAPIChannelMention? ==>
            Field(Field(sent, "mention_data").value, "group_chat_id") == Some(Chars(Str(m.groupChatId))))
      && (!m.BotXAPIAllMention? ==>
            Field(Field(sent, "mention_data").value, "name")
            == if m.name.Given? then Some(Chars(m.name.value)) else None)
  {
    var entries := MentionTree(m).entries;
    ScalarStays(entries[0].value);
    ScalarStays(entries[1].value);
    if !m.BotXAPIAllMention? {
      var idKey := if m.BotXAPIUserMention? || m.BotXAPIContactMention? then "user_huid" else "group_chat_id";
      var id := if m.BotXAPIUserMention? || m.BotXAPIContactMention? then m.userHuid else m.groupChatId;
      assert entries[2].value == MentionData(idKey, id, m.name);
      SentMentionData(idKey, id, m.name);
    }
    hide HasLeaf, Prune, MentionData, Str;
    FieldAfterPruning(entries, 0);
    FieldAfterPruning(entries, 1);
    if m.BotXAPIAllMention? {
      NoSuchKeyAfterPruning(entries, "mention_data");
    } else {
      FieldAfterPruning(entries, 2);
    }
  }

  lemma {:induction false} NoSuchKeyAfterPruning(entries: seq<Entry>, key: string)
    requires forall i | 0 <= i < |entries| :: entries[i].key != key
    ensures Field(Prune(Dict(entries)), key) == None
  {
    forall e | e in PruneEntries(entries) ensures e.key != key {
      PrunedKeys(entries, e);
    }
    NoSuchKey(PruneEntries(entries), key);
  }

  lemma {:induction false} SentMentionData(idKey: string, id: Uuid, name: Missing<string>)
    requires idKey != "name"
    ensures HasLeaf(MentionData(idKey, id, name))
    ensures var sent := Prune(MentionData(idKey, id, name));
      && Field(sent, idKey) == Some(Chars(Str(id)))
      && Field(sent, "name") == if name.Given? then Some(Chars(name.value)) else None
  {
    var entries := MentionData(idKey, id, name).entries;
    ScalarStays(Chars(Str(id)));
    SomeEntryHasLeaf(entries, 0);
    if name.Given? {
      ScalarStays(Chars(name.value));
    }
    assert HasLeaf(entries[1].value) <==> name.Given?;
    hide HasLeaf, Prune, Str;
    FieldAfterPruning(entries, 0);
    FieldAfterPruning(entries, 1);
  }

  /** What is sent for optional markup, as `MarkupKeepsShape` describes it, and for optional metadata. */
  function SentGrid(grid: Missing<Markup.Grid>): Option<Tree>
  {
    if grid.Undefined? then None else Some(Prune(MarkupPayload.MarkupTree(grid.value)))
  }

  function SentMetadata(metadata: Missing<seq<Entry>>): Option<Tree>
  {
    if metadata.Given? && HasLeaf(Dict(metadata.value)) then Some(Prune(Dict(metadata.value))) else None
  }

  lemma {:induction false} GridStays(grid: Missing<Markup.Grid>)
    ensures HasLeaf(GridField(grid)) <==> grid.Given?
    ensures SentGrid(grid) == if HasLeaf(GridField(grid)) then Some(Prune(GridField(grid))) else None
  {
    if grid.Given? {
      MarkupPayload.MarkupKeepsShape(grid.value);
    }
  }

  lemma {:induction false} MetadataStays(metadata: Missing<seq<Entry>>)
    ensures HasLeaf(MetadataField(metadata)) <==> SentMetadata(metadata).Some?
    ensures SentMetadata(metadata).Some? ==> SentMetadata(metadata) == Some(Prune(MetadataField(metadata)))
  {
  }

  lemma {:induction false} FlagStays(flag: Missing<bool>)
    ensures HasLeaf(FlagField(flag)) <==> flag.Given?
    ensures SentFlag(flag) == if HasLeaf(FlagField(flag)) then Some(Prune(FlagField(flag))) else None
  {
  }

  /** A record of two optional flags is left exactly if one of them was given, and then holds what was given. */
  lemma {:induction false} TwoFlags(key0: string, flag0: Missing<bool>, key1: string, flag1: Missing<bool>)
    requires key0 != key1
    ensures var flags := Dict([Entry(key0, FlagField(flag0)), Entry(key1, FlagField(flag1))]);
      && (HasLeaf(flags) <==> flag0.Given? || flag1.Given?)
      && Field(Prune(flags), key0) == SentFlag(flag0)
      && Field(Prune(flags), key1) == SentFlag(flag1)
  {
    FlagStays(flag0);
    FlagStays(flag1);
    var entries := [Entry(key0, FlagField(flag0)), Entry(key1, FlagField(flag1))];
    hide FlagField, SentFlag, Prune;
    assert entries[0].value == FlagField(flag0) && entries[1].value == FlagField(flag1);
    FieldAfterPruning(entries, 0);
    FieldAfterPruning(entries, 1);
  }

  lemma {:induction false} ScalarStays(t: Tree)
    requires !t.IsContainer() && !t.Absent?
    ensures HasLeaf(t) && Prune(t) == t
  {
  }

  // ----- Direct notification -----

  datatype Notification = Notification(
    chatId: Uuid,
    body: string,
    metadata: Missing<seq<Entry>>,
    bubbles: Missing<Markup.Grid>,
    keyboard: Missing<Markup.Grid>,
    file: Missing<File>,
    recipients: Missing<seq<Uuid>>,
    silentResponse: Missing<bool>,
    markupAutoAdjust: Missing<bool>,
    stealthMode: Missing<bool>,
    sendPush: Missing<bool>,
    ignoreMute: Missing<bool>)

  /** The inner record, once the mentions are rewritten; an empty list of mentions is not sent. */
  function NotificationEntries(n: Notification, w: Rewritten): seq<Entry>
  {
    [
      Entry("status", Chars("ok")),
      Entry("body", Chars(w.body)),
      Entry("metadata", MetadataField(n.metadata)),
      Entry("opts", MessageOptions(n)),
      Entry("bubble", GridField(n.bubbles)),
      Entry("keyboard", GridField(n.keyboard)),
      Entry("mentions", MentionsField(w.mentions))
    ]
  }

  function MessageOptions(n: Notification): Tree
  {
    Dict([
      Entry("silent_response", FlagField(n.silentResponse)),
      Entry("buttons_auto_adjust", FlagField(n.markupAutoAdjust))
    ])
  }

  /** `mentions or Undefined`. */
  function MentionsField(mentions: seq<BotXAPIMention>): Tree
  {
    if mentions == [] then Absent else List(MentionTrees(mentions))
  }

  function RequestEntries(n: Notification, w: Rewritten, lower: string -> string): seq<Entry>
  {
    [
      Entry("group_chat_id", Chars(Str(n.chatId))),
      Entry("notification", Dict(NotificationEntries(n, w))),
      Entry("file", FileField(n.file, lower)),
      Entry("recipients", RecipientsField(n.recipients)),
      Entry("opts", RequestOptions(n))
    ]
  }

  function RequestOptions(n: Notification): Tree
  {
    Dict([Entry("stealth_mode", FlagField(n.stealthMode)), Entry("notification_opts", PushOptions(n))])
  }

  function PushOptions(n: Notification): Tree
  {
    Dict([Entry("send", FlagField(n.sendPush)), Entry("force_dnd", FlagField(n.ignoreMute))])
  }

  /**
   `BotXAPIDirectNotificationRequestPayload.from_domain`, dumped: the length is checked before the
   mentions are rewritten.
   */
  function DirectNotification(n: Notification, ids: nat -> Uuid, lower: string -> string): Result<Tree, PayloadError>
  {
    if |n.body| > MentionLengths.MAX_NOTIFICATION_BODY_LENGTH then
      Failure(BodyTooLong)
    else
      match Rewrite(n.body, ids, 0)
      case Failure(e) => Failure(BadMention(e))
      case Success(w) => Success(Dict(RequestEntries(n, w, lower)))
  }

  /** The fields of the inner record that do not depend on the body: sent exactly if given, as given. */
  ghost predicate NotificationFields(sent: Tree, n: Notification)
  {
    && Field(sent, "status") == Some(Chars("ok"))
    && Field(sent, "metadata") == SentMetadata(n.metadata)
    && (Field(sent, "opts").Some? <==> n.silentResponse.Given? || n.markupAutoAdjust.Given?)
    && (Field(sent, "opts").Some? ==>
          && Field(Field(sent, "opts").value, "silent_response") == SentFlag(n.silentResponse)
          && Field(Field(sent, "opts").value, "buttons_auto_adjust") == SentFlag(n.markupAutoAdjust))
    && Field(sent, "bubble") == SentGrid(n.bubbles)
    && Field(sent, "keyboard") == SentGrid(n.keyboard)
  }

  lemma {:induction false} NotificationFieldsAreSent(n: Notification, w: Rewritten)
    ensures NotificationFields(Prune(Dict(NotificationEntries(n, w))), n)
  {
    var entries := NotificationEntries(n, w);
    NotificationKeysAreDistinct(n, w);
    TwoFlags("silent_response", n.silentResponse, "buttons_auto_adjust", n.markupAutoAdjust);
    assert entries[3].value == MessageOptions(n);
    ScalarStays(entries[0].value);
    MetadataStays(n.metadata);
    GridStays(n.bubbles);
    GridStays(n.keyboard);
    hide HasLeaf, Prune, GridField, MentionTrees, FlagField, MetadataField, MessageOptions;
    hide SentGrid, SentMetadata, SentFlag, Field;
    FieldAfterPruning(entries, 0);
    FieldAfterPruning(entries, 2);
    FieldAfterPruning(entries, 3);
    FieldAfterPruning(entries, 4);
    FieldAfterPruning(entries, 5);
  }

  /** What of the inner record is sent: status and body always, the rest exactly if something was given. */
  lemma {:induction false} SentNotification(n: Notification, w: Rewritten)
    ensures HasLeaf(Dict(NotificationEntries(n, w)))
    ensures var sent := Prune(Dict(NotificationEntries(n, w)));
      && NotificationFields(sent, n)
      && Field(sent, "body") == Some(Chars(w.body))
      && Field(sent, "mentions") == (if w.mentions == [] then None else Some(Prune(List(MentionTrees(w.mentions)))))
  {
    var entries := NotificationEntries(n, w);
    NotificationKeysAreDistinct(n, w);
    NotificationFieldsAreSent(n, w);
    MentionsStay(w.mentions);
    ScalarStays(entries[1].value);
    assert HasLeaf(entries[6].value) <==> w.mentions != [];
    hide HasLeaf, Prune, GridField, MentionTrees, FlagField, MetadataField, MessageOptions, NotificationFields, Field;
    SomeEntryHasLeaf(entries, 1);
    FieldAfterPruning(entries, 1);
    FieldAfterPruning(entries, 6);
  }

  lemma {:induction false} SomeEntryHasLeaf(entries: seq<Entry>, i: nat)
    requires i < |entries| && HasLeaf(entries[i].value)
    ensures HasLeaf(Dict(entries))
  {
  }

  lemma {:induction false} NotificationKeysAreDistinct(n: Notification, w: Rewritten)
    ensures DistinctKeys(NotificationEntries(n, w))
  {
    hide GridField, MentionsField, MessageOptions, MetadataField;
  }

  lemma {:induction false} RequestKeysAreDistinct(n: Notification, w: Rewritten, lower: string -> string)
    ensures DistinctKeys(RequestEntries(n, w, lower))
  {
    hide FileField, RecipientsField, NotificationEntries, RequestOptions;
  }

  lemma {:induction false} SentRequestOptions(n: Notification)
    ensures HasLeaf(RequestOptions(n)) <==> n.stealthMode.Given? || n.sendPush.Given? || n.ignoreMute.Given?
    ensures var sent := Prune(RequestOptions(n));
      && Field(sent, "stealth_mode") == SentFlag(n.stealthMode)
      && (Field(sent, "notification_opts").Some? <==> n.sendPush.Given? || n.ignoreMute.Given?)
      && (Field(sent, "notification_opts").Some? ==>
            && Field(Field(sent, "notification_opts").value, "send") == SentFlag(n.sendPush)
            && Field(Field(sent, "notification_opts").value, "force_dnd") == SentFlag(n.ignoreMute))
  {
    FlagStays(n.stealthMode);
    TwoFlags("send", n.sendPush, "force_dnd", n.ignoreMute);
    var entries := RequestOptions(n).entries;
    assert HasLeaf(PushOptions(n)) <==> n.sendPush.Given? || n.ignoreMute.Given?;
    hide FlagField, SentFlag, Prune, PushOptions;
    assert entries[0].value == FlagField(n.stealthMode) && entries[1].value == PushOptions(n);
    FieldAfterPruning(entries, 0);
    FieldAfterPruning(entries, 1);
  }

  /** A sent file has its name, and its data is the data URL of its type that decodes to its content. */
  ghost predicate IsSentFile(sent: Option<Tree>, file: File, lower: string -> string)
  {
    && sent.Some? && Field(sent.value, "file_name") == Some(Chars(file.filename))
    && Field(sent.value, "data").Some? && Field(sent.value, "data").value.Chars?
    && var text := Field(sent.value, "data").value.text;
    && text == "data:" + Attachments.MimetypeByFilename(file.filename, lower).Text() + ";base64," + Encode(file.content)
    && Attachments.DecodeRfc2397(text) == Success(file.content)
  }

  lemma {:induction false} FileIsSent(file: File, lower: string -> string)
    ensures IsSentFile(Some(FileTree(file, lower)), file, lower)
  {
    hide Attachments.DecodeRfc2397, Attachments.MimetypeByFilename, Encode;
    Attachments.EncodedText(file.filename, file.content, lower);
    Attachments.AttachmentRoundTrip(file.filename, file.content, lower);
    hide Attachments.FromFileAttachment;
    var tree, attachment := FileTree(file, lower), Attachments.FromFileAttachment(file.filename, file.content, lower);
    assert tree.entries[1..][0] == tree.entries[1];
    assert Field(tree, "file_name") == Some(Chars(attachment.fileName));
    assert Field(tree, "data") == FieldOf(tree.entries[1..], "data") == Some(Chars(attachment.data));
  }

  /** The ids, in order. */
  ghost predicate AreSentIds(sent: Option<Tree>, ids: seq<Uuid>)
  {
    && sent.Some? && sent.value.List? && |sent.value.items| == |ids|
    && forall i | 0 <= i < |ids| :: sent.value.items[i] == Chars(Str(ids[i]))
  }

  /** The fields of a sent request that do not depend on the body: sent exactly if given, as given. */
  ghost predicate RequestFields(sent: Tree, n: Notification, lower: string -> string)
  {
    && Field(sent, "group_chat_id") == Some(Chars(Str(n.chatId)))
    && (Field(sent, "file").Some? <==> n.file.Given?)
    && (n.file.Given? ==>
          && Field(sent, "file") == Some(FileTree(n.file.value, lower))
          && IsSentFile(Field(sent, "file"), n.file.value, lower))
    && (Field(sent, "recipients").Some? <==> n.recipients.Given?)
    && (n.recipients.Given? ==> AreSentIds(Field(sent, "recipients"), n.recipients.value))
    && var opts := Field(sent, "opts");
    && (opts.Some? <==> n.stealthMode.Given? || n.sendPush.Given? || n.ignoreMute.Given?)
    && (opts.Some? ==>
          && Field(opts.value, "stealth_mode") == SentFlag(n.stealthMode)
          && var push := Field(opts.value, "notification_opts");
          && (push.Some? <==> n.sendPush.Given? || n.ignoreMute.Given?)
          && (push.Some? ==>
                && Field(push.value, "send") == SentFlag(n.sendPush)
                && Field(push.value, "force_dnd") == SentFlag(n.ignoreMute)))
  }

  lemma {:induction false} RequestFieldsAreSent(n: Notification, w: Rewritten, lower: string -> string)
    ensures RequestFields(Prune(Dict(RequestEntries(n, w, lower))), n, lower)
  {
    var entries := RequestEntries(n, w, lower);
    RequestKeysAreDistinct(n, w, lower);
    ScalarStays(entries[0].value);
    FileStays(n.file, lower);
    if n.file.Given? {
      FileIsSent(n.file.value, lower);
    }
    RecipientsStay(n.recipients);
    SentRequestOptions(n);
    hide HasLeaf, Prune, FileField, RecipientsField, NotificationEntries, FlagField, FileTree, RequestOptions, SentFlag;
    hide IsSentFile, Field;
    FieldAfterPruning(entries, 0);
    FieldAfterPruning(entries, 2);
    FieldAfterPruning(entries, 3);
    FieldAfterPruning(entries, 4);
  }

  /** What of the request is sent: chat and notification always, the rest exactly if something was given. */
  lemma {:induction false} SentRequest(n: Notification, w: Rewritten, lower: string -> string)
    ensures var sent := Prune(Dict(RequestEntries(n, w, lower)));
      && RequestFields(sent, n, lower)
      && Field(sent, "notification") == Some(Prune(Dict(NotificationEntries(n, w))))
  {
    var entries := RequestEntries(n, w, lower);
    RequestKeysAreDistinct(n, w, lower);
    RequestFieldsAreSent(n, w, lower);
    SentNotification(n, w);
    hide HasLeaf, Prune, FileField, RecipientsField, NotificationEntries, RequestOptions, RequestFields, Field;
    FieldAfterPruning(entries, 1);
  }

  lemma {:induction false} FileStays(file: Missing<File>, lower: string -> string)
    ensures HasLeaf(FileField(file, lower)) <==> file.Given?
    ensures file.Given? ==> Prune(FileField(file, lower)) == FileTree(file.value, lower)
  {
    hide Attachments.FromFileAttachment;
    if file.Given? {
      var tree := FileTree(file.value, lower);
      assert PayloadLeaves.Clean(tree.entries[0].value) && PayloadLeaves.Clean(tree.entries[1].value);
      PayloadLeaves.PruneIsIdentityOnClean(tree);
      PayloadLeaves.CleanHasLeaf(tree);
    }
  }

  lemma {:induction false} RecipientsStay(recipients: Missing<seq<Uuid>>)
    ensures HasLeaf(RecipientsField(recipients)) <==> recipients.Given?
    ensures recipients.Given? ==> Prune(RecipientsField(recipients)) == List(IdTrees(recipients.value))
  {
    if recipients.Given? {
      var tree := List(IdTrees(recipients.value));
      PayloadLeaves.PruneIsIdentityOnClean(tree);
      PayloadLeaves.CleanHasLeaf(tree);
    }
  }

  /**
   What is sent for a tag: its type in lower case, the identifier of its own, and unless it is of type ALL
   the entity it names, under the key for people or for chats, with the name if there is one.
   */
  ghost predicate IsSentTag(sent: Tree, tag: EmbedMatch, id: Uuid)
  {
    && (tag.mentionType == "USER" ==> Field(sent, "mention_type") == Some(Chars("user")))
    && (tag.mentionType == "CONTACT" ==> Field(sent, "mention_type") == Some(Chars("contact")))
    && (tag.mentionType == "CHAT" ==> Field(sent, "mention_type") == Some(Chars("chat")))
    && (tag.mentionType == "CHANNEL" ==> Field(sent, "mention_type") == Some(Chars("channel")))
    && (tag.mentionType == "ALL" ==> Field(sent, "mention_type") == Some(Chars("all")))
    && tag.mentionType in ["USER", "CONTACT", "CHAT", "CHANNEL", "ALL"]
    && Field(sent, "mention_id") == Some(Chars(Str(id)))
    && var data := Field(sent, "mention_data");
    && (data.None? <==> tag.mentionType == "ALL")
    && (data.Some? ==>
          && Parse(tag.entityId).Some?
          && Field(data.value, if tag.mentionType in ["USER", "CONTACT"] then "user_huid" else "group_chat_id")
             == Some(Chars(Str(Parse(tag.entityId).value)))
          && Field(data.value, "name") == if tag.name == "" then None else Some(Chars(tag.name)))
  }

  lemma {:induction false} TagIsSent(tag: EmbedMatch, id: Uuid, m: BotXAPIMention)
    requires BuildBotXAPIEmbedMention(tag, id) == Success(m)
    ensures IsSentTag(Prune(MentionTree(m)), tag, id)
  {
    ConversionOfTag(tag, id);
    SentMention(m);
    hide BuildBotXAPIEmbedMention, Prune, MentionTree, Parse, Str, Field;
  }

  /** The list sent for these matches: item `i` is the mention object match `i` converts to. */
  ghost predicate ListsMentions(sent: Option<Tree>, matches: seq<EmbedMatch>, ids: nat -> Uuid)
  {
    && sent.Some? && sent.value.List? && |sent.value.items| == |matches|
    && forall i | 0 <= i < |matches| ::
         && var converted := BuildBotXAPIEmbedMention(matches[i], ids(i));
         && converted.Success?
         && sent.value.items[i] == Prune(MentionTree(converted.value))
         && IsSentTag(sent.value.items[i], matches[i], ids(i))
  }

  lemma {:induction false} MentionsAreListed(body: string, ids: nat -> Uuid)
    requires Rewrite(body, ids, 0).Success?
    ensures var mentions := Rewrite(body, ids, 0).value.mentions;
      && |mentions| == |FindIter(body)|
      && ListsMentions(Some(Prune(List(MentionTrees(mentions)))), FindIter(body), ids)
  {
    hide Rewrite, MentionTree, MentionTrees, BuildBotXAPIEmbedMention, Prune, IsSentTag;
    var matches, mentions := FindIter(body), Rewrite(body, ids, 0).value.mentions;
    MentionTheorems.RewriteIsSplice(body, ids, 0);
    MentionsStay(mentions);
    forall i | 0 <= i < |matches|
      ensures BuildBotXAPIEmbedMention(matches[i], ids(i)) == Success(mentions[i])
      ensures IsSentTag(Prune(MentionTree(mentions[i])), matches[i], ids(i))
    {
      assert BuildBotXAPIEmbedMention(matches[i], ids(0 + i)) == Success(mentions[i]);
      TagIsSent(matches[i], ids(i), mentions[i]);
    }
  }

  /**
   A direct notification fails exactly on a body of more than 4096 characters or with a mention that
   does not convert. Otherwise the rewritten body is sent, with one mention object for every tag in
   the body, in order, and no `mentions` at all if there is no tag, and with everything else as given.
   */
  lemma {:induction false} DirectNotificationIsSent(n: Notification, ids: nat -> Uuid, lower: string -> string)
    ensures DirectNotification(n, ids, lower) == Failure(BodyTooLong) <==> |n.body| > 4096
    ensures forall error :: DirectNotification(n, ids, lower) == Failure(BadMention(error)) <==>
                            |n.body| <= 4096 && Rewrite(n.body, ids, 0) == Failure(error)
    ensures DirectNotification(n, ids, lower).Success? ==>
      && Rewrite(n.body, ids, 0).Success?
      && RequestFields(Prune(DirectNotification(n, ids, lower).value), n, lower)
      && var notification := Field(Prune(DirectNotification(n, ids, lower).value), "notification");
      && notification.Some?
      && NotificationFields(notification.value, n)
      && Field(notification.value, "body") == Some(Chars(Rewrite(n.body, ids, 0).value.body))
      && |Rewrite(n.body, ids, 0).value.body| <= 5339
      && var mentions := Field(notification.value, "mentions");
      && (mentions.None? <==> FindIter(n.body) == [])
      && (mentions.Some? ==> ListsMentions(mentions, FindIter(n.body), ids))
  {
    hide Rewrite, Prune, NotificationEntries, RequestEntries, HasLeaf, ListsMentions, RequestFields, NotificationFields;
    if |n.body| <= 4096 && Rewrite(n.body, ids, 0).Success? {
      var w := Rewrite(n.body, ids, 0).value;
      SentRequest(n, w, lower);
      SentNotification(n, w);
      MentionLengths.AcceptedBodyBound(n.body, ids, 0);
      MentionsAreListed(n.body, ids);
    }
  }

  // ----- Edit -----

  /** The file of an edit may be kept, replaced or removed. */
  datatype FileEdit = KeepFile | RemoveFile | ReplaceFile(file: File)

  datatype Edit = Edit(
    syncId: Uuid,
    body: Missing<string>,
    metadata: Missing<seq<Entry>>,
    bubbles: Missing<Markup.Grid>,
    keyboard: Missing<Markup.Grid>,
    file: FileEdit,
    markupAutoAdjust: Missing<bool>)

  /** `Undefined` if no body was given. */
  function EditedMentions(e: Edit, ids: nat -> Uuid): Result<Missing<Rewritten>, MentionError>
  {
    match e.body
    case Undefined => Success(Undefined)
    case Given(body) =>
      match Rewrite(body, ids, 0)
      case Failure(error) => Failure(error)
      case Success(w) => Success(Given(w))
  }

  function OneFlagTree(key: string, flag: Missing<bool>): Tree
  {
    Dict([Entry(key, FlagField(flag))])
  }

  function EditEntries(e: Edit, w: Missing<Rewritten>): seq<Entry>
  {
    [
      Entry("body", if w.Undefined? then Absent else Chars(w.value.body)),
      Entry("metadata", MetadataField(e.metadata)),
      Entry("opts", OneFlagTree("buttons_auto_adjust", e.markupAutoAdjust)),
      Entry("bubble", GridField(e.bubbles)),
      Entry("keyboard", GridField(e.keyboard)),
      Entry("mentions", if w.Undefined? then Absent else List(MentionTrees(w.value.mentions)))
    ]
  }

  function RawMentions(w: Missing<Rewritten>): Missing<bool>
  {
    if w.Given? && w.value.mentions != [] then Given(true) else Undefined
  }

  function EditRequestEntries(e: Edit, w: Missing<Rewritten>, lower: string -> string): seq<Entry>
  {
    var file :=
      match e.file
      case KeepFile => Absent
      case RemoveFile => Null
      case ReplaceFile(file) => FileTree(file, lower);
    [
      Entry("sync_id", Chars(Str(e.syncId))),
      Entry("payload", Dict(EditEntries(e, w))),
      Entry("file", file),
      Entry("opts", OneFlagTree("raw_mentions", RawMentions(w)))
    ]
  }

  /** `BotXAPIEditEventRequestPayload.from_domain`, dumped; the length of the body is not checked. */
  function EditEvent(e: Edit, ids: nat -> Uuid, lower: string -> string): Result<Tree, MentionError>
  {
    match EditedMentions(e, ids)
    case Failure(error) => Failure(error)
    case Success(w) => Success(Dict(EditRequestEntries(e, w, lower)))
  }

  lemma {:induction false} OneFlag(key: string, flag: Missing<bool>)
    ensures HasLeaf(OneFlagTree(key, flag)) <==> flag.Given?
    ensures Field(Prune(OneFlagTree(key, flag)), key) == SentFlag(flag)
  {
    FlagStays(flag);
    var entries := OneFlagTree(key, flag).entries;
    hide FlagField, SentFlag, Prune;
    assert entries[0].value == FlagField(flag);
    FieldAfterPruning(entries, 0);
  }

  lemma {:induction false} SomethingIsEdited(e: Edit, w: Missing<Rewritten>)
    ensures var entries := EditEntries(e, w);
      && (HasLeaf(entries[0].value) <==> w.Given?)
      && (HasLeaf(entries[1].value) <==> SentMetadata(e.metadata).Some?)
      && (HasLeaf(entries[2].value) <==> e.markupAutoAdjust.Given?)
      && (HasLeaf(entries[3].value) <==> e.bubbles.Given?)
      && (HasLeaf(entries[4].value) <==> e.keyboard.Given?)
      && (HasLeaf(entries[5].value) <==> w.Given?)
      && (HasLeaf(Dict(entries)) <==> exists i | 0 <= i < 6 :: HasLeaf(entries[i].value))
  {
    hide HasLeaf, Prune, GridField, MentionTrees, OneFlagTree, MetadataField, SentGrid, SentMetadata, SentFlag;
    SomeValueHasLeaf(EditEntries(e, w));
    OneFlag("buttons_auto_adjust", e.markupAutoAdjust);
    MetadataStays(e.metadata);
    GridStays(e.bubbles);
    GridStays(e.keyboard);
    if w.Given? {
      MentionsStay(w.value.mentions);
      ScalarStays(Chars(w.value.body));
    } else {
      NothingStays();
    }
  }

  lemma {:induction false} SomeValueHasLeaf(entries: seq<Entry>)
    requires entries != []
    ensures HasLeaf(Dict(entries)) <==> exists i | 0 <= i < |entries| :: HasLeaf(entries[i].value)
  {
  }

  lemma {:induction false} NothingStays()
    ensures !HasLeaf(Absent)
  {
  }

  /** The fields of a sent edit that do not depend on the body: sent exactly if given, as given. */
  ghost predicate EditFields(sent: Tree, e: Edit)
  {
    && Field(sent, "metadata") == SentMetadata(e.metadata)
    && (Field(sent, "opts").Some? <==> e.markupAutoAdjust.Given?)
    && (Field(sent, "opts").Some? ==>
          Field(Field(sent, "opts").value, "buttons_auto_adjust") == SentFlag(e.markupAutoAdjust))
    && Field(sent, "bubble") == SentGrid(e.bubbles)
    && Field(sent, "keyboard") == SentGrid(e.keyboard)
  }

  lemma {:induction false} EditFieldsAreSent(e: Edit, w: Missing<Rewritten>)
    ensures EditFields(Prune(Dict(EditEntries(e, w))), e)
  {
    var entries := EditEntries(e, w);
    EditKeysAreDistinct(e, w);
    SomethingIsEdited(e, w);
    OneFlag("buttons_auto_adjust", e.markupAutoAdjust);
    MetadataStays(e.metadata);
    GridStays(e.bubbles);
    GridStays(e.keyboard);
    hide HasLeaf, Prune, GridField, MentionTrees, OneFlagTree, MetadataField, SentGrid, SentMetadata, SentFlag;
    FieldAfterPruning(entries, 1);
    FieldAfterPruning(entries, 2);
    FieldAfterPruning(entries, 3);
    FieldAfterPruning(entries, 4);
  }

  /** What of the payload of an edit is sent, and when nothing of it is. */
  lemma {:induction false} SentEdit(e: Edit, w: Missing<Rewritten>)
    ensures HasLeaf(Dict(EditEntries(e, w))) <==>
      || w.Given? || e.markupAutoAdjust.Given? || e.bubbles.Given? || e.keyboard.Given?
      || SentMetadata(e.metadata).Some?
    ensures var sent := Prune(Dict(EditEntries(e, w)));
      && EditFields(sent, e)
      && Field(sent, "body") == (if w.Given? then Some(Chars(w.value.body)) else None)
      && Field(sent, "mentions") == (if w.Given? then Some(Prune(List(MentionTrees(w.value.mentions)))) else None)
  {
    var entries := EditEntries(e, w);
    EditKeysAreDistinct(e, w);
    SomethingIsEdited(e, w);
    EditFieldsAreSent(e, w);
    if w.Given? {
      ScalarStays(entries[0].value);
    }
    hide HasLeaf, Prune, GridField, MentionTrees, OneFlagTree, MetadataField, SentMetadata, EditFields, Field;
    FieldAfterPruning(entries, 0);
    FieldAfterPruning(entries, 5);
  }

  lemma {:induction false} EditKeysAreDistinct(e: Edit, w: Missing<Rewritten>)
    ensures DistinctKeys(EditEntries(e, w))
  {
    hide GridField, MentionTrees, OneFlagTree, MetadataField;
  }

  lemma {:induction false} EditRequestKeysAreDistinct(e: Edit, w: Missing<Rewritten>, lower: string -> string)
    ensures DistinctKeys(EditRequestEntries(e, w, lower))
  {
    hide EditEntries, OneFlagTree, FileTree;
  }

  /** What is sent for the file of an edit: nothing, a null that removes it, or the new one. */
  ghost predicate IsSentFileEdit(sent: Option<Tree>, file: FileEdit, lower: string -> string)
  {
    match file
    case KeepFile => sent == None
    case RemoveFile => sent == Some(Null)
    case ReplaceFile(file) => sent == Some(FileTree(file, lower)) && IsSentFile(sent, file, lower)
  }

  /** What of an edit request is sent. */
  lemma {:induction false} SentEditRequest(e: Edit, w: Missing<Rewritten>, lower: string -> string)
    ensures var sent := Prune(Dict(EditRequestEntries(e, w, lower)));
      && Field(sent, "sync_id") == Some(Chars(Str(e.syncId)))
      && Field(sent, "payload")
         == (if HasLeaf(Dict(EditEntries(e, w))) then Some(Prune(Dict(EditEntries(e, w)))) else None)
      && IsSentFileEdit(Field(sent, "file"), e.file, lower)
      && (Field(sent, "opts").Some? <==> w.Given? && w.value.mentions != [])
      && (Field(sent, "opts").Some? ==> Field(Field(sent, "opts").value, "raw_mentions") == Some(Bool(true)))
  {
    var entries := EditRequestEntries(e, w, lower);
    EditRequestKeysAreDistinct(e, w, lower);
    OneFlag("raw_mentions", RawMentions(w));
    ScalarStays(entries[0].value);
    if e.file.ReplaceFile? {
      FileStays(Given(e.file.file), lower);
      FileIsSent(e.file.file, lower);
    } else if e.file.RemoveFile? {
      ScalarStays(Null);
    }
    assert HasLeaf(entries[2].value) <==> !e.file.KeepFile?;
    hide HasLeaf, Prune, OneFlagTree, FileTree, EditEntries, IsSentFile;
    FieldAfterPruning(entries, 0);
    FieldAfterPruning(entries, 1);
    FieldAfterPruning(entries, 2);
    FieldAfterPruning(entries, 3);
  }

  /**
   An edit fails exactly if the rewriting of a given body does. Otherwise `mentions` is sent exactly if
   a body was given, and lists one mention for every tag, in order, none if there is no tag; the
   `payload` is left out exactly if there is nothing in it, and `opts` exactly if there is no tag.
   */
  lemma {:induction false} EditIsSent(e: Edit, ids: nat -> Uuid, lower: string -> string)
    ensures forall error :: EditEvent(e, ids, lower) == Failure(error) <==>
                            e.body.Given? && Rewrite(e.body.value, ids, 0) == Failure(error)
    ensures EditEvent(e, ids, lower).Success? ==>
      var sent := Prune(EditEvent(e, ids, lower).value);
      var payload := Field(sent, "payload");
      && Field(sent, "sync_id") == Some(Chars(Str(e.syncId)))
      && (payload.None? <==>
            && e.body.Undefined? && e.markupAutoAdjust.Undefined? && e.bubbles.Undefined? && e.keyboard.Undefined?
            && SentMetadata(e.metadata).None?)
      && (e.body.Given? ==>
            && Rewrite(e.body.value, ids, 0).Success?
            && Field(payload.value, "body") == Some(Chars(Rewrite(e.body.value, ids, 0).value.body))
            && ListsMentions(Field(payload.value, "mentions"), FindIter(e.body.value), ids))
      && (payload.Some? ==> EditFields(payload.value, e))
      && (payload.Some? && e.body.Undefined? ==>
            Field(payload.value, "body").None? && Field(payload.value, "mentions").None?)
      && (Field(sent, "opts").Some? <==> e.body.Given? && FindIter(e.body.value) != [])
      && (Field(sent, "opts").Some? ==> Field(Field(sent, "opts").value, "raw_mentions") == Some(Bool(true)))
      && IsSentFileEdit(Field(sent, "file"), e.file, lower)
  {
    hide Rewrite, EditEntries, EditRequestEntries, HasLeaf, Prune, MentionTrees;
    hide SentMetadata, ListsMentions, IsSentFileEdit, EditFields;
    if EditedMentions(e, ids).Success? {
      var w := EditedMentions(e, ids).value;
      SentEdit(e, w);
      SentEditRequest(e, w, lower);
      if w.Given? {
        MentionsAreListed(e.body.value, ids);
      }
    }
  }
}
