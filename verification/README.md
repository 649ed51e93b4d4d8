# Verified model of pybotx

pybotx is a Python client and server library for BotX chat bots. This project models the parts of it
that compute rather than transport, and proves what they guarantee for all inputs, all runs and all
reachable states.

## What is modelled

**Embedded mentions.** A bot prints mentions into a message text as tags; before the text is sent, a
loop finds every tag with a regular expression and replaces the *first occurrence* of the tag's text
in a text that changes from round to round. `LazyRegex` is an ordered backtracking matcher for lazy
patterns, proved to find a match whenever there is one and to prefer the shortest parts.
`EmbedPattern` is the pattern of the library with leftmost search and iteration. `MentionRewriter`
holds the loop and proves that it equals one simultaneous replacement; the key is that the text in
front of a match is *inert*: the pattern's type group would swallow any earlier opening tag on the
same line. `MentionTheorems` states what the replacement is, when it fails and that it leaves
nothing to replace; `MentionRoundTrip` says exactly which documents come back as they were printed;
`MentionLengths` says how much longer a text can get.

**Payload pruning.** `PayloadTree` holds the recursive loops that drop unset fields from a request.
`PayloadLeaves` proves that pruning keeps every leaf with its path and that the pruned tree is the only
tree of its leaves. `Markup`, `MarkupPayload`, `PayloadFields` and `MessagePayloads` build buttons,
direct notifications and edits on top of it and say which fields go over the wire.

**Attachments and buffers.** `Base64`, `Base64Texts`, `Mimetypes`, `MimetypeTable`, `Attachments` and
`Buffers`: data URLs, the table of media types, chunked upload with short reads, the sticker checks.

**Accounts.** `Accounts`, `RequestVerification` and `TokenCache`: signed requests, their verification,
and the token cache over whole runs of calls.

**Messages and listings.** `Commands` (command and arguments), `IncomingMessages` (raw items, entities,
attachments), `StickerPacks` (sorting in place), `StickerPackPages` (pagination).

## Reading the model

- Python exceptions are `Failure` values. `uuid4()` is an arbitrary function from the number of the call
  to an identifier; nothing depends on identifiers being fresh. An identifier is its 32 hexadecimal digits.
- An opened file is a `Buffer` whose reads may be short in any pattern. A server is an arbitrary function
  from the number of the request to its answer.
- The JWT library (PyJWT 2.11.0 by the lock file), `int(text)` and `UUID(text)` are a record of five
  functions. Where something is needed of them it is required of the very claims and key at hand, and
  `Accounts.SomeLibrarySigns` shows that it can be had. The order of the claim checks and what `int(...)`
  does on each kind of value are modelled. Time is a real number of seconds.
- Case folding of file names is a parameter.

## Main results

- The loop that replaces first occurrences in a changing text equals the simultaneous replacement of all
  matches (`MentionRewriter.FindAndReplaceEmbedMentions`, from `MentionRewriter.FirstOccurrenceIsTheMatch`).
- The result is a splice, complete and stable under a second run; failures are those of the first bad match
  (`MentionTheorems.RewriteIsSplice`, `MentionTheorems.RewriteIsComplete`, `MentionTheorems.RewriteFailsAtFirst`).
- Exactly the readable documents come back as printed (`MentionRoundTrip.DocumentRoundTrip`).
- The backtracking engine finds the most preferred cut whenever there is one (`LazyRegex.MatchHereIsLaziest`).
- Pruning conserves the leaves, and its result is determined by them
  (`PayloadLeaves.PruneKeepsLeaves`, `PayloadLeaves.PrunedIsTheTreeOfTheLeaves`).
- From arguments to the wire: `MessagePayloads.DirectNotificationIsSent`, `MessagePayloads.EditIsSent`.
- Over every run of calls each bot keeps its first token, and bots do not disturb each other
  (`TokenCache.OneTokenPerBot`, `TokenCache.BotsAreIndependent`, `TokenCache.PerformRun`).
- Signing and verifying agree exactly within the time window (`RequestVerification.SignedRequestIsVerified`),
  and a rejection is reported as documented exactly under a stated condition
  (`RequestVerification.RejectedAsUnverified`).
- Base64 texts spell the bytes as section 4 of RFC 4648 says, and over the alphabet encoding undoes
  decoding (`Base64Texts.EncodedGroup`, `Base64Texts.EncodeDecode`); data URLs round-trip
  (`Attachments.AttachmentRoundTrip`); the chunk loop copies everything under short
  reads (`Buffers.CopyInChunks`).
- The sticker sort is the only stable one and is idempotent (`StickerPacks.StableSortIsUnique`,
  `StickerPacks.SortTwice`); pagination yields every page lazily (`StickerPackPages.IterateByStickerPacks`).

## Where the code does not do what one might expect

The model follows the code. Each point is a theorem with its exact condition.

- A message body is limited to 4096 characters before its mentions are rewritten. What is sent is within
  the limit exactly if the tokens, whose lengths follow from the types of the tags, take no more than the
  tags and the unused part of the limit (`MentionLengths.RewrittenStaysWithinLimit`); it can have up to
  5339 characters (`MentionLengths.AcceptedBodyBound`, `MentionLengths.LengthBoundIsMet`).
- A printed mention is read back exactly if its name has no newline and no closing tag, and the text in
  front of it is inert (`MentionRoundTrip.DocumentRoundTrip`).
- The command and the arguments of a message are the words of its body exactly if the body does not start
  with whitespace; dispatching a body of whitespace only fails (`Commands.DispatchAgreesWithSplit`,
  `Commands.DispatchFailsOnBlank`).
- The PNG check of a sticker reads from the cursor although the whole content is sent, so it is sound
  exactly at the beginning of the buffer (`Buffers.CheckIsSoundAtStart`).
- The documentation of `verify_request` names `UnverifiedRequestError` for every rejected request. Six
  kinds of requests raise something else: a header of whitespace only (`IndexError`); a second-version
  token whose issuer is the id of no configured bot (`UnknownBotAccountError`); a first-version token whose
  one-element audience is no id, whoever signed it (`ValueError`, or `AttributeError` or `TypeError` if the
  element is no text); a token to be checked with a key the JWT library refuses with an exception outside
  `InvalidTokenError`; a signed token whose first time claim out of order is null, a list, a dictionary or
  infinite (`TypeError` or `OverflowError` from `int(...)` inside the library); and a first-version token,
  good for an account, whose issuer is a list or a dictionary, if there are trusted issuers (`TypeError`).
  `RequestVerification.OtherWaysOut` gives each exactly, `RequestVerification.RejectedAsUnverified` the
  exact condition for the documented error.
- A voice message without data fails, while every other file without data arrives empty
  (`IncomingMessages.AttachmentFails`).
- A row list that is already in a grid makes a button appear twice (`Markup.SharedRowDoublesButton`); a
  button is added once exactly if it opens a row or the last row is not shared
  (`Markup.BaseMarkup.AddBuiltButton`).

## Model

| member | source | states |
|---|---|---|
| LazyRegex.MatchHereFits | pybotx/models/message/mentions.py:317-325 | what the backtracking engine reports is a cut of a prefix of the text into one accepted part per piece of the pattern |
| LazyRegex.MatchHereIsLaziest | pybotx/models/message/mentions.py:317-325 | the engine finds a cut whenever there is one, and no cut is preferred to it in the order of lazy matching |
| EmbedPattern.TagIsMatched | pybotx/models/message/mentions.py:317-325 | wherever a tag stands, the pattern matches, with the shortest type, then the shortest entity id, then the shortest name |
| EmbedPattern.MatchIsTag | pybotx/models/message/mentions.py:317-325 | every match is a tag with a non-empty type, an id over hexadecimal digits and dashes, and no newline in type or name |
| EmbedPattern.Search | pybotx/models/message/mentions.py:331 | the search finds the leftmost match, or there is none anywhere |
| Mentions.TypeOfValue | pybotx/models/message/mentions.py:263 | a text denotes a mention type exactly if it is that type's value |
| Mentions.PrintIsTag | pybotx/models/message/mentions.py:18-25 | a printed mention is the tag of its type, id and name |
| Mentions.PrintedText | pybotx/models/message/mentions.py:18-25 | the printed text of a mention, kind by kind; no name and the empty name print the same |
| Mentions.ConvertPrintedGroups | pybotx/models/message/mentions.py:260-314 | the groups of a printed mention convert to the mention object of the same kind, id and name, no name and the empty name being the same |
| Mentions.ConversionOfTag | pybotx/models/message/mentions.py:260-314 | what any tag converts to: one of type ALL always, whatever stands in it; one of the other four types exactly if its entity id is one, to the kind of that type, with entity and name; no other |
| Mentions.TokenShape | pybotx/models/message/mentions.py:207-248 | a token opens no tag, cannot complete one at either end, and has 47 or 48 characters |
| Mentions.TokenByKind | pybotx/models/message/mentions.py:207-248 | the text of a token: two @ for a contact, two # for a chat or a channel, one @ for a user and for everyone, then the mention id |
| Mentions.TokenOfTag | pybotx/models/message/mentions.py:207-314 | the token that replaces a tag is told from the type the tag names and the identifier |
| Mentions.SameToken | pybotx/models/message/mentions.py:207-248 | two tokens are equal exactly if the mention ids are and the kinds are written with the same sign |
| Uuids.ParseStr | pybotx/models/message/mentions.py:24 | an identifier printed and parsed is the same identifier |
| Uuids.DashesOfStr | pybotx/models/message/mentions.py:24 | a printed identifier has groups of 8, 4, 4, 4 and 12 digits |
| Uuids.DashesAreIgnored | pybotx/models/message/mentions.py:273 | dashes may stand anywhere in the text of an identifier |
| Uuids.ParseWithoutDashes | pybotx/models/message/mentions.py:273 | without dashes exactly 32 hexadecimal digits are an identifier |
| Text.IndexOf | pybotx/models/message/mentions.py:336 | the first occurrence, or none at all |
| MentionRewriter.TypeGroupAbsorbs | pybotx/models/message/mentions.py:319-320 | in front of a match on the same line, an opening tag starts a match of its own |
| MentionRewriter.GapIsInert | pybotx/models/message/mentions.py:331-336 | the text in front of the leftmost match holds no match, and a newline follows every opening tag in it |
| MentionRewriter.SealWithToken | pybotx/models/message/mentions.py:336 | an inert gap closed by a token stays without matches whatever follows |
| MentionRewriter.FirstOccurrenceIsTheMatch | pybotx/models/message/mentions.py:331-336 | in the changing text, the first occurrence of the text of the next match is that match itself, also with repeated tags |
| MentionRewriter.Round | pybotx/models/message/mentions.py:331-338 | every round keeps the invariant: what is done is sealed, and rewriting the rest completes the simultaneous replacement |
| MentionRewriter.FindAndReplaceEmbedMentions | pybotx/models/message/mentions.py:328-340 | the loop of first-occurrence replacements over a changing text equals the simultaneous replacement of all matches, errors included |
| MentionTheorems.TextIsWoven | pybotx/models/message/mentions.py:331-336 | gaps and matches make up the text |
| MentionTheorems.RewriteIsSplice | pybotx/models/message/mentions.py:328-340 | on success the i-th match became the token of the i-th mention, made with the i-th identifier, and all gaps are kept verbatim |
| MentionTheorems.RewrittenText | pybotx/models/message/mentions.py:328-340 | the rewritten text is the gaps and, in between, the tokens told from the types of the tags and the identifiers |
| MentionTheorems.RewriteFailsAtFirst | pybotx/models/message/mentions.py:331-338 | it fails exactly if some match does not convert, with the error of the first such match |
| MentionTheorems.RewriteIsComplete | pybotx/models/message/mentions.py:328-340 | the rewritten text holds no match, so a second run returns the same text and no mentions |
| MentionRoundTrip.PrintedMentionIsNext | pybotx/models/message/mentions.py:317-331 | behind inert text, a printed mention with a readable name is the next match |
| MentionRoundTrip.WantedOnlyIfReadable | pybotx/models/message/mentions.py:328-340 | a mention comes back as printed only if its name is readable and the text in front inert |
| MentionRoundTrip.DocumentRoundTrip | pybotx/models/message/mentions.py:18-25 | a document of plain text and printed mentions is rewritten to its plain text and tokens, with exactly its mentions in order, if and only if all names are readable, all plain text is inert and the tail has no match |
| MentionRoundTrip.MentionsInPlainTextComeBack | pybotx/models/message/mentions.py:260-340 | mentions with readable names come back from every text without opening tags |
| MentionLengths.LengthAccounting | pybotx/models/message/mentions.py:331-338 | the length changes by the tokens minus the matches and by nothing else |
| MentionLengths.LengthBound | pybotx/models/message/mentions.py:207-248 | an ALL mention costs at least 36 characters and brings at most 11 more; any other gives back at least 21 |
| MentionLengths.AcceptedBodyBound | pybotx/client/notifications_api/direct_notification.py:86-91 | a body within the limit is rewritten to at most 5339 characters, and to no more than it had if it has no ALL mention |
| MentionLengths.LengthBoundIsMet | pybotx/client/notifications_api/direct_notification.py:86-91 | the bound of 5339 is reached by a body of exactly 4096 characters |
| MentionLengths.RewrittenStaysWithinLimit | pybotx/client/notifications_api/direct_notification.py:86-91 | the rewritten body is within the limit exactly if the length of the body, plus 47 for every USER or ALL tag and 48 for every other one, is at most the limit plus the length of the tags |
| PayloadTree.SurvivalCheck | pybotx/models/api_base.py:20-23 | the length comparison made on a pruned child holds exactly if the child has a leaf |
| PayloadTree.RemoveUndefined | pybotx/models/api_base.py:10-45 | the recursive loops return the tree of the surviving children, and fail on anything but a dictionary or list |
| PayloadLeaves.HasLeafMeansLeaves | pybotx/models/api_base.py:16-43 | a subtree survives exactly if its leaf sequence is not empty |
| PayloadLeaves.PruneKeepsLeaves | pybotx/models/api_base.py:10-45 | pruning keeps the sequence of leaves with their paths, list positions compacted; only a root without leaves becomes an empty container |
| PayloadLeaves.PrunedIsClean | pybotx/models/api_base.py:13-43 | no marker is left at any depth and no key is doubled |
| PayloadLeaves.PruneIsIdentityOnClean | pybotx/models/api_base.py:13-43 | exactly the trees without marker are returned unchanged |
| PayloadLeaves.PruneIsIdempotent | pybotx/models/api_base.py:13-43 | pruning twice is pruning once |
| PayloadLeaves.LeavesDetermineTree | pybotx/models/api_base.py:10-45 | trees without marker that have the same leaves are equal |
| PayloadLeaves.PrunedIsTheTreeOfTheLeaves | pybotx/models/api_base.py:10-45 | the pruned tree is the only tree without marker that has the leaves of the original |
| PayloadFields.FieldAfterPruning | pybotx/models/api_base.py:16-25 | a field of a dictionary is sent, pruned, exactly if something of it is left |
| Markup.BaseMarkup.AddBuiltButton | pybotx/models/message/markup.py:90-98 | the grid becomes the one with the button added exactly if a new row is asked for or the last row is not shared |
| Markup.BaseMarkup.AddButton | pybotx/models/message/markup.py:100-152 | a button without command and link is refused and changes nothing; any other is added |
| Markup.BaseMarkup.AddRow | pybotx/models/message/markup.py:154-155 | the caller's row becomes the last row, shared if it was in the grid before |
| Markup.SharedRowDoublesButton | pybotx/models/message/markup.py:90-98 | a row added twice shows one added button in both places |
| Markup.ButtonsKeepOrder | pybotx/models/message/markup.py:90-155 | over any run, the flattened grid lists all buttons in the order in which they came, none lost |
| Markup.RowsOnlyGrow | pybotx/models/message/markup.py:90-155 | rows stay in place and only grow; an empty row was there or was added empty |
| Markup.Fill | pybotx/models/message/markup.py:64-155 | a markup object filled by any sequence of steps with unshared rows holds the built grid |
| MarkupPayload.MarkupKeepsShape | pybotx/models/message/markup.py:188-232 | pruning keeps every row, even an empty one, and every button of it in place |
| MarkupPayload.ButtonFields | pybotx/models/message/markup.py:209-224 | which fields of a button are sent, and with what value |
| MarkupPayload.OptionFields | pybotx/models/message/markup.py:197-224 | the alert is shown exactly if given; the client handles the click exactly on a link or if told so; colours, width and link are sent exactly if given |
| MessagePayloads.SentMention | pybotx/models/message/mentions.py:197-245 | what a mention object sends: kind, id, whom it addresses under the key of its kind, and the name exactly if there is one |
| MessagePayloads.TagIsSent | pybotx/models/message/mentions.py:260-314 | what goes over the wire for a tag, in terms of the text of the tag: type in lower case, own identifier, entity under the key for people or chats, name exactly if there is one |
| MessagePayloads.SentNotification | pybotx/client/notifications_api/direct_notification.py:95-106 | the inner record sends status and rewritten body always; metadata, the flags given, pruned markup and mentions exactly if there is something of them |
| MessagePayloads.SentRequest | pybotx/client/notifications_api/direct_notification.py:93-116 | chat, notification, file, recipients and options: each sent exactly if given, with the very values; a file with its name and with data that decodes to its content |
| MessagePayloads.DirectNotificationIsSent | pybotx/client/notifications_api/direct_notification.py:66-116 | it fails exactly on an overlong body or, with its error, on a bad mention; otherwise the rewritten body is sent, item by item with the mention each tag stands for, no mentions field without tags, and every other field as given |
| MessagePayloads.SentEdit | pybotx/client/events_api/edit_event.py:70-80 | when the payload of an edit vanishes, and what body, metadata, options, markup and mentions it sends |
| MessagePayloads.SentEditRequest | pybotx/client/events_api/edit_event.py:58-85 | the sync id is sent; the payload vanishes exactly if nothing of it is left; a file is kept, removed with a null, or replaced by one that decodes to its content; raw mentions are announced as true exactly if a mention was found |
| MessagePayloads.EditIsSent | pybotx/client/events_api/edit_event.py:47-85 | it fails exactly if the rewriting of a given body does; mentions are sent exactly if a body was given, item by item as its tags say, none for a body without tags; raw mentions are announced exactly if there is a tag; every other field, and the file, is as told |
| Base64.DecodeEncode | pybotx/models/attachments.py:388 | decoding encoded bytes gives all bytes back (section 4 of RFC 4648) |
| Base64Texts.Alphabet | pybotx/models/attachments.py:499 | the 64 characters of the encoder, in order |
| Base64Texts.EncodedGroup | pybotx/models/attachments.py:499 | group by group, four characters spell three bytes, most significant bits first, and `=` stands exactly where nothing is left to spell |
| Base64Texts.EncodeDecode | pybotx/models/attachments.py:388 | a text over the alphabet decodes exactly if its length is a multiple of four, and encoding gives it back |
| Base64Texts.NoiseIsSkipped | pybotx/models/attachments.py:388 | a character outside the alphabet is skipped wherever it stands |
| Base64Texts.EarlyPaddingIsSkipped | pybotx/models/attachments.py:388 | padding is skipped at the beginning of a group, and alone behind two of its characters |
| Base64Texts.DecodeBehindEncoding | pybotx/models/attachments.py:388 | behind padding nothing is read, behind an encoding without padding everything |
| Attachments.ExtensionOfName | pybotx/models/attachments.py:515 | the extension is what stands behind the last dot, or the whole name |
| Attachments.TypeOfName | pybotx/models/attachments.py:503-506 | the media type goes by what stands behind the last dot, or by the whole name, in lower case |
| MimetypeTable.WrittenType | pybotx/models/attachments.py:391-495 | the media type as it is written, by kind of file, and the default for an extension of no kind |
| Attachments.EncodedText | pybotx/models/attachments.py:498-525 | name and data of a sent attachment, the data as text |
| Attachments.DecodeEncodeRfc2397 | pybotx/models/attachments.py:383-388 | a data URL whose media type has no comma decodes to its content (section 3 of RFC 2397) |
| Attachments.DecodeBehindComma | pybotx/models/attachments.py:383-388 | any data is decoded from its first comma on; without a comma only the empty text decodes |
| Attachments.AttachmentRoundTrip | pybotx/models/attachments.py:391-525 | an attachment sent under any file name decodes to its bytes |
| Attachments.AttachmentExtension | pybotx/models/attachments.py:377-380 | the extension read from the data is the subtype of the media type chosen for the file name |
| Attachments.ExtensionBetweenSlashes | pybotx/models/attachments.py:377-380 | the extension is what stands between the first two slashes in front of the first semicolon |
| Buffers.GetFileSize | pybotx/buffer.py:23-27 | the size of the whole content, with the cursor rewound |
| Buffers.CopyInChunks | pybotx/client/files_api/upload_file.py:62-68 | the chunk loop ends and sends exactly what stood behind the cursor, for any pattern of short reads |
| Buffers.AddStickerImage | pybotx/client/client.py:1723-1735 | both checks, then the whole content is encoded, wherever the cursor was |
| Buffers.AcceptedSticker | pybotx/client/stickers_api/add_sticker.py:32-37 | an accepted image is at most 524288 bytes and decodes to the whole content |
| Buffers.StickerText | pybotx/client/client.py:1723-1735 | an accepted image is sent as a data URL of type image/png |
| Buffers.AddStickerFromStart | pybotx/client/client.py:1723-1735 | from the beginning of a buffer, an accepted image is the whole content, starts with the PNG signature and has at most 524288 bytes |
| Buffers.StickerIsPng | pybotx/image_validators.py:7-19 | when the checks refuse and why; with the cursor at the beginning, exactly content that starts with the eight bytes of the PNG signature and has at most 524288 bytes is accepted, unless the read was short |
| Buffers.CheckIsSoundAtStart | pybotx/image_validators.py:7-13 | the check keeps out content that is no PNG image exactly if the cursor is at the beginning, or so far behind that all such content is too large |
| Accounts.FindAccount | pybotx/bot/verification.py:197-213 | the first account with the id, or no account has it |
| Accounts.ClaimsOfToken | pybotx/auth.py:25-33 | the seven claims of a token and their values |
| TokenCache.BotAccountsStorage.GetBotAccount | pybotx/bot/bot_accounts_storage.py:22-27 | the search loop ends at the first account with the id |
| RequestVerification.SignedRequestIsVerified | pybotx/auth.py:14-35 | with a library that signs these claims with this key, a header signed at second t is accepted, for the very account, exactly while t - 1 <= now < t + 61, and unverified at other times |
| RequestVerification.SignedRequestsExist | pybotx/auth.py:14-35 | for every known account, all arguments and every moment in the time window there are a library and a header that is accepted for that account |
| RequestVerification.AcceptedIffVouchedFor | pybotx/bot/verification.py:17-194 | a characterisation of acceptance: a request is accepted for an account exactly if that account is the first with its id and the last word of the header is a token good under its key, in order now, and either with the id as issuer and the host as audience, or, not saying version 2, with the id as only audience and the host or a trusted issuer as issuer |
| RequestVerification.VersionNeedNotBeSaid | pybotx/bot/verification.py:66-136 | a good token with the id of an account as issuer and its host as audience is accepted for that account, whatever it says of its version |
| RequestVerification.Version2NeedsTextAudience | pybotx/bot/verification.py:72-122 | a token that says version 2 is never accepted with a list as audience |
| RequestVerification.OtherWaysOut | pybotx/bot/verification.py:40-213 | for each exception other than the documented one, exactly which requests raise it, in terms of the claims themselves: a blank header, an unknown bot, an audience that is no id, an issuer that cannot be hashed, a refused key, an unreadable time claim; and missing headers |
| RequestVerification.RejectedAsUnverified | pybotx/bot/verification.py:17-63 | a rejected request raises the documented error exactly if it is in none of the six families that raise another one |
| RequestVerification.ClaimVerdicts | pybotx/bot/verification.py:125-183 | the claim checks, made one after the other, pass exactly if all claims are in order, and raise an exception outside `InvalidTokenError` exactly if the first time claim out of order is one `int(...)` cannot read |
| RequestVerification.WholesOfClaims | pybotx/bot/verification.py:125-183 | which time claims stand for which whole number: numbers without their fraction, truth values as 1 and 0, numerals; null, lists, dictionaries and infinities raise |
| TokenCache.AuthorizedBotXMethod.AddAuthorizationHeaders | pybotx/client/authorized_botx_method.py:44-69 | what one call does to cache, warning flag and headers; in V2 the cache is neither read nor changed |
| TokenCache.HeadersOfARun | pybotx/client/authorized_botx_method.py:56-69 | in every run a call asks the server exactly if its bot has no token yet, and its header carries the first token the bot was ever given |
| TokenCache.OneTokenPerBot | pybotx/client/authorized_botx_method.py:56-69 | after one success no call of the bot asks again, and all its headers carry the same token |
| TokenCache.FailureIsRetried | pybotx/client/authorized_botx_method.py:57-63 | after a failed fetch the bot's next call asks again |
| TokenCache.BotsAreIndependent | pybotx/bot/bot_accounts_storage.py:39-43 | what a bot's calls experience is what they experience alone |
| TokenCache.PerformRun | pybotx/client/authorized_botx_method.py:44-69 | the objects, called in any sequence on a shared storage, behave as the run theorems say |
| Commands.Word | pybotx/models/message/incoming_message.py:106 | the longest front without whitespace |
| Text.SpaceTable | pybotx/models/message/incoming_message.py:106 | the whitespace characters, one by one |
| Commands.StripIsTrim | pybotx/models/message/incoming_message.py:111 | trimming removes whitespace from both ends only |
| Commands.ArgumentsAreWords | pybotx/models/message/incoming_message.py:113-115 | the arguments are the words behind the first so many characters, the second trimming having no effect |
| Commands.DispatchFailsOnBlank | pybotx/bot/resources/command_resource.py:126-130 | dispatching fails exactly on a body that is not empty and all whitespace |
| Commands.CommandIsFirstWord | pybotx/bot/resources/command_resource.py:126-130 | the key looked up is the first word, with only whitespace in front of it |
| Commands.BlankBody | pybotx/models/message/incoming_message.py:104-115 | a body without words has no argument and no arguments, and only the empty one can be dispatched |
| Commands.DispatchAgreesWithSplit | pybotx/models/message/incoming_message.py:104-115 | command and arguments are the words of the body exactly if the body does not start with whitespace |
| Commands.ArgumentIsTrimmedRemainder | pybotx/models/message/incoming_message.py:104-111 | for every body with a word, the argument is what stands behind as many characters as the command has, trimmed at its ends and untouched inside |
| IncomingMessages.ValidateItems | pybotx/models/message/incoming_message.py:222-234 | every dictionary stays, in order, validated or raw, and nothing else |
| IncomingMessages.ConvertReply | pybotx/models/message/incoming_message.py:187-201 | a reply converts exactly if no mention lacks data, with all its fields and its mentions in order |
| IncomingMessages.ConversionKeeps | pybotx/models/message/incoming_message.py:126-203 | a mention keeps its type, entity and name, a forward all its fields with its chat type converted, a reply all its fields; each is possible exactly without missing data |
| IncomingMessages.CollectEntities | pybotx/models/message/incoming_message.py:166-333 | mentions in order, the last forward with its chat type converted, the last reply; it fails exactly if a mention has no data |
| IncomingMessages.UnknownChangesNothing | pybotx/models/message/incoming_message.py:316-318 | an unknown dictionary changes nothing, wherever it stands |
| IncomingMessages.EntitiesOfRequest | pybotx/models/message/incoming_message.py:216-333 | from the raw list: the mentions are, in order and with type, entity and name, those of the dictionaries that fit a mention, forward and reply, field by field, those of the last dictionary that fits one; it fails exactly if a dictionary fits a mention or reply that lacks data |
| IncomingMessages.OneSlotPerAttachment | pybotx/models/message/incoming_message.py:285-311 | at most one of file, location, contact, link and sticker is set, and one exactly if the first attachment was recognised |
| IncomingMessages.AttachmentArrives | pybotx/models/attachments.py:260-374 | what the first attachment arrives as, kind by kind and field by field |
| IncomingMessages.AttachmentFails | pybotx/models/attachments.py:260-388 | the attachment fails exactly if it is a known file with data that has no comma or no base64 behind it, or a voice message without a slash in front of its first semicolon |
| IncomingMessages.EncodedFilesArrive | pybotx/models/attachments.py:294-325 | a file encoded by this library arrives with its bytes and size, a voice message named after its type |
| IncomingMessages.ToDomain | pybotx/models/message/incoming_message.py:244-333 | from both raw lists: the conversion fails exactly if the first attachment or an entity does, with the error of the attachment if both do; otherwise the message has the slots of the first attachment and the mentions, forward and reply of the entities |
| StickerPacks.Index | pybotx/client/stickers_api/sticker_pack.py:29 | the first position of an id |
| StickerPacks.SortIsStable | pybotx/client/stickers_api/sticker_pack.py:28-32 | the result is sorted by first position, and stickers with one id keep their order |
| StickerPacks.StableSortIsUnique | pybotx/client/stickers_api/sticker_pack.py:28-32 | no other list is sorted and stable |
| StickerPacks.SortedIdsFollowOrder | pybotx/client/stickers_api/sticker_pack.py:28-32 | with distinct ids, the ids of the result are the order without repetitions and without ids no sticker has |
| StickerPacks.WalkOfPermutation | pybotx/client/stickers_api/sticker_pack.py:28-32 | an order that names every sticker once is the result itself |
| StickerPacks.SortTwice | pybotx/client/stickers_api/sticker_pack.py:28-32 | sorting the sorted list changes nothing |
| StickerPacks.GetStickerPackResponse.ToDomain | pybotx/client/stickers_api/sticker_pack.py:26-47 | the list is sorted in place, or left alone without an order or on a missing id, and the pack lists it as it then is |
| StickerPacks.ToDomainTwice | pybotx/client/stickers_api/sticker_pack.py:26-47 | asking the same response twice gives the same pack twice |
| StickerPackPages.IterateByStickerPacks | pybotx/client/client.py:1781-1803 | against any server whose cursors end, the iteration ends, yields a prefix of all pages in order, all of it if consumed, and asks page by page, first without a cursor and then with that of the page before, no further than wanted |

## Left out

- HTTP transport, resources, logging and temporary files: input and output.
- Validation of models by pydantic: parsed values are inputs, and validation of one raw item is a parameter.
- JSON text: payloads are modelled as trees, up to the point where they are serialised.
- Signature bytes, JWT encoding and its algorithm header: what the library makes of a token is a parameter.
- `UUID(text)` on texts outside hexadecimal digits and dashes: the tag pattern admits no others, and request verification takes the parser as a parameter.
- The host of an account is given; how it is cut from the `cts_url` is not modelled.
- The device and sender records of an incoming message: field copying.
- The other API methods, system events, asynchronous files and enum tables: field copying and finite tables.
- The list handed to the constructor of a markup is copied into the object; in the code a non-empty list stays shared with the caller. Rows are shared in the model as in the code.
- The in-place sort is the library's: it stands for a stable sort, proved to be the only one, and the field is reassigned; other references to the list are not modelled.
- Conversion of attachments other than files beyond copying their fields.
