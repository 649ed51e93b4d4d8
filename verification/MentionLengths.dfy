/** How the length of a text changes when its mentions are rewritten. */
module MentionLengths {
  import opened Results
  import opened Uuids
  import opened EmbedPattern
  import opened Mentions
  import opened MentionRewriter
  import opened MentionTheorems
  import opened MentionRoundTrip

  const MAX_NOTIFICATION_BODY_LENGTH: nat := 4096

  /** What 113 = 4096 / 36 of the shortest tags can grow by. */
  const LONGEST_REWRITTEN_BODY: nat := 4096 + 11 * 113

  function TotalText(matches: seq<EmbedMatch>): nat
  {
    if matches == [] then 0 else |matches[0].Text()| + TotalText(matches[1..])
  }

  function TotalTokens(mentions: seq<BotXAPIMention>): nat
  {
    if mentions == [] then 0 else |mentions[0].Token()| + TotalTokens(mentions[1..])
  }

  /** The mentions that address everyone, and those that address one entity. */
  function CountAll(mentions: seq<BotXAPIMention>): nat
  {
    if mentions == [] then 0 else (if mentions[0].BotXAPIAllMention? then 1 else 0) + CountAll(mentions[1..])
  }

  function CountTargeted(mentions: seq<BotXAPIMention>): nat
  {
    if mentions == [] then 0 else (if mentions[0].BotXAPIAllMention? then 0 else 1) + CountTargeted(mentions[1..])
  }

  /** A tag that names an entity is longer than its token; an ALL tag may be shorter, by 11 at most. */
  lemma {:induction false} TagAndToken(g: EmbedMatch, id: Uuid, mention: BotXAPIMention)
    requires BuildBotXAPIEmbedMention(g, id) == Success(mention)
    ensures if mention.BotXAPIAllMention? then 36 <= |g.Text()| && |mention.Token()| == 47
            else 69 <= |g.Text()| && |mention.Token()| + 21 <= |g.Text()|
  {
    hide BotXAPIMention.Token;
    TokenShape(mention);
    var t := TypeOfValue(g.mentionType).value;
    assert |t.Value()| == match t { case CONTACT => 7 case CHAT => 4 case CHANNEL => 7 case USER => 4 case ALL => 3 };
  }

  /** The rewritten text is longer by the tokens and shorter by the matches, and by nothing else. */
  lemma {:induction false} LengthAccounting(s: string, ids: nat -> Uuid, k: nat)
    requires Rewrite(s, ids, k).Success?
    ensures var w := Rewrite(s, ids, k).value;
      |w.body| + TotalText(FindIter(s)) == |s| + TotalTokens(w.mentions)
    decreases |s|
  {
    hide MatchAtFront, EmbedMatch.Text, BuildBotXAPIEmbedMention, BotXAPIMention.Token, Rewrite;
    RewriteUnfolds(s, ids, k);
    if Search(s).None? {
    } else {
      var l, gap, rest := CutAtMatch(s);
      LengthAccounting(rest, ids, k + 1);
      var v := Rewrite(rest, ids, k + 1).value;
      var mention := BuildBotXAPIEmbedMention(l.found, ids(k)).value;
      assert ([mention] + v.mentions)[1..] == v.mentions;
    }
  }

  lemma {:induction false} ConvertsToRest(
    matches: seq<EmbedMatch>, ids: nat -> Uuid, k: nat, mentions: seq<BotXAPIMention>)
    requires ConvertsTo(matches, ids, k, mentions) && matches != []
    ensures BuildBotXAPIEmbedMention(matches[0], ids(k)) == Success(mentions[0])
    ensures ConvertsTo(matches[1..], ids, k + 1, mentions[1..])
  {
    hide BuildBotXAPIEmbedMention;
    assert BuildBotXAPIEmbedMention(matches[0], ids(k + 0)) == Success(mentions[0]);
    forall i | 0 <= i < |matches| - 1
      ensures BuildBotXAPIEmbedMention(matches[1..][i], ids(k + 1 + i)) == Success(mentions[1..][i])
    {
      assert BuildBotXAPIEmbedMention(matches[i + 1], ids(k + (i + 1))) == Success(mentions[i + 1]);
    }
  }

  lemma {:induction false} CountedLengths(
    matches: seq<EmbedMatch>, ids: nat -> Uuid, k: nat, mentions: seq<BotXAPIMention>)
    requires ConvertsTo(matches, ids, k, mentions)
    ensures 36 * CountAll(mentions) + 69 * CountTargeted(mentions) <= TotalText(matches)
    ensures TotalTokens(mentions) + 21 * CountTargeted(mentions) <= TotalText(matches) + 11 * CountAll(mentions)
  {
    hide EmbedMatch.Text, BuildBotXAPIEmbedMention, BotXAPIMention.Token;
    if matches == [] {
    } else {
      ConvertsToRest(matches, ids, k, mentions);
      TagAndToken(matches[0], ids(k), mentions[0]);
      CountedLengths(matches[1..], ids, k + 1, mentions[1..]);
    }
  }

  lemma {:induction false} MatchesFitInText(s: string)
    ensures TotalText(FindIter(s)) <= |s|
    decreases |s|
  {
    hide MatchAtFront, EmbedMatch.Text;
    if Search(s).None? {
    } else {
      var l, gap, rest := CutAtMatch(s);
      MatchesFitInText(rest);
    }
  }

  /** What the tokens of these matches take, told from the types they name. */
  function TokenTotal(matches: seq<EmbedMatch>): nat
  {
    if matches == [] then 0
    else (if matches[0].mentionType in ["USER", "ALL"] then 47 else 48) + TokenTotal(matches[1..])
  }

  lemma {:induction false} TokenOfMatch(g: EmbedMatch, id: Uuid, mention: BotXAPIMention)
    requires BuildBotXAPIEmbedMention(g, id) == Success(mention)
    ensures |mention.Token()| == if g.mentionType in ["USER", "ALL"] then 47 else 48
  {
    hide BotXAPIMention.Token, Parse;
    TokenShape(mention);
  }

  lemma {:induction false} TokenTotalIsTotal(
    matches: seq<EmbedMatch>, ids: nat -> Uuid, k: nat, mentions: seq<BotXAPIMention>)
    requires ConvertsTo(matches, ids, k, mentions)
    ensures TotalTokens(mentions) == TokenTotal(matches)
  {
    hide BuildBotXAPIEmbedMention, BotXAPIMention.Token;
    if matches == [] {
    } else {
      ConvertsToRest(matches, ids, k, mentions);
      TokenOfMatch(matches[0], ids(k), mentions[0]);
      TokenTotalIsTotal(matches[1..], ids, k + 1, mentions[1..]);
    }
  }

  /**
   The rewritten text is within the limit exactly if the tokens of its matches, whose lengths can be
   told from the types, take no more than the matches and the unused part of the limit.
   */
  lemma {:induction false} RewrittenStaysWithinLimit(s: string, ids: nat -> Uuid, k: nat)
    requires Rewrite(s, ids, k).Success?
    ensures |Rewrite(s, ids, k).value.body| <= MAX_NOTIFICATION_BODY_LENGTH
       <==> |s| + TokenTotal(FindIter(s)) <= MAX_NOTIFICATION_BODY_LENGTH + TotalText(FindIter(s))
  {
    hide Rewrite, ConvertsTo;
    RewriteIsSplice(s, ids, k);
    LengthAccounting(s, ids, k);
    TokenTotalIsTotal(FindIter(s), ids, k, Rewrite(s, ids, k).value.mentions);
  }

  /** Every ALL mention costs at least 36 characters and brings at most 11; every other one gives back at least 21. */
  lemma {:induction false} LengthBound(s: string, ids: nat -> Uuid, k: nat)
    requires Rewrite(s, ids, k).Success?
    ensures var w := Rewrite(s, ids, k).value;
      && |w.body| + 21 * CountTargeted(w.mentions) <= |s| + 11 * CountAll(w.mentions)
      && 36 * CountAll(w.mentions) + 69 * CountTargeted(w.mentions) <= |s|
  {
    hide Rewrite;
    RewriteIsSplice(s, ids, k);
    LengthAccounting(s, ids, k);
    CountedLengths(FindIter(s), ids, k, Rewrite(s, ids, k).value.mentions);
    MatchesFitInText(s);
  }

  /**
   A text within the limit may be rewritten to one beyond it, but not beyond 5339 characters, and not
   without ALL mentions.
   */
  lemma {:induction false} AcceptedBodyBound(s: string, ids: nat -> Uuid, k: nat)
    requires |s| <= MAX_NOTIFICATION_BODY_LENGTH
    requires Rewrite(s, ids, k).Success?
    ensures |Rewrite(s, ids, k).value.body| <= LONGEST_REWRITTEN_BODY == 5339
    ensures CountAll(Rewrite(s, ids, k).value.mentions) == 0 ==> |Rewrite(s, ids, k).value.body| <= |s|
  {
    hide Rewrite;
    LengthBound(s, ids, k);
  }

  // ----- The bound is met -----

  function AllChunks(n: nat): (r: seq<Chunk>)
    ensures |r| == n
  {
    seq(n, _ => Chunk("", MentionAll))
  }

  lemma {:induction false} AllTagLength()
    ensures |MentionAll.Print()| == 36
  {
    PrintIsTag(MentionAll);
  }

  lemma {:induction false} AllChunksLengths(n: nat, tail: string, ids: nat -> Uuid, k: nat)
    ensures |PrintDocument(AllChunks(n), tail)| == 36 * n + |tail|
    ensures |Wanted(AllChunks(n), tail, ids, k).body| == 47 * n + |tail|
  {
    hide MatchAtFront, Mention.Print, Mention.Groups, BotXAPIMention.Token;
    if n == 0 {
    } else {
      assert AllChunks(n)[1..] == AllChunks(n - 1);
      AllChunksLengths(n - 1, tail, ids, k + 1);
      TokenShape(BotXAPIAllMention(ids(k)));
      AllTagLength();
    }
  }

  /** There is a text of exactly 4096 characters whose rewriting has exactly 5339. */
  lemma {:induction false} LengthBoundIsMet(ids: nat -> Uuid) returns (s: string)
    ensures |s| == MAX_NOTIFICATION_BODY_LENGTH
    ensures Rewrite(s, ids, 0).Success? && |Rewrite(s, ids, 0).value.body| == LONGEST_REWRITTEN_BODY
  {
    hide MatchAtFront, Rewrite, Inert;
    var chunks, tail := AllChunks(113), seq(28, _ => ' ');
    s := PrintDocument(chunks, tail);
    AllChunksLengths(113, tail, ids, 0);
    PlainTextIsInert("");
    PlainTextIsInert(tail);
    DocumentRoundTrip(chunks, tail, ids, 0);
  }
}
