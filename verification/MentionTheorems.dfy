/** What the rewriting of embedded mentions guarantees. */
module MentionTheorems {
  import opened Results
  import opened Uuids
  import opened EmbedPattern
  import opened Mentions
  import opened MentionRewriter

  // ----- One simultaneous replacement -----

  /** The stretches of text between the matches: one more than there are matches. */
  function Gaps(s: string): (r: seq<string>)
    ensures |r| == |FindIter(s)| + 1
    decreases |s|
  {
    match Search(s)
    case None => [s]
    case Some(l) => [s[..l.start]] + Gaps(s[l.end..])
  }

  /** `gaps[0] items[0] gaps[1] items[1] ...` */
  function Weave(gaps: seq<string>, items: seq<string>): string
    requires |gaps| == |items| + 1
  {
    if items == [] then gaps[0] else gaps[0] + items[0] + Weave(gaps[1..], items[1..])
  }

  function Texts(matches: seq<EmbedMatch>): seq<string>
  {
    seq(|matches|, i requires 0 <= i < |matches| => matches[i].Text())
  }

  function Tokens(mentions: seq<BotXAPIMention>): seq<string>
  {
    seq(|mentions|, i requires 0 <= i < |mentions| => mentions[i].Token())
  }

  /** The match number `i` converts to this, with the identifier of its own `uuid4()` call. */
  ghost predicate ConvertsTo(matches: seq<EmbedMatch>, ids: nat -> Uuid, k: nat, mentions: seq<BotXAPIMention>)
  {
    && |mentions| == |matches|
    && forall i :: 0 <= i < |matches| ==> BuildBotXAPIEmbedMention(matches[i], ids(k + i)) == Success(mentions[i])
  }

  lemma {:induction false} WeaveCons(gap: string, gaps: seq<string>, item: string, items: seq<string>)
    requires |gaps| == |items| + 1
    ensures Weave([gap] + gaps, [item] + items) == gap + item + Weave(gaps, items)
  {
    assert ([gap] + gaps)[1..] == gaps && ([item] + items)[1..] == items;
  }

  lemma {:induction false} TextsCons(m: EmbedMatch, ms: seq<EmbedMatch>)
    ensures Texts([m] + ms) == [m.Text()] + Texts(ms)
  {
  }

  lemma {:induction false} TokensCons(m: BotXAPIMention, ms: seq<BotXAPIMention>)
    ensures Tokens([m] + ms) == [m.Token()] + Tokens(ms)
  {
  }

  /** Cutting a text at its leftmost match. */
  lemma {:induction false} CutAtMatch(s: string) returns (l: Located, gap: string, rest: string)
    requires Search(s).Some?
    ensures l == Search(s).value && gap == s[..l.start] && rest == s[l.end..] && |rest| < |s|
    ensures s == gap + l.found.Text() + rest
    ensures FindIter(s) == [l.found] + FindIter(rest)
    ensures Gaps(s) == [gap] + Gaps(rest)
  {
    hide MatchAtFront, EmbedMatch.Text;
    l := Search(s).value;
    gap, rest := s[..l.start], s[l.end..];
    assert s == gap + s[l.start..l.end] + rest;
  }

  /** The gaps and the matches make up the text. */
  lemma {:induction false} TextIsWoven(s: string)
    ensures Weave(Gaps(s), Texts(FindIter(s))) == s
    decreases |s|
  {
    hide MatchAtFront, EmbedMatch.Text;
    if Search(s).None? {
    } else {
      var l, gap, rest := CutAtMatch(s);
      TextIsWoven(rest);
      TextsCons(l.found, FindIter(rest));
      WeaveCons(gap, Gaps(rest), l.found.Text(), Texts(FindIter(rest)));
    }
  }

  lemma {:induction false} ConvertsToCons(
    m: EmbedMatch, ms: seq<EmbedMatch>, ids: nat -> Uuid, k: nat, mention: BotXAPIMention,
    mentions: seq<BotXAPIMention>)
    requires BuildBotXAPIEmbedMention(m, ids(k)) == Success(mention)
    requires ConvertsTo(ms, ids, k + 1, mentions)
    ensures ConvertsTo([m] + ms, ids, k, [mention] + mentions)
  {
    hide BuildBotXAPIEmbedMention;
    forall i | 0 <= i < |ms| + 1
      ensures BuildBotXAPIEmbedMention(([m] + ms)[i], ids(k + i)) == Success(([mention] + mentions)[i])
    {
      if i > 0 {
        assert BuildBotXAPIEmbedMention(ms[i - 1], ids(k + 1 + (i - 1))) == Success(mentions[i - 1]);
      }
    }
  }

  /**
   When the rewriting succeeds, every match was converted and replaced by its token, and the gaps are
   as they were.
   */
  lemma {:induction false} RewriteIsSplice(s: string, ids: nat -> Uuid, k: nat)
    requires Rewrite(s, ids, k).Success?
    ensures var w := Rewrite(s, ids, k).value;
      && ConvertsTo(FindIter(s), ids, k, w.mentions)
      && w.body == Weave(Gaps(s), Tokens(w.mentions))
    decreases |s|
  {
    hide MatchAtFront, EmbedMatch.Text, BuildBotXAPIEmbedMention, BotXAPIMention.Token, Rewrite;
    RewriteUnfolds(s, ids, k);
    if Search(s).None? {
    } else {
      var l, gap, rest := CutAtMatch(s);
      RewriteIsSplice(rest, ids, k + 1);
      var v := Rewrite(rest, ids, k + 1).value;
      var mention := BuildBotXAPIEmbedMention(l.found, ids(k)).value;
      ConvertsToCons(l.found, FindIter(rest), ids, k, mention, v.mentions);
      TokensCons(mention, v.mentions);
      WeaveCons(gap, Gaps(rest), mention.Token(), Tokens(v.mentions));
    }
  }

  /** The tokens of the matches, told from their types alone. */
  function TokenTexts(matches: seq<EmbedMatch>, ids: nat -> Uuid, k: nat): (r: seq<string>)
    ensures |r| == |matches|
  {
    seq(|matches|, i requires 0 <= i < |matches| => TokenText(matches[i].mentionType, ids(k + i)))
  }

  /** The rewritten text, told from the gaps, the types of the tags and the identifiers alone. */
  lemma {:induction false} RewrittenText(s: string, ids: nat -> Uuid, k: nat)
    requires Rewrite(s, ids, k).Success?
    ensures Rewrite(s, ids, k).value.body == Weave(Gaps(s), TokenTexts(FindIter(s), ids, k))
  {
    hide Rewrite, Weave, Gaps, TokenText, BuildBotXAPIEmbedMention, BotXAPIMention.Token, FindIter;
    RewriteIsSplice(s, ids, k);
    TokensAreTold(FindIter(s), ids, k, Rewrite(s, ids, k).value.mentions);
  }

  lemma {:induction false} TokensAreTold(
    matches: seq<EmbedMatch>, ids: nat -> Uuid, k: nat, mentions: seq<BotXAPIMention>)
    requires ConvertsTo(matches, ids, k, mentions)
    ensures Tokens(mentions) == TokenTexts(matches, ids, k)
  {
    hide TokenText, BuildBotXAPIEmbedMention, BotXAPIMention.Token;
    forall i | 0 <= i < |matches| ensures Tokens(mentions)[i] == TokenTexts(matches, ids, k)[i] {
      assert BuildBotXAPIEmbedMention(matches[i], ids(k + i)) == Success(mentions[i]);
      TokenOfTag(matches[i], ids(k + i), mentions[i]);
    }
  }

  /** The match number `i` is the first that does not convert. */
  ghost predicate FirstFailure(matches: seq<EmbedMatch>, ids: nat -> Uuid, k: nat, i: nat, error: MentionError)
  {
    && i < |matches|
    && BuildBotXAPIEmbedMention(matches[i], ids(k + i)) == Failure(error)
    && forall j :: 0 <= j < i ==> BuildBotXAPIEmbedMention(matches[j], ids(k + j)).Success?
  }

  lemma {:induction false} FirstFailureCons(
    m: EmbedMatch, ms: seq<EmbedMatch>, ids: nat -> Uuid, k: nat, i: nat, error: MentionError)
    requires BuildBotXAPIEmbedMention(m, ids(k)).Success?
    ensures FirstFailure([m] + ms, ids, k, i, error) <==> i > 0 && FirstFailure(ms, ids, k + 1, i - 1, error)
  {
    hide BuildBotXAPIEmbedMention;
    var all := [m] + ms;
    assert forall j :: 0 <= j < |ms| ==> all[j + 1] == ms[j] && k + (j + 1) == k + 1 + j;
    if i > 0 && FirstFailure(ms, ids, k + 1, i - 1, error) {
      forall j | 0 <= j < i ensures BuildBotXAPIEmbedMention(all[j], ids(k + j)).Success? {
        if j > 0 { assert all[j] == ms[j - 1]; }
      }
    }
  }

  /** The rewriting fails exactly on the first match that does not convert, with the error of that match. */
  lemma {:induction false} RewriteFailsAtFirst(s: string, ids: nat -> Uuid, k: nat, error: MentionError)
    ensures Rewrite(s, ids, k) == Failure(error) <==> exists i :: FirstFailure(FindIter(s), ids, k, i, error)
    decreases |s|
  {
    hide MatchAtFront, EmbedMatch.Text, BuildBotXAPIEmbedMention, BotXAPIMention.Token, Rewrite;
    RewriteUnfolds(s, ids, k);
    var ms := FindIter(s);
    if Search(s).None? {
    } else {
      var l, gap, rest := CutAtMatch(s);
      if BuildBotXAPIEmbedMention(l.found, ids(k)).Failure? {
        assert FirstFailure(ms, ids, k, 0, error) <==> Rewrite(s, ids, k) == Failure(error);
      } else {
        var ns, k' := FindIter(rest), k + 1;
        RewriteFailsAtFirst(rest, ids, k', error);
        hide FirstFailure;
        forall i: nat ensures FirstFailure(ms, ids, k, i, error) <==> i > 0 && FirstFailure(ns, ids, k', i - 1, error) {
          FirstFailureCons(l.found, ns, ids, k, i, error);
        }
        if i: nat :| FirstFailure(ns, ids, k', i, error) {
          assert FirstFailure(ms, ids, k, i + 1, error);
        }
      }
    }
  }

  // ----- Nothing is left to rewrite -----

  lemma {:induction false} NoMatchIsFormed(done: string, rest: string, ids: nat -> Uuid, k: nat)
    requires Sealed(done) && Rewrite(rest, ids, k).Success?
    ensures Search(done + Rewrite(rest, ids, k).value.body).None?
    decreases |rest|
  {
    hide MatchAtFront, EmbedMatch.Text, BuildBotXAPIEmbedMention, BotXAPIMention.Token, Rewrite, Sealed, Search;
    RewriteUnfolds(rest, ids, k);
    if Search(rest).None? {
      var found := Search(done + rest);
      if found.Some? {
        MatchBehindSealed(done, rest, found.value.start);
      }
    } else {
      var l := Search(rest).value;
      var gap, rest' := rest[..l.start], rest[l.end..];
      var mention := BuildBotXAPIEmbedMention(l.found, ids(k)).value;
      TokenShape(mention);
      SealNextGap(done, rest, mention.Token());
      NoMatchIsFormed(done + (gap + mention.Token()), rest', ids, k + 1);
      var tail := Rewrite(rest', ids, k + 1).value.body;
      assert done + (gap + mention.Token()) + tail == done + (gap + mention.Token() + tail);
    }
  }

  /** The rewritten text holds no match, not even one formed around a token: rewriting it again changes nothing. */
  lemma {:induction false} RewriteIsComplete(s: string, ids: nat -> Uuid, k: nat, ids': nat -> Uuid, k': nat)
    requires Rewrite(s, ids, k).Success?
    ensures var w := Rewrite(s, ids, k).value;
      && FindIter(w.body) == []
      && Rewrite(w.body, ids', k') == Success(Rewritten(w.body, []))
  {
    EmptyIsSealed();
    NoMatchIsFormed("", s, ids, k);
    assert "" + Rewrite(s, ids, k).value.body == Rewrite(s, ids, k).value.body;
  }
}
