/**
 `find_and_replace_embed_mentions`: a loop that rewrites a changing text, and the simultaneous
 replacement it amounts to.
 */
module MentionRewriter {
  import opened Results
  import opened LazyRegex
  import opened Sequences
  import opened Text
  import opened Uuids
  import opened EmbedPattern
  import opened Mentions

  datatype Rewritten = Rewritten(body: string, mentions: seq<BotXAPIMention>)

  /**
   All matches replaced at once: the text between matches is copied, the match number `k + i`
   becomes the token of its mention. `ids(n)` is what the call number `n` of `uuid4()` returns.
   */
  function Rewrite(s: string, ids: nat -> Uuid, k: nat): Result<Rewritten, MentionError>
    decreases |s|
  {
    match Search(s)
    case None => Success(Rewritten(s, []))
    case Some(l) =>
      match BuildBotXAPIEmbedMention(l.found, ids(k))
      case Failure(e) => Failure(e)
      case Success(mention) =>
        Prepend(s[..l.start] + mention.Token(), [mention], Rewrite(s[l.end..], ids, k + 1))
  }

  function Prepend(front: string, mentions: seq<BotXAPIMention>, r: Result<Rewritten, MentionError>)
    : Result<Rewritten, MentionError>
  {
    match r
    case Failure(e) => Failure(e)
    case Success(w) => Success(Rewritten(front + w.body, mentions + w.mentions))
  }

  // ----- Text in which no match can start, whatever follows -----

  /** No match lies in `u`, and behind every opening tag in `u` there is a newline in `u`. */
  predicate Inert(u: string)
  {
    && (forall i | 0 <= i <= |u| :: !HasMatchAt(u, i))
    && (forall i | 0 <= i <= |u| :: OccursAt(u, OPEN_TAG, i) ==> '\n' in u[i..])
  }

  /** Moreover, no opening tag can begin in `u` and end behind it. */
  ghost predicate Sealed(u: string)
  {
    Inert(u) && (u != "" ==> u[|u| - 1] !in OPEN_TAG)
  }

  lemma {:induction false} NoNewlineConcat(a: string, b: string)
    requires AllIn(NotNewline, a) && (AllIn(NotNewline, b) || AllIn(HexOrDash, b))
    ensures AllIn(NotNewline, a + b)
  {
  }

  lemma {:induction false} TagHasNoNewline(m: EmbedMatch)
    requires m.WellFormed()
    ensures AllIn(NotNewline, m.Text())
  {
    assert AllIn(NotNewline, OPEN_TAG) && AllIn(NotNewline, ":") && AllIn(NotNewline, CLOSE_TAG);
    NoNewlineConcat(m.name, CLOSE_TAG);
    NoNewlineConcat(":", m.name + CLOSE_TAG);
    NoNewlineConcat(m.entityId, ":" + (m.name + CLOSE_TAG));
    NoNewlineConcat(":", m.entityId + (":" + (m.name + CLOSE_TAG)));
    NoNewlineConcat(m.mentionType, ":" + (m.entityId + (":" + (m.name + CLOSE_TAG))));
    NoNewlineConcat(OPEN_TAG, m.mentionType + (":" + (m.entityId + (":" + (m.name + CLOSE_TAG)))));
  }

  lemma {:induction false} TagEndsBeforeNewline(s: string, m: EmbedMatch, n: nat)
    requires m.WellFormed() && m.Text() <= s
    requires n < |s| && s[n] == '\n'
    ensures |m.Text()| <= n
  {
    TagHasNoNewline(m);
    assert forall x | 0 <= x < |m.Text()| :: m.Text()[x] in m.Text() && m.Text()[x] == s[x];
  }

  /** A match that starts in `u` with its whole opening tag in `u` also ends in `u`: impossible in an inert text. */
  lemma {:induction false} NoMatchAcross(u: string, t: string, i: nat)
    requires Inert(u) && OccursAt(u, OPEN_TAG, i)
    ensures !HasMatchAt(u + t, i)
  {
    var s := (u + t)[i..];
    assert s == u[i..] + t;
    assert !HasMatchAt(u, i);
    if MatchAtFront(s).Some? {
      MatchIsTag(s);
      var m := MatchAtFront(s).value;
      var n :| 0 <= n < |u[i..]| && u[i..][n] == '\n';
      TagEndsBeforeNewline(s, m, n);
      assert m.Text() == s[..|m.Text()|] == u[i..][..|m.Text()|];
      TagIsMatched(u[i..], m);
    }
  }

  lemma {:induction false} MatchStartsWithOpenTag(s: string, i: nat)
    requires HasMatchAt(s, i)
    ensures OccursAt(s, OPEN_TAG, i)
  {
    MatchIsTag(s[i..]);
  }

  /** An opening tag that begins in `u` ends in `u`, when the characters at the seam do not allow otherwise. */
  lemma {:induction false} OpenTagEndsInside(u: string, t: string, i: nat)
    requires OccursAt(u + t, OPEN_TAG, i) && i < |u|
    requires u[|u| - 1] !in OPEN_TAG || t == "" || t[0] !in OPEN_TAG[1..]
    ensures OccursAt(u, OPEN_TAG, i)
  {
    var whole := i + |OPEN_TAG| <= |u|;
    var last, next := if whole then 0 else |u| - 1 - i, if whole || t == "" then 1 else |u| - i;
    assert (u + t)[i..][last] == OPEN_TAG[last];
    assert (u + t)[i..][next] == OPEN_TAG[next];
    assert OPEN_TAG[1..][next - 1] == OPEN_TAG[next];
    assert (u + t)[i..] == u[i..] + t;
  }

  /** Behind a sealed text, matches start where they start without it. */
  lemma {:induction false} MatchBehindSealed(u: string, t: string, i: nat)
    requires Sealed(u) && HasMatchAt(u + t, i)
    ensures |u| <= i && HasMatchAt(t, i - |u|)
  {
    MatchStartsWithOpenTag(u + t, i);
    if i < |u| {
      OpenTagEndsInside(u, t, i);
      NoMatchAcross(u, t, i);
    } else {
      assert (u + t)[i..] == t[i - |u|..];
    }
  }

  /** If a tag follows on the same line, the pattern's type group swallows the text between. */
  lemma {:induction false} TypeGroupAbsorbs(between: string, t: string)
    requires AllIn(NotNewline, between)
    requires MatchAtFront(t).Some?
    ensures MatchAtFront(OPEN_TAG + between + t).Some?
  {
    MatchIsTag(t);
    var m := MatchAtFront(t).value;
    var k := EmbedMatch(between + OPEN_TAG + m.mentionType, m.entityId, m.name);
    hide MatchAtFront;
    var behind := m.entityId + (":" + (m.name + CLOSE_TAG));
    RegroupFour(between, OPEN_TAG, m.mentionType, ":" + behind);
    Regroup(OPEN_TAG, between, m.Text());
    assert t == m.Text() + t[|m.Text()|..];
    Regroup(OPEN_TAG + between, m.Text(), t[|m.Text()|..]);
    TagIsMatched(OPEN_TAG + between + t, k);
  }

  /** The text in front of the leftmost match is inert. */
  lemma {:induction false} GapIsInert(s: string, start: nat)
    requires HasMatchAt(s, start)
    requires forall j: nat :: j < start ==> !HasMatchAt(s, j)
    ensures Inert(s[..start])
  {
    var u, t := s[..start], s[start..];
    assert s == u + t;
    forall i | 0 <= i <= |u| ensures !HasMatchAt(u, i) {
      assert s[i..] == u[i..] + t;
      assert i < start ==> !HasMatchAt(s, i);
      if HasMatchAt(u, i) {
        MatchIsTag(u[i..]);
        TagIsMatched(s[i..], MatchAtFront(u[i..]).value);
      }
    }
    forall i | 0 <= i <= |u| && OccursAt(u, OPEN_TAG, i) ensures '\n' in u[i..] {
      var between := u[i + |OPEN_TAG|..];
      assert u[i..] == OPEN_TAG + between;
      assert s[i..] == OPEN_TAG + between + t;
      assert !HasMatchAt(s, i);
      if '\n' !in between {
        TypeGroupAbsorbs(between, t);
      } else {
        var n :| 0 <= n < |between| && between[n] == '\n';
        assert u[i..][|OPEN_TAG| + n] == '\n';
      }
    }
  }

  /** An opening tag that begins in a sealed text lies in it, and no match starts there. */
  lemma {:induction false} TagInSealed(u: string, t: string, i: nat)
    requires Sealed(u) && i < |u| && OccursAt(u + t, OPEN_TAG, i)
    ensures '\n' in (u + t)[i..] && !HasMatchAt(u + t, i)
  {
    hide MatchAtFront;
    OpenTagEndsInside(u, t, i);
    NoMatchAcross(u, t, i);
    assert (u + t)[i..] == u[i..] + t;
  }

  /** The same of an inert text with a token behind it: no opening tag begins in the token. */
  lemma {:induction false} TagInFrontOfToken(gap: string, token: string, i: nat)
    requires Inert(gap) && IsToken(token) && OccursAt(gap + token, OPEN_TAG, i)
    ensures '\n' in (gap + token)[i..] && !HasMatchAt(gap + token, i)
  {
    hide MatchAtFront;
    var w := gap + token;
    assert w[i..][0] == '<';
    assert forall x | |gap| <= x < |w| :: w[x] in token;
    OpenTagEndsInside(gap, token, i);
    NoMatchAcross(gap, token, i);
    assert w[i..] == gap[i..] + token;
  }

  /** A sealed text, an inert gap and a token make a sealed text. */
  lemma {:induction false} SealWithToken(u: string, gap: string, token: string)
    requires Sealed(u) && Inert(gap) && IsToken(token)
    ensures Sealed(u + gap + token)
  {
    var w := u + (gap + token);
    Regroup(u, gap, token);
    forall i | 0 <= i <= |w| && OccursAt(w, OPEN_TAG, i)
      ensures '\n' in w[i..] && !HasMatchAt(w, i)
    {
      if i < |u| {
        TagInSealed(u, gap + token, i);
      } else {
        assert w[i..] == (gap + token)[i - |u|..];
        TagInFrontOfToken(gap, token, i - |u|);
      }
    }
    forall i | 0 <= i <= |w| ensures !HasMatchAt(w, i) {
      if HasMatchAt(w, i) {
        MatchStartsWithOpenTag(w, i);
      }
    }
    hide HasMatchAt, OccursAt;
    assert w[|w| - 1] == token[|token| - 1];
  }

  /** An occurrence of a match's text is itself the start of a match. */
  lemma {:induction false} OccurrenceIsMatch(s: string, m: EmbedMatch, i: nat)
    requires m.WellFormed() && OccursAt(s, m.Text(), i)
    ensures HasMatchAt(s, i)
  {
    TagIsMatched(s[i..], m);
  }

  /** Behind a sealed text, the first occurrence of the text of the next match is that match. */
  lemma {:induction false} FirstOccurrenceIsTheMatch(u: string, rest: string)
    requires Sealed(u) && Search(rest).Some?
    ensures var l := Search(rest).value;
      && OccursAt(u + rest, l.found.Text(), |u| + l.start)
      && forall j: nat :: j < |u| + l.start ==> !OccursAt(u + rest, l.found.Text(), j)
  {
    var l := Search(rest).value;
    MatchIsTag(rest[l.start..]);
    assert (u + rest)[|u| + l.start..] == rest[l.start..];
    forall j: nat | j < |u| + l.start ensures !OccursAt(u + rest, l.found.Text(), j) {
      if OccursAt(u + rest, l.found.Text(), j) {
        OccurrenceIsMatch(u + rest, l.found, j);
        MatchBehindSealed(u, rest, j);
      }
    }
  }

  // ----- The loop -----

  lemma {:induction false} PrependNothing(r: Result<Rewritten, MentionError>)
    ensures Prepend("", [], r) == r
  {
    if r.Success? {
      assert "" + r.value.body == r.value.body && [] + r.value.mentions == r.value.mentions;
    }
  }

  lemma {:induction false} PrependTwice(
    a: string, ms: seq<BotXAPIMention>, b: string, ns: seq<BotXAPIMention>, r: Result<Rewritten, MentionError>)
    ensures Prepend(a, ms, Prepend(b, ns, r)) == Prepend(a + b, ms + ns, r)
  {
    if r.Success? {
      assert a + (b + r.value.body) == (a + b) + r.value.body;
      assert ms + (ns + r.value.mentions) == (ms + ns) + r.value.mentions;
    }
  }

  /** One step of `Rewrite`, as the proofs use it. */
  lemma {:induction false} RewriteUnfolds(s: string, ids: nat -> Uuid, k: nat)
    ensures Search(s).None? ==> Rewrite(s, ids, k) == Success(Rewritten(s, []))
    ensures Search(s).Some? ==>
      var l := Search(s).value;
      match BuildBotXAPIEmbedMention(l.found, ids(k))
      case Failure(e) => Rewrite(s, ids, k) == Failure(e)
      case Success(mention) =>
        Rewrite(s, ids, k) == Prepend(s[..l.start] + mention.Token(), [mention], Rewrite(s[l.end..], ids, k + 1))
  {
    hide MatchAtFront, BuildBotXAPIEmbedMention, BotXAPIMention.Token, Prepend;
  }

  lemma {:induction false} ReplaceAtSeam(done: string, rest: string, found: string, token: string, start: nat)
    requires start + |found| <= |rest|
    requires OccursAt(done + rest, found, |done| + start)
    requires forall j: nat :: j < |done| + start ==> !OccursAt(done + rest, found, j)
    ensures ReplaceFirst(done + rest, found, token) == done + (rest[..start] + token) + rest[start + |found|..]
  {
    var at := |done| + start;
    ReplaceFirstAt(done + rest, found, token, at);
    assert (done + rest)[..at] == done + rest[..start];
    assert (done + rest)[at + |found|..] == rest[start + |found|..];
  }

  /** One round: the replacement hits the next match and leaves a longer sealed text in front of the remaining one. */
  lemma {:induction false} ReplacementHitsTheMatch(done: string, rest: string, token: string)
    requires Sealed(done) && Search(rest).Some? && IsToken(token)
    ensures var l := Search(rest).value;
            var done' := done + (rest[..l.start] + token);
            && ReplaceFirst(done + rest, l.found.Text(), token) == done' + rest[l.end..]
            && Sealed(done')
  {
    hide MatchAtFront, EmbedMatch.Text, Sealed, ReplaceFirst;
    var l := Search(rest).value;
    FirstOccurrenceIsTheMatch(done, rest);
    ReplaceAtSeam(done, rest, l.found.Text(), token, l.start);
    SealNextGap(done, rest, token);
  }

  lemma {:induction false} SealNextGap(done: string, rest: string, token: string)
    requires Sealed(done) && Search(rest).Some? && IsToken(token)
    ensures Sealed(done + (rest[..Search(rest).value.start] + token))
  {
    var gap := rest[..Search(rest).value.start];
    GapIsInert(rest, |gap|);
    SealWithToken(done, gap, token);
    assert done + gap + token == done + (gap + token);
  }

  /** The loop invariant: what is done is sealed, and what remains to be done is to rewrite the rest. */
  ghost predicate Halfway(
    original: string, ids: nat -> Uuid, body: string, mentions: seq<BotXAPIMention>, done: string, rest: string)
  {
    && body == done + rest
    && Sealed(done)
    && Rewrite(original, ids, 0) == Prepend(done, mentions, Rewrite(rest, ids, |mentions|))
  }

  lemma {:induction false} EmptyIsSealed()
    ensures Sealed("")
  {
    if MatchAtFront("").Some? {
      MatchIsTag("");
    }
    assert ""[0..] == "";
  }

  lemma {:induction false} BeforeFirstRound(original: string, ids: nat -> Uuid)
    ensures Halfway(original, ids, original, [], "", original)
  {
    hide Sealed, Rewrite, Prepend;
    EmptyIsSealed();
    PrependNothing(Rewrite(original, ids, 0));
    assert "" + original == original;
  }

  lemma {:induction false} Round(
    original: string, ids: nat -> Uuid, body: string, mentions: seq<BotXAPIMention>, done: string, rest: string,
    mention: BotXAPIMention)
    requires Halfway(original, ids, body, mentions, done, rest) && Search(rest).Some?
    requires BuildBotXAPIEmbedMention(Search(rest).value.found, ids(|mentions|)) == Success(mention)
    ensures var l := Search(rest).value;
            Halfway(original, ids, ReplaceFirst(body, l.found.Text(), mention.Token()), mentions + [mention],
                    done + (rest[..l.start] + mention.Token()), rest[l.end..])
  {
    hide MatchAtFront, EmbedMatch.Text, BuildBotXAPIEmbedMention, BotXAPIMention.Token, ReplaceFirst, Rewrite, Sealed;
    RewriteUnfolds(rest, ids, |mentions|);
    var l, k := Search(rest).value, |mentions|;
    TokenShape(mention);
    ReplacementHitsTheMatch(done, rest, mention.Token());
    PrependTwice(done, mentions, rest[..l.start] + mention.Token(), [mention], Rewrite(rest[l.end..], ids, k + 1));
  }

  lemma {:induction false} FailedRound(
    original: string, ids: nat -> Uuid, body: string, mentions: seq<BotXAPIMention>, done: string, rest: string)
    requires Halfway(original, ids, body, mentions, done, rest) && Search(rest).Some?
    requires BuildBotXAPIEmbedMention(Search(rest).value.found, ids(|mentions|)).Failure?
    ensures Rewrite(original, ids, 0)
         == Failure(BuildBotXAPIEmbedMention(Search(rest).value.found, ids(|mentions|)).error)
  {
    hide MatchAtFront, BuildBotXAPIEmbedMention;
    RewriteUnfolds(rest, ids, |mentions|);
  }

  lemma {:induction false} NoRoundLeft(
    original: string, ids: nat -> Uuid, body: string, mentions: seq<BotXAPIMention>, done: string, rest: string)
    requires Halfway(original, ids, body, mentions, done, rest) && FindIter(rest) == []
    ensures Rewrite(original, ids, 0) == Success(Rewritten(body, mentions))
  {
    hide MatchAtFront;
    assert Search(rest).None?;
    assert mentions + [] == mentions;
  }

  /**
   `find_and_replace_embed_mentions`. The matches are those of the original text, while each
   replacement is made in the text as it then is, at the first occurrence of the match.
   */
  method FindAndReplaceEmbedMentions(original: string, ids: nat -> Uuid) returns (r: Result<Rewritten, MentionError>)
    ensures r == Rewrite(original, ids, 0)
  {
    hide MatchAtFront, EmbedMatch.Text, BuildBotXAPIEmbedMention, BotXAPIMention.Token;
    hide ReplaceFirst, Rewrite, Search, Halfway;
    var body, mentions := original, [];
    var matches := FindIter(original);
    ghost var done, rest := "", original;
    BeforeFirstRound(original, ids);
    var i := 0;
    while i < |matches|
      invariant 0 <= i == |mentions| <= |matches|
      invariant matches[i..] == FindIter(rest)
      invariant Halfway(original, ids, body, mentions, done, rest)
    {
      ghost var l := NextMatch(rest);
      assert matches[i..][0] == l.found && matches[i..][1..] == matches[i + 1..];
      var converted := BuildBotXAPIEmbedMention(matches[i], ids(i));
      if converted.Failure? {
        FailedRound(original, ids, body, mentions, done, rest);
        return Failure(converted.error);
      }
      var mention := converted.value;
      Round(original, ids, body, mentions, done, rest, mention);
      body := ReplaceFirst(body, matches[i].Text(), mention.Token());
      mentions := mentions + [mention];
      done, rest := done + (rest[..l.start] + mention.Token()), rest[l.end..];
      i := i + 1;
    }
    NoRoundLeft(original, ids, body, mentions, done, rest);
    return Success(Rewritten(body, mentions));
  }

  lemma {:induction false} NextMatch(s: string) returns (l: Located)
    requires FindIter(s) != []
    ensures Search(s) == Some(l)
    ensures FindIter(s) == [l.found] + FindIter(s[l.end..])
  {
    hide MatchAtFront;
    l := Search(s).value;
  }
}
