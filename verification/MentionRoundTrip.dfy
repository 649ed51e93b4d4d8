/** Printing mentions into a text and rewriting the text: when does every mention come back? */
module MentionRoundTrip {
  import opened Results
  import opened Sequences
  import opened Text
  import opened Uuids
  import opened EmbedPattern
  import opened Mentions
  import opened MentionRewriter

  /** A stretch of text written by hand and the mention printed behind it. */
  datatype Chunk = Chunk(plain: string, mention: Mention)

  /** What a caller sends: plain text with printed mentions in between. */
  function PrintDocument(chunks: seq<Chunk>, tail: string): string
  {
    if chunks == [] then tail else chunks[0].plain + chunks[0].mention.Print() + PrintDocument(chunks[1..], tail)
  }

  /** What the caller wants: the plain text with tokens in between, and the mentions in order. */
  function Wanted(chunks: seq<Chunk>, tail: string, ids: nat -> Uuid, k: nat): Rewritten
  {
    if chunks == [] then
      Rewritten(tail, [])
    else
      var mention := ToApi(chunks[0].mention, ids(k));
      var rest := Wanted(chunks[1..], tail, ids, k + 1);
      Rewritten(chunks[0].plain + mention.Token() + rest.body, [mention] + rest.mentions)
  }

  /** A name the pattern reads back whole. */
  predicate NameIsReadable(m: Mention)
  {
    '\n' !in m.PrintedName() && !Occurs(m.PrintedName(), CLOSE_TAG)
  }

  predicate Readable(chunks: seq<Chunk>, tail: string)
  {
    && (forall i | 0 <= i < |chunks| :: Inert(chunks[i].plain) && NameIsReadable(chunks[i].mention))
    && Search(tail).None?
  }

  // ----- The groups of a printed tag -----

  lemma {:induction false} SameUpToDelimiter(s: string, a: string, b: string, delimiter: char)
    requires a + [delimiter] <= s && b + [delimiter] <= s
    requires |a| <= |b| && delimiter !in b
    ensures a == b
  {
    assert (a + [delimiter])[|a|] == s[|a|];
    assert forall i | 0 <= i < |b| :: b[i] in b && b[i] == (b + [delimiter])[i] == s[i];
    assert a == s[..|a|] && b == s[..|b|];
  }

  lemma {:induction false} SameUpToCloseTag(s: string, a: string, b: string)
    requires a + CLOSE_TAG <= s && b + CLOSE_TAG <= s
    requires |a| <= |b| && !Occurs(b, CLOSE_TAG)
    ensures a == b
  {
    assert a == s[..|a|] && b == s[..|b|];
    var t := b + CLOSE_TAG;
    assert s[|a|..|a| + |CLOSE_TAG|] == CLOSE_TAG == s[|b|..|b| + |CLOSE_TAG|];
    if |a| + |CLOSE_TAG| <= |b| {
      assert b[|a|..] == s[|a|..|b|];
      assert OccursAt(b, CLOSE_TAG, |a|);
    } else {
      assert s[|b|] == s[|b|..|b| + |CLOSE_TAG|][0] == '<';
      assert s[|b|] == s[|a|..|a| + |CLOSE_TAG|][|b| - |a|];
    }
  }

  lemma {:induction false} IdHasNoColon(g: EmbedMatch)
    requires g.WellFormed()
    ensures ':' !in g.entityId
  {
  }

  lemma {:induction false} TextTails(s: string, m: EmbedMatch)
    requires m.Text() <= s
    ensures m.mentionType + ":" <= s[15..]
    ensures m.entityId + ":" <= s[15..][|m.mentionType| + 1..]
    ensures m.name + CLOSE_TAG <= s[17 + |m.mentionType| + |m.entityId|..]
  {
    var rest := s[|m.Text()|..];
    assert s == m.Text() + rest;
    var s3 := m.name + CLOSE_TAG + rest;
    var s2 := m.entityId + ":" + s3;
    var s1 := m.mentionType + ":" + s2;
    assert s == OPEN_TAG + s1;
    assert s1[|m.mentionType| + 1..] == s2;
    assert s[17 + |m.mentionType| + |m.entityId|..] == s3;
  }

  lemma {:induction false} SameType(s: string, k: EmbedMatch, g: EmbedMatch)
    requires k.Text() <= s && g.Text() <= s
    requires ':' !in g.mentionType && |k.mentionType| <= |g.mentionType|
    ensures k.mentionType == g.mentionType
  {
    hide EmbedMatch.Text;
    TextTails(s, k);
    TextTails(s, g);
    SameUpToDelimiter(s[15..], k.mentionType, g.mentionType, ':');
  }

  lemma {:induction false} SameId(s: string, k: EmbedMatch, g: EmbedMatch)
    requires k.Text() <= s && g.Text() <= s && g.WellFormed()
    requires k.mentionType == g.mentionType && |k.entityId| <= |g.entityId|
    ensures k.entityId == g.entityId
  {
    hide EmbedMatch.Text, EmbedMatch.WellFormed;
    IdHasNoColon(g);
    TextTails(s, k);
    TextTails(s, g);
    SameUpToDelimiter(s[15..][|g.mentionType| + 1..], k.entityId, g.entityId, ':');
  }

  /** If the lazily chosen groups `k` have the type and the entity id of `g`, these are not merely shorter ones. */
  lemma {:induction false} HeadGroupsAgree(s: string, k: EmbedMatch, g: EmbedMatch)
    requires k.Text() <= s && g.WellFormed() && g.Text() <= s
    requires ':' !in g.mentionType
    requires |k.mentionType| < |g.mentionType|
          || (k.mentionType == g.mentionType && |k.entityId| < |g.entityId|)
          || (k.mentionType == g.mentionType && k.entityId == g.entityId)
    ensures k.mentionType == g.mentionType && k.entityId == g.entityId
    ensures var n := 17 + |g.mentionType| + |g.entityId|;
      n <= |s| && k.name + CLOSE_TAG <= s[n..] && g.name + CLOSE_TAG <= s[n..]
  {
    hide EmbedMatch.Text, EmbedMatch.WellFormed;
    SameType(s, k, g);
    SameId(s, k, g);
    TextTails(s, k);
    TextTails(s, g);
  }

  lemma {:induction false} GroupsAreWellFormed(m: Mention)
    ensures m.Groups().WellFormed() <==> '\n' !in m.PrintedName()
    ensures ':' !in m.Groups().mentionType
  {
  }

  /** A printed tag with a readable name is read as it was printed. */
  lemma {:induction false} PrintedTagIsRead(m: Mention, rest: string)
    requires NameIsReadable(m)
    ensures MatchAtFront(m.Print() + rest) == Some(m.Groups())
  {
    hide MatchAtFront, Mention.Print, Mention.Groups, NameIsReadable;
    var s, g := m.Print() + rest, m.Groups();
    PrintIsTag(m);
    GroupsAreWellFormed(m);
    ReadableName(m);
    TagIsMatched(s, g);
    MatchIsTag(s);
    var k := MatchAtFront(s).value;
    HeadGroupsAgree(s, k, g);
    SameUpToCloseTag(s[17 + |g.mentionType| + |g.entityId|..], k.name, g.name);
  }

  lemma {:induction false} ReadableName(m: Mention)
    ensures m.Groups().name == m.PrintedName()
    ensures NameIsReadable(m) <==> '\n' !in m.PrintedName() && !Occurs(m.PrintedName(), CLOSE_TAG)
  {
  }

  lemma {:induction false} SameFront(g: EmbedMatch, end: string, behind: string)
    ensures var front := OPEN_TAG + g.mentionType + ":" + g.entityId + ":";
      && OPEN_TAG + (g.mentionType + (":" + (g.entityId + (":" + end)))) == front + end
      && OPEN_TAG + (g.mentionType + (":" + (g.entityId + (":" + (end + behind))))) == front + end + behind
  {
    SeparatedAsTag(OPEN_TAG, g.mentionType, ":", g.entityId, ":", end, "");
    SeparatedAsTag(OPEN_TAG, g.mentionType, ":", g.entityId, ":", end, behind);
    assert end + "" == end;
  }

  lemma {:induction false} ShorterNameEndsAtCloseTag(g: EmbedMatch, j: nat)
    requires OccursAt(g.name, CLOSE_TAG, j)
    ensures g.(name := g.name[..j]).Text() <= g.Text()
  {
    var k, behind := g.(name := g.name[..j]), g.name[j + |CLOSE_TAG|..];
    assert g.name == g.name[..j] + (CLOSE_TAG + behind);
    SameFront(g, k.name + CLOSE_TAG, behind + CLOSE_TAG);
    Regroup(k.name, CLOSE_TAG, behind);
    Regroup(k.name + CLOSE_TAG, behind, CLOSE_TAG);
  }

  /** Only then. */
  lemma {:induction false} ReadTagHasReadableName(m: Mention, rest: string)
    requires MatchAtFront(m.Print() + rest) == Some(m.Groups())
    ensures NameIsReadable(m)
  {
    hide MatchAtFront, Mention.Print, Mention.Groups, NameIsReadable, EmbedMatch.Text;
    var s, g := m.Print() + rest, m.Groups();
    MatchIsTag(s);
    GroupsAreWellFormed(m);
    ReadableName(m);
    if Occurs(g.name, CLOSE_TAG) {
      var j :| 0 <= j <= |g.name| && OccursAt(g.name, CLOSE_TAG, j);
      var k := g.(name := g.name[..j]);
      ShorterNameEndsAtCloseTag(g, j);
      TagIsMatched(s, k);
    }
  }

  // ----- Documents -----

  /** In front of a tag, no match starts in inert text. */
  lemma {:induction false} NoMatchBefore(plain: string, t: string, j: nat)
    requires Inert(plain) && t != "" && t[0] == '<' && j < |plain|
    ensures !HasMatchAt(plain + t, j)
  {
    hide MatchAtFront, Inert;
    if HasMatchAt(plain + t, j) {
      MatchStartsWithOpenTag(plain + t, j);
      OpenTagEndsInside(plain, t, j);
      NoMatchAcross(plain, t, j);
    }
  }

  /** In front of a printed readable mention stands an inert text: the mention is the next match. */
  lemma {:induction false} PrintedMentionIsNext(plain: string, m: Mention, rest: string)
    requires Inert(plain) && NameIsReadable(m)
    ensures Search(plain + m.Print() + rest)
         == Some(Located(|plain|, |plain| + |m.Print()|, m.Groups()))
  {
    hide MatchAtFront, Mention.Print, Mention.Groups, NameIsReadable, Inert, Search, EmbedMatch.Text;
    var s, t := plain + m.Print() + rest, m.Print() + rest;
    assert s == plain + t && s[|plain|..] == t;
    PrintedTagIsRead(m, rest);
    PrintIsTag(m);
    assert HasMatchAt(s, |plain|);
    assert t[0] == m.Groups().Text()[0] == OPEN_TAG[0] == '<';
    forall j: nat | j < |plain| ensures !HasMatchAt(s, j) {
      NoMatchBefore(plain, t, j);
    }
  }

  lemma {:induction false} ConvertedGroups(g: EmbedMatch, m: Mention, id: Uuid)
    requires BuildBotXAPIEmbedMention(g, id) == Success(ToApi(m, id)) && !m.MentionAll?
    ensures g.mentionType == m.Groups().mentionType && g.name == m.Groups().name
  {
  }

  /** If a text that starts like this is rewritten as wanted, its first match is where the mention was printed. */
  lemma {:induction false} WantedStartsAtMention(
    plain: string, m: Mention, rest: string, ids: nat -> Uuid, k: nat, more: Rewritten)
    requires Rewrite(plain + m.Print() + rest, ids, k)
      == Success(Rewritten(plain + ToApi(m, ids(k)).Token() + more.body, [ToApi(m, ids(k))] + more.mentions))
    ensures var found := Search(plain + m.Print() + rest);
      && found.Some?
      && found.value.start == |plain|
      && BuildBotXAPIEmbedMention(found.value.found, ids(k)) == Success(ToApi(m, ids(k)))
  {
    hide MatchAtFront, Mention.Print, Mention.Groups, BuildBotXAPIEmbedMention, BotXAPIMention.Token, Rewrite, ToApi;
    var s, a := plain + m.Print() + rest, ToApi(m, ids(k));
    var body := plain + a.Token() + more.body;
    RewriteUnfolds(s, ids, k);
    TokenShape(a);
    PrintIsTag(m);
    assert s[|plain|] == m.Print()[0] == OPEN_TAG[0] == '<';
    assert body[|plain|] == a.Token()[0] != '<';
    var found := Search(s);
    if found.Some? {
      var l := found.value;
      MatchStartsWithOpenTag(s, l.start);
      assert s[l.start] == s[l.start..][0] == '<';
      var converted := BuildBotXAPIEmbedMention(l.found, ids(k));
      var behind := Rewrite(s[l.end..], ids, k + 1);
      assert converted.Success? && behind.Success?;
      assert [a] + more.mentions == [converted.value] + behind.value.mentions;
      assert a == ([a] + more.mentions)[0];
      SameSeam(plain, s, a.Token(), more.body, l.start, behind.value.body);
    }
  }

  lemma {:induction false} SameSeam(plain: string, s: string, token: string, u: string, start: nat, v: string)
    requires plain <= s && |plain| < |s| && s[|plain|] == '<'
    requires start < |s| && s[start] == '<'
    requires token != "" && token[0] != '<'
    requires plain + token + u == s[..start] + token + v
    ensures start == |plain|
  {
    var body := plain + token + u;
    assert body[|plain|] == token[0] == body[start];
    assert forall i | 0 <= i < |plain| :: body[i] == s[i];
    assert forall i | 0 <= i < start :: body[i] == s[i];
  }

  /** It can come out as wanted only if the plain text is inert and the name readable. */
  lemma {:induction false} WantedOnlyIfReadable(
    plain: string, m: Mention, rest: string, ids: nat -> Uuid, k: nat, more: Rewritten)
    requires Rewrite(plain + m.Print() + rest, ids, k)
      == Success(Rewritten(plain + ToApi(m, ids(k)).Token() + more.body, [ToApi(m, ids(k))] + more.mentions))
    ensures Inert(plain) && NameIsReadable(m)
  {
    hide MatchAtFront, Mention.Print, BuildBotXAPIEmbedMention, BotXAPIMention.Token, Rewrite, ToApi, Inert;
    var s, t := plain + m.Print() + rest, m.Print() + rest;
    WantedStartsAtMention(plain, m, rest, ids, k, more);
    GapIsInert(s, |plain|);
    assert s[..|plain|] == plain && s[|plain|..] == t;
    if !m.MentionAll? {
      var found, g := Search(s).value.found, m.Groups();
      ConvertedGroups(found, m, ids(k));
      GroupsAreWellFormed(m);
      PrintIsTag(m);
      MatchIsTag(t);
      TagIsMatched(t, g);
      HeadGroupsAgree(t, found, g);
      ReadTagHasReadableName(m, rest);
    }
  }

  /**
   The round trip. Every mention comes back, in order, with its kind, id and name, and every plain
   stretch is kept, exactly if the names are readable, the stretches inert, and no match lies in the tail.
   */
  lemma {:induction false} DocumentRoundTrip(chunks: seq<Chunk>, tail: string, ids: nat -> Uuid, k: nat)
    ensures Rewrite(PrintDocument(chunks, tail), ids, k) == Success(Wanted(chunks, tail, ids, k))
       <==> Readable(chunks, tail)
  {
    hide MatchAtFront, Mention.Print, Mention.Groups, BuildBotXAPIEmbedMention, BotXAPIMention.Token, Rewrite, ToApi,
      Inert, NameIsReadable;
    var s := PrintDocument(chunks, tail);
    RewriteUnfolds(s, ids, k);
    if chunks == [] {
    } else {
      var plain, m, rest := chunks[0].plain, chunks[0].mention, PrintDocument(chunks[1..], tail);
      var a, more := ToApi(m, ids(k)), Wanted(chunks[1..], tail, ids, k + 1);
      DocumentRoundTrip(chunks[1..], tail, ids, k + 1);
      if Inert(plain) && NameIsReadable(m) {
        PrintedMentionIsNext(plain, m, rest);
        ConvertPrintedGroups(m, ids(k));
        assert s[..|plain|] == plain && s[|plain| + |m.Print()|..] == rest;
        PrependIsWanted(plain + a.Token(), a, Rewrite(rest, ids, k + 1), more);
        assert Readable(chunks, tail) <==> Readable(chunks[1..], tail) by {
          assert chunks == [chunks[0]] + chunks[1..];
        }
      } else if Rewrite(s, ids, k) == Success(Wanted(chunks, tail, ids, k)) {
        WantedOnlyIfReadable(plain, m, rest, ids, k, more);
      }
    }
  }

  lemma {:induction false} PrependIsWanted(
    front: string, a: BotXAPIMention, r: Result<Rewritten, MentionError>, more: Rewritten)
    ensures Prepend(front, [a], r) == Success(Rewritten(front + more.body, [a] + more.mentions)) <==> r == Success(more)
  {
    if r.Success? {
      var w := r.value;
      if front + w.body == front + more.body {
        assert w.body == (front + w.body)[|front|..] == (front + more.body)[|front|..] == more.body;
      }
      if [a] + w.mentions == [a] + more.mentions {
        assert w.mentions == ([a] + w.mentions)[1..] == ([a] + more.mentions)[1..] == more.mentions;
      }
    }
  }

  /** Text without an opening tag is inert. */
  lemma {:induction false} PlainTextIsInert(plain: string)
    requires !Occurs(plain, OPEN_TAG)
    ensures Inert(plain) && Search(plain).None?
  {
    hide MatchAtFront;
    forall i: nat | HasMatchAt(plain, i) ensures false {
      MatchStartsWithOpenTag(plain, i);
    }
  }

  /** In particular, mentions with readable names come back from any text that has no opening tag of its own. */
  lemma {:induction false} MentionsInPlainTextComeBack(chunks: seq<Chunk>, tail: string, ids: nat -> Uuid)
    requires forall i | 0 <= i < |chunks| :: !Occurs(chunks[i].plain, OPEN_TAG) && NameIsReadable(chunks[i].mention)
    requires !Occurs(tail, OPEN_TAG)
    ensures Rewrite(PrintDocument(chunks, tail), ids, 0) == Success(Wanted(chunks, tail, ids, 0))
  {
    hide MatchAtFront, Rewrite, Inert, NameIsReadable, PrintDocument, Wanted;
    forall i | 0 <= i < |chunks| ensures Inert(chunks[i].plain) {
      PlainTextIsInert(chunks[i].plain);
    }
    PlainTextIsInert(tail);
    DocumentRoundTrip(chunks, tail, ids, 0);
  }
}
