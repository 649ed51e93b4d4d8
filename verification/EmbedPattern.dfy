/** `EMBED_MENTION_RE`: what its matches look like and how they lie in a text. */
module EmbedPattern {
  import opened Results
  import opened LazyRegex

  const OPEN_TAG := "<embed_mention>"
  const CLOSE_TAG := "</embed_mention>"

  const EMBED_MENTION_RE :=
    Lit(OPEN_TAG, Lazy(NotNewline, 1, Lit(":", Lazy(HexOrDash, 0, Lit(":", Lazy(NotNewline, 0, Lit(CLOSE_TAG, End)))))))

  /** `match.groupdict()`. */
  datatype EmbedMatch = EmbedMatch(mentionType: string, entityId: string, name: string)
  {
    /** Holds of the groups of every match. */
    predicate WellFormed()
    {
      && mentionType != "" && AllIn(NotNewline, mentionType)
      && AllIn(HexOrDash, entityId)
      && AllIn(NotNewline, name)
    }

    /** `match.group(0)`. */
    function Text(): (r: string)
      ensures |r| == 33 + |mentionType| + |entityId| + |name|
      ensures OPEN_TAG <= r
    {
      OPEN_TAG + (mentionType + (":" + (entityId + (":" + (name + CLOSE_TAG)))))
    }

    function Parts(): seq<string>
    {
      [OPEN_TAG, mentionType, ":", entityId, ":", name, CLOSE_TAG]
    }
  }

  /** A match of the pattern at the front of `s`, with the groups the engine chooses. */
  function MatchAtFront(s: string): Option<EmbedMatch>
  {
    match MatchHere(EMBED_MENTION_RE, s)
    case None => None
    case Some(parts) =>
      MatchHereFits(EMBED_MENTION_RE, s);
      FitsHasGroups(s, parts);
      Some(EmbedMatch(parts[1], parts[3], parts[5]))
  }

  predicate HasMatchAt(s: string, i: nat)
  {
    i <= |s| && MatchAtFront(s[i..]).Some?
  }

  lemma {:induction false} FlattenParts(m: EmbedMatch)
    ensures Flatten(m.Parts()) == m.Text()
  {
    var p := m.Parts();
    assert p[0..] == p;
    FlattenFrom(p, 0); FlattenFrom(p, 1); FlattenFrom(p, 2); FlattenFrom(p, 3);
    FlattenFrom(p, 4); FlattenFrom(p, 5); FlattenFrom(p, 6);
    assert CLOSE_TAG + "" == CLOSE_TAG;
  }

  lemma {:induction false} AcceptedParts(parts: seq<string>)
    ensures AcceptsAll(EMBED_MENTION_RE, parts) <==>
      |parts| == 7 && var m := EmbedMatch(parts[1], parts[3], parts[5]); parts == m.Parts() && m.WellFormed()
  {
    var re := EMBED_MENTION_RE;
    assert Size(re) == 7;
    if |parts| != 7 {
      if AcceptsAll(re, parts) { AcceptedLength(re, parts); }
    } else {
      assert parts[0..] == parts && parts[7..] == [];
      AcceptsFrom(re, parts, 0);
      AcceptsFrom(re.next, parts, 1);
      AcceptsFrom(re.next.next, parts, 2);
      AcceptsFrom(re.next.next.next, parts, 3);
      AcceptsFrom(re.next.next.next.next, parts, 4);
      AcceptsFrom(re.next.next.next.next.next, parts, 5);
      AcceptsFrom(re.next.next.next.next.next.next, parts, 6);
    }
  }

  lemma {:induction false} FitsHasGroups(s: string, parts: seq<string>)
    requires Fits(EMBED_MENTION_RE, s, parts)
    ensures |parts| == 7
    ensures var m := EmbedMatch(parts[1], parts[3], parts[5]);
            parts == m.Parts() && m.WellFormed() && m.Text() <= s
  {
    hide Fits;
    FitsIsPrefix(EMBED_MENTION_RE, s, parts);
    AcceptedParts(parts);
    FlattenParts(EmbedMatch(parts[1], parts[3], parts[5]));
  }

  lemma {:induction false} GroupsFit(s: string, m: EmbedMatch)
    requires m.WellFormed() && m.Text() <= s
    ensures Fits(EMBED_MENTION_RE, s, m.Parts())
  {
    hide Fits;
    AcceptedParts(m.Parts());
    FlattenParts(m);
    FitsIsPrefix(EMBED_MENTION_RE, s, m.Parts());
  }

  /** The engine's match at the front of `s` is a tag. */
  lemma {:induction false} MatchIsTag(s: string)
    requires MatchAtFront(s).Some?
    ensures var m := MatchAtFront(s).value; m.WellFormed() && m.Text() <= s
  {
    MatchHereFits(EMBED_MENTION_RE, s);
    FitsHasGroups(s, MatchHere(EMBED_MENTION_RE, s).value);
  }

  /**
   The engine finds a match at the front of `s` whenever some tag stands there, and prefers the
   shortest type, then entity, then name.
   */
  lemma {:induction false} TagIsMatched(s: string, m: EmbedMatch)
    requires m.WellFormed() && m.Text() <= s
    ensures MatchAtFront(s).Some?
    ensures var k := MatchAtFront(s).value;
            || |k.mentionType| < |m.mentionType|
            || (k.mentionType == m.mentionType && |k.entityId| < |m.entityId|)
            || (k.mentionType == m.mentionType && k.entityId == m.entityId && |k.name| < |m.name|)
            || k == m
  {
    GroupsFit(s, m);
    MatchHereIsLaziest(EMBED_MENTION_RE, s, m.Parts());
    MatchHereFits(EMBED_MENTION_RE, s);
    var a, b := MatchHere(EMBED_MENTION_RE, s).value, m.Parts();
    FitsHasGroups(s, a);
    assert AtLeastAsLazy(a[1..], b[1..]);
    if a[1] == b[1] {
      assert AtLeastAsLazy(a[1..][1..], b[1..][1..]);
      assert a[1..][1..] == a[2..] && b[1..][1..] == b[2..];
      assert AtLeastAsLazy(a[2..][1..], b[2..][1..]);
      assert a[2..][1..] == a[3..] && b[2..][1..] == b[3..];
      if a[3] == b[3] {
        assert AtLeastAsLazy(a[3..][1..], b[3..][1..]);
        assert a[3..][1..] == a[4..] && b[3..][1..] == b[4..];
        assert AtLeastAsLazy(a[4..][1..], b[4..][1..]);
        assert a[4..][1..] == a[5..] && b[4..][1..] == b[5..];
      }
    }
  }

  datatype Located = Located(start: nat, end: nat, found: EmbedMatch)

  /** The engine's match at this place, and none before it. */
  ghost predicate IsLeftmost(s: string, l: Located)
  {
    && l.start < l.end <= |s|
    && s[l.start..l.end] == l.found.Text()
    && l.found.WellFormed()
    && MatchAtFront(s[l.start..]) == Some(l.found)
    && HasMatchAt(s, l.start)
    && forall j: nat :: j < l.start ==> !HasMatchAt(s, j)
  }

  /** `EMBED_MENTION_RE.search(s)`: the leftmost match. */
  function Search(s: string): (r: Option<Located>)
    ensures r.Some? ==> IsLeftmost(s, r.value)
    ensures r.None? ==> forall j: nat :: !HasMatchAt(s, j)
  {
    hide MatchAtFront, IsLeftmost, EmbedMatch.Text;
    match MatchAtFront(s)
    case Some(m) =>
      FrontIsLeftmost(s);
      Some(Located(0, |m.Text()|, m))
    case None =>
      if s == "" then
        assert s[0..] == s;
        None
      else
        HasMatchAtShift(s);
        match Search(s[1..])
        case None => None
        case Some(l) =>
          LeftmostShift(s, l);
          Some(Located(l.start + 1, l.end + 1, l.found))
  }

  lemma {:induction false} FrontIsLeftmost(s: string)
    requires MatchAtFront(s).Some?
    ensures var m := MatchAtFront(s).value; IsLeftmost(s, Located(0, |m.Text()|, m))
  {
    hide MatchAtFront;
    MatchIsTag(s);
    assert s[0..] == s;
  }

  lemma {:induction false} LeftmostShift(s: string, l: Located)
    requires s != "" && MatchAtFront(s).None? && IsLeftmost(s[1..], l)
    ensures IsLeftmost(s, Located(l.start + 1, l.end + 1, l.found))
  {
    hide MatchAtFront, EmbedMatch.Text, EmbedMatch.WellFormed;
    HasMatchAtShift(s);
    SliceOfRest(s, l.start, |s| - 1);
    SliceOfRest(s, l.start, l.end);
  }

  lemma {:induction false} SliceOfRest(s: string, i: nat, j: nat)
    requires i <= j < |s|
    ensures s[1..][i..j] == s[i + 1..j + 1]
    ensures j == |s| - 1 ==> s[1..][i..] == s[i + 1..]
  {
    var a, b := s[1..][i..j], s[i + 1..j + 1];
    assert |a| == |b| && forall x | 0 <= x < |a| :: a[x] == b[x];
  }

  lemma {:induction false} HasMatchAtShift(s: string)
    requires s != "" && MatchAtFront(s).None?
    ensures forall j: nat :: HasMatchAt(s, j) <==> j > 0 && HasMatchAt(s[1..], j - 1)
  {
    hide MatchAtFront;
    assert s[0..] == s;
    forall j: nat ensures HasMatchAt(s, j) <==> j > 0 && HasMatchAt(s[1..], j - 1) {
      if 0 < j <= |s| {
        assert s[1..][j - 1..] == s[j..];
      }
    }
  }

  /** `EMBED_MENTION_RE.finditer(s)`: after a match the search goes on behind it (no match is empty). */
  function FindIter(s: string): seq<EmbedMatch>
    decreases |s|
  {
    match Search(s)
    case None => []
    case Some(l) => [l.found] + FindIter(s[l.end..])
  }
}
