/**
 Regular expressions made of literals and lazy repetitions, matched the way the
 host language's backtracking engine matches them.
 */
module LazyRegex {
  import opened Results

  /** `.` without the dot-all flag, and the class `[0-9a-f\-]`. */
  datatype CharClass = NotNewline | HexOrDash

  predicate IsHexDigit(c: char)
  {
    '0' <= c <= '9' || 'a' <= c <= 'f'
  }

  predicate InClass(cls: CharClass, c: char)
  {
    match cls
    case NotNewline => c != '\n'
    case HexOrDash => IsHexDigit(c) || c == '-'
  }

  lemma {:induction false} HexDigits(c: char)
    ensures IsHexDigit(c) <==> c in "0123456789abcdef"
  {
    var digits := "0123456789abcdef";
    if '0' <= c <= '9' {
      assert digits[c as int - '0' as int] == c;
    } else if 'a' <= c <= 'f' {
      assert digits[c as int - 'a' as int + 10] == c;
    }
  }

  predicate AllIn(cls: CharClass, s: string)
  {
    forall c | c in s :: InClass(cls, c)
  }

  /** `Lazy(cls, 1, next)` is `cls+?` followed by `next`, `Lazy(cls, 0, next)` is `cls*?` followed by `next`. */
  datatype Regex = End | Lit(text: string, next: Regex) | Lazy(cls: CharClass, min: nat, next: Regex)
  {
    /** The first piece can stand for this text. */
    predicate Accepts(part: string)
    {
      match this
      case End => false
      case Lit(text, _) => part == text
      case Lazy(cls, min, _) => min <= |part| && AllIn(cls, part)
    }
  }

  /** Some way to cut a prefix of `s` into one part for every piece; no choice of shortest parts is made here. */
  ghost predicate Fits(re: Regex, s: string, parts: seq<string>)
  {
    if re.End? then
      parts == []
    else
      parts != [] && re.Accepts(parts[0]) && parts[0] <= s && Fits(re.next, s[|parts[0]|..], parts[1..])
  }

  /** One accepted part for every piece. */
  predicate AcceptsAll(re: Regex, parts: seq<string>)
  {
    if re.End? then parts == [] else parts != [] && re.Accepts(parts[0]) && AcceptsAll(re.next, parts[1..])
  }

  function Size(re: Regex): nat
  {
    if re.End? then 0 else 1 + Size(re.next)
  }

  lemma {:induction false} AcceptedLength(re: Regex, parts: seq<string>)
    requires AcceptsAll(re, parts)
    ensures |parts| == Size(re)
  {
    if re.End? {
    } else {
      AcceptedLength(re.next, parts[1..]);
    }
  }

  lemma {:induction false} AcceptsFrom(re: Regex, parts: seq<string>, k: nat)
    requires !re.End? && k < |parts|
    ensures AcceptsAll(re, parts[k..]) <==> re.Accepts(parts[k]) && AcceptsAll(re.next, parts[k + 1..])
  {
    assert parts[k..][1..] == parts[k + 1..];
  }

  function Flatten(parts: seq<string>): string
  {
    if parts == [] then "" else parts[0] + Flatten(parts[1..])
  }

  lemma {:induction false} FlattenFrom(parts: seq<string>, k: nat)
    requires k < |parts|
    ensures Flatten(parts[k..]) == parts[k] + Flatten(parts[k + 1..])
  {
    assert parts[k..][1..] == parts[k + 1..];
  }

  /** A cut is: one accepted part for every piece, and together the parts are a prefix of `s`. */
  lemma {:induction false} FitsIsPrefix(re: Regex, s: string, parts: seq<string>)
    ensures Fits(re, s, parts) <==> AcceptsAll(re, parts) && Flatten(parts) <= s
  {
    if !re.End? && parts != [] && parts[0] <= s {
      FitsIsPrefix(re.next, s[|parts[0]|..], parts[1..]);
      assert s == parts[0] + s[|parts[0]|..];
    }
  }

  /** The engine's order of preference: an earlier part that is shorter wins. */
  ghost predicate AtLeastAsLazy(a: seq<string>, b: seq<string>)
  {
    if a == [] || b == [] then
      a == b
    else
      |a[0]| < |b[0]| || (a[0] == b[0] && AtLeastAsLazy(a[1..], b[1..]))
  }

  /** Ordered backtracking: the first cut of a prefix of `s` the engine comes to. */
  function MatchHere(re: Regex, s: string): Option<seq<string>>
    decreases re, |s| + 1
  {
    match re
    case End => Some([])
    case Lit(text, next) =>
      if text <= s then Cons(text, MatchHere(next, s[|text|..])) else None
    case Lazy(cls, min, next) =>
      Stretch(cls, min, next, s, 0)
  }

  /**
   A lazy piece has taken `taken` characters: leave the rest to the other pieces, and take one more
   only if that fails.
   */
  function Stretch(cls: CharClass, min: nat, next: Regex, s: string, taken: nat): Option<seq<string>>
    requires taken <= |s|
    decreases next, |s| + 2, |s| - taken
  {
    var now := if min <= taken then Cons(s[..taken], MatchHere(next, s[taken..])) else None;
    if now.Some? then
      now
    else if taken < |s| && InClass(cls, s[taken]) then
      Stretch(cls, min, next, s, taken + 1)
    else
      None
  }

  function Cons(part: string, rest: Option<seq<string>>): Option<seq<string>>
  {
    match rest
    case None => None
    case Some(parts) => Some([part] + parts)
  }

  /** What the engine reports is a cut. */
  lemma {:induction false} MatchHereFits(re: Regex, s: string)
    requires MatchHere(re, s).Some?
    ensures Fits(re, s, MatchHere(re, s).value)
    decreases re, |s| + 1
  {
    match re
    case End =>
    case Lit(text, next) =>
      MatchHereFits(next, s[|text|..]);
    case Lazy(cls, min, next) =>
      StretchFits(cls, min, next, s, 0);
  }

  lemma {:induction false} StretchFits(cls: CharClass, min: nat, next: Regex, s: string, taken: nat)
    requires taken <= |s| && AllIn(cls, s[..taken])
    requires Stretch(cls, min, next, s, taken).Some?
    ensures Fits(Lazy(cls, min, next), s, Stretch(cls, min, next, s, taken).value)
    decreases next, |s| + 2, |s| - taken
  {
    if min <= taken && MatchHere(next, s[taken..]).Some? {
      MatchHereFits(next, s[taken..]);
    } else {
      StretchFits(cls, min, next, s, taken + 1);
    }
  }

  /** The engine finds a cut whenever there is one, and no cut is lazier than the one it finds. */
  lemma {:induction false} MatchHereIsLaziest(re: Regex, s: string, parts: seq<string>)
    requires Fits(re, s, parts)
    ensures MatchHere(re, s).Some?
    ensures AtLeastAsLazy(MatchHere(re, s).value, parts)
    decreases re, |s| + 1
  {
    match re
    case End =>
    case Lit(text, next) =>
      MatchHereIsLaziest(next, s[|text|..], parts[1..]);
    case Lazy(cls, min, next) =>
      StretchIsLaziest(cls, min, next, s, 0, parts);
  }

  lemma {:induction false} StretchIsLaziest(
    cls: CharClass, min: nat, next: Regex, s: string, taken: nat, parts: seq<string>)
    requires taken <= |s|
    requires parts != [] && taken <= |parts[0]| && parts[0] <= s
    requires Lazy(cls, min, next).Accepts(parts[0])
    requires Fits(next, s[|parts[0]|..], parts[1..])
    ensures Stretch(cls, min, next, s, taken).Some?
    ensures AtLeastAsLazy(Stretch(cls, min, next, s, taken).value, parts)
    decreases next, |s| + 2, |s| - taken
  {
    if taken == |parts[0]| {
      assert s[..taken] == parts[0];
      MatchHereIsLaziest(next, s[taken..], parts[1..]);
    } else if min <= taken && MatchHere(next, s[taken..]).Some? {
    } else {
      assert parts[0][taken] in parts[0];
      StretchIsLaziest(cls, min, next, s, taken + 1, parts);
    }
  }
}
