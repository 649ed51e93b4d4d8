/** The string operations of the host language that the mention rewriter relies on. */
module Text {
  import opened Results

  /** `c.isspace()` as `str.split()` and `str.strip()` use it. */
  predicate IsSpace(c: char)
  {
    || '\U{0009}' <= c <= '\U{000D}'
    || '\U{001C}' <= c <= '\U{0020}'
    || c == '\U{0085}' || c == '\U{00A0}' || c == '\U{1680}'
    || '\U{2000}' <= c <= '\U{200A}'
    || c == '\U{2028}' || c == '\U{2029}' || c == '\U{202F}' || c == '\U{205F}' || c == '\U{3000}'
  }

  /** All of them, one by one. */
  lemma {:induction false} SpaceTable(c: char)
    ensures IsSpace(c) <==>
      || c in "\t\n\U{000B}\U{000C}\r\U{001C}\U{001D}\U{001E}\U{001F} \U{0085}\U{00A0}\U{1680}"
      || c in "\U{2000}\U{2001}\U{2002}\U{2003}\U{2004}\U{2005}\U{2006}\U{2007}\U{2008}\U{2009}\U{200A}"
      || c in "\U{2028}\U{2029}\U{202F}\U{205F}\U{3000}"
  {
  }

  predicate AllSpace(s: string)
  {
    forall c | c in s :: IsSpace(c)
  }

  predicate NoSpace(s: string)
  {
    forall c | c in s :: !IsSpace(c)
  }

  predicate OccursAt(s: string, sub: string, i: nat)
  {
    i <= |s| && sub <= s[i..]
  }

  predicate Occurs(s: string, sub: string)
  {
    exists i | 0 <= i <= |s| :: OccursAt(s, sub, i)
  }

  /** The first place where `sub` occurs in `s`. */
  function IndexOf(s: string, sub: string): (r: Option<nat>)
    ensures r.Some? ==> OccursAt(s, sub, r.value)
    ensures r.Some? ==> forall j: nat :: j < r.value ==> !OccursAt(s, sub, j)
    ensures r.None? ==> forall j: nat :: !OccursAt(s, sub, j)
  {
    if sub <= s then
      assert s[0..] == s;
      Some(0)
    else if s == "" then
      None
    else
      assert forall j: nat :: j > 0 && j <= |s| ==> s[1..][j - 1..] == s[j..];
      assert s[0..] == s;
      var rest := IndexOf(s[1..], sub);
      assert forall j: nat :: OccursAt(s, sub, j) ==> j > 0 && OccursAt(s[1..], sub, j - 1);
      match rest
      case None => None
      case Some(i) => Some(i + 1)
  }

  /** `s.replace(old, new, 1)` for a non-empty `old`. */
  function ReplaceFirst(s: string, old_: string, new_: string): string
  {
    match IndexOf(s, old_)
    case None => s
    case Some(i) => s[..i] + new_ + s[i + |old_|..]
  }

  lemma {:induction false} NothingToReplace(s: string, old_: string, new_: string)
    requires !Occurs(s, old_)
    ensures ReplaceFirst(s, old_, new_) == s
  {
    assert forall i: nat :: !OccursAt(s, old_, i);
  }

  /** Only the first occurrence matters to `replace(..., 1)`. */
  lemma {:induction false} ReplaceFirstAt(s: string, old_: string, new_: string, i: nat)
    requires OccursAt(s, old_, i)
    requires forall j: nat :: j < i ==> !OccursAt(s, old_, j)
    ensures ReplaceFirst(s, old_, new_) == s[..i] + new_ + s[i + |old_|..]
  {
  }
}
