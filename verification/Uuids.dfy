/** Identifiers: 128 bits, held as 32 lower-case hexadecimal digits. */
module Uuids {
  import opened Results
  import opened LazyRegex

  predicate IsDigits(s: string)
  {
    |s| == 32 && forall c | c in s :: IsHexDigit(c)
  }

  type Uuid = s: string | IsDigits(s) witness seq(32, _ => '0')

  /** `str(uuid)`: five groups joined by dashes. */
  function Str(u: Uuid): (r: string)
    ensures |r| == 36 && AllIn(HexOrDash, r)
  {
    u[..8] + "-" + u[8..12] + "-" + u[12..16] + "-" + u[16..20] + "-" + u[20..]
  }

  function WithoutDashes(s: string): (r: string)
    ensures |r| <= |s|
  {
    if s == "" then
      ""
    else
      (if s[0] == '-' then "" else [s[0]]) + WithoutDashes(s[1..])
  }

  /** `UUID(text)` for a text over `[0-9a-f\-]`: dashes may stand anywhere, 32 digits must remain. */
  function Parse(text: string): Option<Uuid>
  {
    var digits := WithoutDashes(text);
    if IsDigits(digits) then Some(digits) else None
  }

  lemma {:induction false} WithoutDashesConcat(a: string, b: string)
    ensures WithoutDashes(a + b) == WithoutDashes(a) + WithoutDashes(b)
  {
    if a == "" {
      assert a + b == b;
    } else {
      assert (a + b)[1..] == a[1..] + b;
      WithoutDashesConcat(a[1..], b);
    }
  }

  lemma {:induction false} WithoutDashesOfDigits(a: string)
    requires forall c | c in a :: IsHexDigit(c)
    ensures WithoutDashes(a) == a
  {
    if a == "" {
    } else {
      assert a[0] in a;
      assert a == [a[0]] + a[1..];
      WithoutDashesOfDigits(a[1..]);
    }
  }

  lemma {:induction false} DashIsDropped(rest: string)
    ensures WithoutDashes("-" + rest) == WithoutDashes(rest)
  {
    var tail := "-" + rest;
    assert tail[0] == '-' && tail[1..] == rest;
  }

  /** One group, its dash and the rest. */
  lemma {:induction false} WithoutDashesGroup(a: string, rest: string)
    requires forall c | c in a :: IsHexDigit(c)
    ensures WithoutDashes(a + "-" + rest) == a + WithoutDashes(rest)
  {
    WithoutDashesOfDigits(a);
    DashIsDropped(rest);
    WithoutDashesConcat(a, "-" + rest);
    hide WithoutDashes;
    assert a + "-" + rest == a + ("-" + rest);
  }

  /** Printing and parsing an identifier gives it back. */
  lemma {:induction false} ParseStr(u: Uuid)
    ensures Parse(Str(u)) == Some(u)
  {
    hide WithoutDashes, AllIn;
    var a, b, g, d, e := u[..8], u[8..12], u[12..16], u[16..20], u[20..];
    assert forall c | c in a || c in b || c in g || c in d || c in e :: c in u;
    WithoutDashesOfDigits(e);
    WithoutDashesGroup(d, e);
    WithoutDashesGroup(g, d + "-" + e);
    WithoutDashesGroup(b, g + "-" + (d + "-" + e));
    WithoutDashesGroup(a, b + "-" + (g + "-" + (d + "-" + e)));
    assert Str(u) == a + "-" + (b + "-" + (g + "-" + (d + "-" + e)));
    assert a + (b + (g + (d + e))) == u;
  }

  /** The dashes of a printed identifier: groups of 8, 4, 4, 4 and 12 digits. */
  lemma {:induction false} DashesOfStr(u: Uuid)
    ensures |Str(u)| == 36
    ensures forall i | 0 <= i < 36 :: Str(u)[i] == '-' <==> i == 8 || i == 13 || i == 18 || i == 23
  {
    assert forall i | 0 <= i < 32 :: u[i] in u && IsHexDigit(u[i]);
  }

  /** Dashes may stand anywhere when an identifier is parsed, ... */
  lemma {:induction false} DashesAreIgnored(a: string, b: string)
    ensures Parse(a + "-" + b) == Parse(a + b)
  {
    WithoutDashesConcat(a, "-" + b);
    WithoutDashesConcat(a, b);
    DashIsDropped(b);
    hide WithoutDashes;
    assert a + "-" + b == a + ("-" + b);
  }

  /** ... and without them exactly 32 hexadecimal digits are an identifier, those digits. */
  lemma {:induction false} ParseWithoutDashes(text: string)
    requires '-' !in text
    ensures Parse(text) == if |text| == 32 && forall c | c in text :: c in "0123456789abcdef" then Some(text) else None
  {
    NothingToDrop(text);
    forall c ensures IsHexDigit(c) <==> c in "0123456789abcdef" {
      HexDigits(c);
    }
    hide IsHexDigit, WithoutDashes;
    if IsDigits(text) {
      assert forall c | c in text :: c in "0123456789abcdef";
    } else if |text| == 32 {
      var c :| c in text && !IsHexDigit(c);
      assert c !in "0123456789abcdef";
    }
  }

  lemma {:induction false} NothingToDrop(text: string)
    requires '-' !in text
    ensures WithoutDashes(text) == text
  {
    if text == "" {
    } else {
      assert text == [text[0]] + text[1..];
      NothingToDrop(text[1..]);
    }
  }
}
