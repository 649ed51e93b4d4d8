/** What base64 texts look like, and what the decoder makes of any text. */
module Base64Texts {
  import opened Results
  import opened Sequences
  import opened Base64

  // ----- The encoder -----

  /** The alphabet of section 4 of RFC 4648: upper case, lower case, digits, and two signs. */
  lemma {:induction false} Alphabet(v: Sextet)
    ensures CharOf(0) == 'A' && CharOf(25) == 'Z' && CharOf(26) == 'a' && CharOf(51) == 'z'
    ensures CharOf(52) == '0' && CharOf(61) == '9' && CharOf(62) == '+' && CharOf(63) == '/'
    ensures v !in [25, 51, 61, 62, 63] ==> CharOf(v + 1) as int == CharOf(v) as int + 1
  {
  }

  /** A character has a value exactly if it is the character of that value. */
  lemma {:induction false} ValuesOfAlphabet(c: char, v: Sextet)
    ensures ValueOf(c) == Some(v) <==> c == CharOf(v)
  {
  }

  lemma {:induction false} PaddingHasNoValue()
    ensures ValueOf('=').None?
  {
  }

  /** The number a character spells; padding spells nothing. */
  function Digit(c: char): int
  {
    if ValueOf(c).Some? then ValueOf(c).value else 0
  }

  function ByteAt(bytes: seq<Byte>, i: nat): int
  {
    if i < |bytes| then bytes[i] else 0
  }

  /**
   Four characters spell up to three bytes, the most significant bits first. Missing bytes count as zero, and
   a character that would hold nothing of the group is `=`.
   */
  ghost predicate Spells(four: string, group: seq<Byte>)
  {
    && |four| == 4 && 1 <= |group| <= 3
    && Digit(four[0]) * 0x40000 + Digit(four[1]) * 0x1000 + Digit(four[2]) * 0x40 + Digit(four[3])
       == ByteAt(group, 0) * 0x10000 + ByteAt(group, 1) * 0x100 + ByteAt(group, 2)
    && (forall j | 0 <= j < 4 :: four[j] == '=' <==> j > |group|)
    && (forall j | 0 <= j < 4 && four[j] != '=' :: ValueOf(four[j]).Some?)
  }

  /** Group by group, the text spells the bytes. */
  lemma {:induction false} EncodedGroup(bytes: seq<Byte>, k: nat)
    requires 3 * k < |bytes|
    ensures |Encode(bytes)| == (|bytes| + 2) / 3 * 4
    ensures 4 * k + 4 <= |Encode(bytes)|
    ensures Spells(Encode(bytes)[4 * k..4 * k + 4], bytes[3 * k..if 3 * k + 3 <= |bytes| then 3 * k + 3 else |bytes|])
  {
    hide CharOf, ValueOf, Spells;
    EncodedLength(bytes);
    if k == 0 {
      FirstGroup(bytes);
    } else {
      var rest := bytes[3..];
      EncodedGroup(rest, k - 1);
      assert Encode(bytes)[4..] == Encode(rest);
      assert Encode(bytes)[4 * k..4 * k + 4] == Encode(rest)[4 * k - 4..4 * k];
      var end := if 3 * k + 3 <= |bytes| then 3 * k + 3 else |bytes|;
      assert bytes[3 * k..end] == rest[3 * k - 3..end - 3];
    }
  }

  lemma {:induction false} EncodedLength(bytes: seq<Byte>)
    ensures |Encode(bytes)| == (|bytes| + 2) / 3 * 4
  {
    hide CharOf;
    if |bytes| < 3 {
    } else {
      EncodedLength(bytes[3..]);
    }
  }

  lemma {:induction false} FirstGroup(bytes: seq<Byte>)
    requires bytes != []
    ensures |Encode(bytes)| >= 4
    ensures Spells(Encode(bytes)[..4], bytes[..if 3 <= |bytes| then 3 else |bytes|])
  {
    hide CharOf, ValueOf, Spells;
    if |bytes| == 1 {
      var x := bytes[0];
      SpellOne(x);
      assert bytes[..1] == [x];
      assert Encode(bytes)[..4] == [CharOf(x / 4), CharOf(x % 4 * 16), '=', '='];
    } else if |bytes| == 2 {
      var x, y := bytes[0], bytes[1];
      SpellTwo(x, y);
      assert bytes[..2] == [x, y];
      assert Encode(bytes)[..4] == [CharOf(x / 4), CharOf(x % 4 * 16 + y / 16), CharOf(y % 16 * 4), '='];
    } else {
      var x, y, z := bytes[0], bytes[1], bytes[2];
      SpellThree(x, y, z);
      assert bytes[..3] == [x, y, z];
      assert Encode(bytes)[..4]
          == [CharOf(x / 4), CharOf(x % 4 * 16 + y / 16), CharOf(y % 16 * 4 + z / 64), CharOf(z % 64)];
    }
  }

  lemma {:induction false} DigitOfChar(v: Sextet)
    ensures Digit(CharOf(v)) == v && ValueOf(CharOf(v)).Some?
  {
    ValueOfCharOf(v);
  }

  lemma {:induction false} SpellOne(x: Byte)
    ensures Spells([CharOf(x / 4), CharOf(x % 4 * 16), '=', '='], [x])
  {
    hide CharOf, ValueOf, Digit;
    DigitOfChar(x / 4);
    DigitOfChar(x % 4 * 16);
    NoDigit();
  }

  lemma {:induction false} SpellTwo(x: Byte, y: Byte)
    ensures Spells([CharOf(x / 4), CharOf(x % 4 * 16 + y / 16), CharOf(y % 16 * 4), '='], [x, y])
  {
    hide CharOf, ValueOf, Digit;
    DigitOfChar(x / 4);
    DigitOfChar(x % 4 * 16 + y / 16);
    DigitOfChar(y % 16 * 4);
    NoDigit();
  }

  lemma {:induction false} SpellThree(x: Byte, y: Byte, z: Byte)
    ensures Spells([CharOf(x / 4), CharOf(x % 4 * 16 + y / 16), CharOf(y % 16 * 4 + z / 64), CharOf(z % 64)], [x, y, z])
  {
    hide CharOf, ValueOf, Digit;
    DigitOfChar(x / 4);
    DigitOfChar(x % 4 * 16 + y / 16);
    DigitOfChar(y % 16 * 4 + z / 64);
    DigitOfChar(z % 64);
  }

  lemma {:induction false} NoDigit()
    ensures Digit('=') == 0
  {
  }

  // ----- The decoder -----

  predicate IsAlphabetText(text: string)
  {
    forall c | c in text :: ValueOf(c).Some?
  }

  /** A character outside the alphabet that is no padding is skipped. */
  lemma {:induction false} NoiseIsSkipped(a: string, c: char, b: string)
    requires c != '=' && ValueOf(c).None?
    ensures Decode(a + [c] + b) == Decode(a + b)
  {
    NoiseIsSkippedFrom(a, c, b, START);
  }

  lemma {:induction false} NoiseIsSkippedFrom(a: string, c: char, b: string, st: State)
    requires st.Valid() && c != '=' && ValueOf(c).None?
    ensures DecodeFrom(a + [c] + b, st) == DecodeFrom(a + b, st)
    decreases |a|
  {
    hide ValueOf;
    if a == "" {
      assert a + [c] + b == [c] + b && a + b == b;
      assert ([c] + b)[1..] == b;
    } else {
      assert (a + [c] + b)[1..] == a[1..] + [c] + b && (a + b)[1..] == a[1..] + b;
      forall next: State | next.Valid()
        ensures DecodeFrom(a[1..] + [c] + b, next) == DecodeFrom(a[1..] + b, next)
      {
        NoiseIsSkippedFrom(a[1..], c, b, next);
      }
    }
  }

  /** The state behind a character of the alphabet. */
  function Next(st: State, v: Sextet): (next: State)
    requires st.Valid()
    ensures next.Valid() && next.pads == 0 && next.quad == (st.quad + 1) % 4
  {
    if st.quad == 0 then State(1, v, 0)
    else if st.quad == 1 then State(2, v % 16, 0)
    else if st.quad == 2 then State(3, v % 4, 0)
    else START
  }

  /** Two texts that continue alike behind their first character, one of the alphabet, decode alike. */
  lemma {:induction false} SameFirst(c: char, s: string, t: string, st: State)
    requires st.Valid() && ValueOf(c).Some?
    requires DecodeFrom(s, Next(st, ValueOf(c).value)) == DecodeFrom(t, Next(st, ValueOf(c).value))
    ensures DecodeFrom([c] + s, st) == DecodeFrom([c] + t, st)
  {
    var v := ValueOf(c).value;
    ValuesOfAlphabet(c, v);
    hide DecodeFrom, ValueOf, CharOf;
    DecodeSextet(v, s, st);
    DecodeSextet(v, t, st);
  }

  /** Padding is skipped at the beginning of a group, and alone behind two of its characters. */
  lemma {:induction false} EarlyPaddingIsSkipped(a: string, b: string)
    requires IsAlphabetText(a)
    requires |a| % 4 < 2 || (|a| % 4 == 2 && b != "" && ValueOf(b[0]).Some?)
    ensures Decode(a + "=" + b) == Decode(a + b)
  {
    EarlyPaddingIsSkippedFrom(a, b, START);
  }

  lemma {:induction false} EarlyPaddingIsSkippedFrom(a: string, b: string, st: State)
    requires st.Valid() && st.pads == 0 && IsAlphabetText(a)
    requires
      var quad := (st.quad + |a|) % 4;
      quad < 2 || (quad == 2 && b != "" && ValueOf(b[0]).Some?)
    ensures DecodeFrom(a + "=" + b, st) == DecodeFrom(a + b, st)
    decreases |a|
  {
    hide ValueOf, DecodeFrom;
    if a == "" {
      assert a + "=" + b == "=" + b && a + b == b;
      LonePadding(b, st);
    } else {
      var c, rest := a[0], a[1..];
      assert a == [c] + rest;
      Regroup([c], rest, b);
      Regroup([c], rest, "=" + b);
      Regroup(a, "=", b);
      Regroup(rest, "=", b);
      EarlyPaddingIsSkippedFrom(rest, b, Next(st, ValueOf(c).value));
      SameFirst(c, rest + "=" + b, rest + b, st);
    }
  }

  lemma {:induction false} LonePadding(b: string, st: State)
    requires st.Valid() && st.pads == 0
    requires st.quad < 2 || (st.quad == 2 && b != "" && ValueOf(b[0]).Some?)
    ensures DecodeFrom("=" + b, st) == DecodeFrom(b, st)
  {
    PaddingHasNoValue();
    hide ValueOf;
    assert ("=" + b)[1..] == b;
  }

  /**
   A text over the alphabet decodes exactly if its length is a multiple of four, and then it is the encoding
   of what it decodes to.
   */
  lemma {:induction false} EncodeDecode(text: string)
    requires IsAlphabetText(text)
    ensures Decode(text).Some? <==> |text| % 4 == 0
    ensures Decode(text).Some? ==> Encode(Decode(text).value) == text
  {
    hide ValueOf, Decode, DecodeFrom, CharOf, Encode;
    if |text| >= 4 {
      var a, b, c, d, rest := text[0], text[1], text[2], text[3], text[4..];
      assert a in text && b in text && c in text && d in text;
      assert text == [a, b, c, d] + rest;
      EncodeDecode(rest);
      FourCharacters(a, b, c, d, rest);
    } else {
      ShortTexts(text);
      NothingEncoded();
    }
  }

  lemma {:induction false} NothingEncoded()
    ensures Encode([]) == ""
  {
  }

  lemma {:induction false} ShortTexts(text: string)
    requires IsAlphabetText(text) && |text| < 4
    ensures Decode(text) == if text == "" then Some([]) else None
  {
    if text == "" {
      DecodeNothing();
    } else {
      NotEnough(text, START);
    }
  }

  /** A text that ends inside a group cannot be decoded. */
  lemma {:induction false} NotEnough(text: string, st: State)
    requires st.Valid() && IsAlphabetText(text) && 0 < st.quad + |text| < 4
    ensures DecodeFrom(text, st) == None
    decreases |text|
  {
    if text == "" {
    } else {
      var v := ValueOf(text[0]).value;
      assert text[0] in text && IsAlphabetText(text[1..]);
      NotEnough(text[1..], Next(st, v));
      ValuesOfAlphabet(text[0], v);
      assert text == [CharOf(v)] + text[1..];
      hide DecodeFrom, ValueOf, CharOf;
      DecodeSextet(v, text[1..], st);
    }
  }

  /** Four numbers below 64 are three bytes, and back. */
  lemma {:induction false} Bits(p: Sextet, q: Sextet, r: Sextet, s: Sextet) returns (x: Byte, y: Byte, z: Byte)
    ensures x / 4 == p && x % 4 * 16 + y / 16 == q && y % 16 * 4 + z / 64 == r && z % 64 == s
  {
    x := p * 4 + q / 16;
    y := q % 16 * 16 + r / 4;
    z := r % 4 * 64 + s;
  }

  lemma {:induction false} FourCharacters(a: char, b: char, c: char, d: char, rest: string)
    requires ValueOf(a).Some? && ValueOf(b).Some? && ValueOf(c).Some? && ValueOf(d).Some?
    ensures var text := [a, b, c, d] + rest;
      && (Decode(text).Some? <==> Decode(rest).Some?)
      && (Decode(rest).Some? && Encode(Decode(rest).value) == rest ==> Encode(Decode(text).value) == text)
  {
    var p, q, r, s := ValueOf(a).value, ValueOf(b).value, ValueOf(c).value, ValueOf(d).value;
    ValuesOfAlphabet(a, p); ValuesOfAlphabet(b, q); ValuesOfAlphabet(c, r); ValuesOfAlphabet(d, s);
    hide CharOf, ValueOf, Decode, DecodeFrom;
    var x, y, z := Bits(p, q, r, s);
    DecodeGroup(x, y, z, rest);
    if Decode(rest).Some? {
      var bytes := [x] + ([y] + ([z] + Decode(rest).value));
      assert bytes[3..] == Decode(rest).value;
    }
  }

  /** Behind the padding nothing is read; behind an encoding without padding everything is. */
  lemma {:induction false} DecodeBehindEncoding(bytes: seq<Byte>, rest: string)
    ensures Decode(Encode(bytes) + rest)
         == if |bytes| % 3 != 0 then Some(bytes)
            else match Decode(rest) case None => None case Some(more) => Some(bytes + more)
  {
    hide DecodeFrom, CharOf, Decode;
    if bytes == [] {
      assert "" + rest == rest;
      assert Decode(rest).Some? ==> [] + Decode(rest).value == Decode(rest).value;
    } else if |bytes| == 1 {
      PaddingEndsOne(bytes[0], rest);
      assert bytes == [bytes[0]];
    } else if |bytes| == 2 {
      PaddingEndsTwo(bytes[0], bytes[1], rest);
      assert bytes == [bytes[0], bytes[1]];
    } else {
      var tail := bytes[3..];
      DecodeBehindEncoding(tail, rest);
      DecodeGroup(bytes[0], bytes[1], bytes[2], Encode(tail) + rest);
      assert Encode(bytes) + rest == Encode(bytes)[..4] + (Encode(tail) + rest);
      assert bytes == [bytes[0]] + ([bytes[1]] + ([bytes[2]] + tail));
      assert Decode(rest).Some? ==>
        bytes + Decode(rest).value == [bytes[0]] + ([bytes[1]] + ([bytes[2]] + (tail + Decode(rest).value)));
    }
  }

  lemma {:induction false} PaddingEnds(rest: string, st: State)
    requires st.Valid() && st.pads == 0 && 2 <= st.quad
    ensures DecodeFrom((if st.quad == 2 then "==" else "=") + rest, st) == Some([])
  {
    if st.quad == 2 {
      assert ("==" + rest)[1..] == "=" + rest;
    }
  }

  lemma {:induction false} PaddingEndsOne(x: Byte, rest: string)
    ensures Decode(Encode([x]) + rest) == Some([x])
  {
    hide DecodeFrom, CharOf;
    var a, b := x / 4, x % 4 * 16;
    assert Encode([x]) + rest == [CharOf(a)] + ([CharOf(b)] + ("==" + rest));
    DecodeSextet(a, [CharOf(b)] + ("==" + rest), START);
    DecodeSextet(b, "==" + rest, State(1, a, 0));
    PaddingEnds(rest, State(2, b % 16, 0));
    assert a * 4 + b / 16 == x;
    assert [x] + [] == [x];
  }

  lemma {:induction false} PaddingEndsTwo(x: Byte, y: Byte, rest: string)
    ensures Decode(Encode([x, y]) + rest) == Some([x, y])
  {
    hide DecodeFrom, CharOf;
    var a, b, c := x / 4, x % 4 * 16 + y / 16, y % 16 * 4;
    assert Encode([x, y]) + rest == [CharOf(a)] + ([CharOf(b)] + ([CharOf(c)] + ("=" + rest)));
    DecodeSextet(a, [CharOf(b)] + ([CharOf(c)] + ("=" + rest)), START);
    DecodeSextet(b, [CharOf(c)] + ("=" + rest), State(1, a, 0));
    DecodeSextet(c, "=" + rest, State(2, b % 16, 0));
    PaddingEnds(rest, State(3, c % 4, 0));
    assert a * 4 + b / 16 == x && b % 16 * 16 + c / 4 == y;
    assert [x] + ([y] + []) == [x, y];
  }
}
