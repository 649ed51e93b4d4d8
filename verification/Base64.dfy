/**
 Base64 as the host language's library does it: section 4 of RFC 4648, and a decoder that skips what
 it does not know.
 */
module Base64 {
  import opened Results

  type Byte = b: int | 0 <= b < 256
  type Sextet = v: int | 0 <= v < 64

  function CharOf(v: Sextet): (c: char)
    ensures c != '='
  {
    if v < 26 then 'A' + v as char
    else if v < 52 then 'a' + (v - 26) as char
    else if v < 62 then '0' + (v - 52) as char
    else if v == 62 then '+'
    else '/'
  }

  function ValueOf(c: char): Option<Sextet>
  {
    if 'A' <= c <= 'Z' then Some(c as int - 'A' as int)
    else if 'a' <= c <= 'z' then Some(c as int - 'a' as int + 26)
    else if '0' <= c <= '9' then Some(c as int - '0' as int + 52)
    else if c == '+' then Some(62)
    else if c == '/' then Some(63)
    else None
  }

  lemma {:induction false} ValueOfCharOf(v: Sextet)
    ensures ValueOf(CharOf(v)) == Some(v)
  {
  }

  /** `base64.b64encode(bytes).decode()`. */
  function Encode(bytes: seq<Byte>): string
  {
    if bytes == [] then
      ""
    else if |bytes| == 1 then
      [CharOf(bytes[0] / 4), CharOf(bytes[0] % 4 * 16), '=', '=']
    else if |bytes| == 2 then
      [CharOf(bytes[0] / 4), CharOf(bytes[0] % 4 * 16 + bytes[1] / 16), CharOf(bytes[1] % 16 * 4), '=']
    else
      [CharOf(bytes[0] / 4), CharOf(bytes[0] % 4 * 16 + bytes[1] / 16),
       CharOf(bytes[1] % 16 * 4 + bytes[2] / 64), CharOf(bytes[2] % 64)] + Encode(bytes[3..])
  }

  /** Where in a group of four the decoder is, the bits it holds over, and the padding it has seen. */
  datatype State = State(quad: nat, left: nat, pads: nat)
  {
    predicate Valid()
    {
      quad < 4 && (quad == 0 || left < [64, 64, 16, 4][quad])
    }
  }

  const START := State(0, 0, 0)

  /** `base64.b64decode(text)`, character by character. */
  function DecodeFrom(text: string, st: State): Option<seq<Byte>>
    requires st.Valid()
  {
    if text == "" then
      if st.quad == 0 then Some([]) else None
    else if text[0] == '=' then
      if st.quad < 2 then DecodeFrom(text[1..], st)
      else if st.quad + st.pads + 1 >= 4 then Some([])
      else DecodeFrom(text[1..], st.(pads := st.pads + 1))
    else
      match ValueOf(text[0])
      case None => DecodeFrom(text[1..], st)
      case Some(v) =>
        if st.quad == 0 then DecodeFrom(text[1..], State(1, v, 0))
        else if st.quad == 1 then Emit(st.left * 4 + v / 16, DecodeFrom(text[1..], State(2, v % 16, 0)))
        else if st.quad == 2 then Emit(st.left * 16 + v / 4, DecodeFrom(text[1..], State(3, v % 4, 0)))
        else Emit(st.left * 64 + v, DecodeFrom(text[1..], START))
  }

  function Emit(b: Byte, rest: Option<seq<Byte>>): Option<seq<Byte>>
  {
    match rest
    case None => None
    case Some(bytes) => Some([b] + bytes)
  }

  function Decode(text: string): Option<seq<Byte>>
  {
    DecodeFrom(text, START)
  }

  lemma {:induction false} DecodeSextet(v: Sextet, rest: string, st: State)
    requires st.Valid()
    ensures DecodeFrom([CharOf(v)] + rest, st) ==
      if st.quad == 0 then DecodeFrom(rest, State(1, v, 0))
      else if st.quad == 1 then Emit(st.left * 4 + v / 16, DecodeFrom(rest, State(2, v % 16, 0)))
      else if st.quad == 2 then Emit(st.left * 16 + v / 4, DecodeFrom(rest, State(3, v % 4, 0)))
      else Emit(st.left * 64 + v, DecodeFrom(rest, START))
  {
    ValueOfCharOf(v);
    assert ([CharOf(v)] + rest)[1..] == rest;
  }

  lemma {:induction false} DecodePadding(st: State)
    requires st.Valid() && 2 <= st.quad && st.pads == 0
    ensures DecodeFrom(if st.quad == 2 then "==" else "=", st) == Some([])
  {
    assert "=="[1..] == "=";
  }

  lemma {:induction false} DecodeLastByte(x: Byte)
    ensures Decode(Encode([x])) == Some([x])
  {
    hide DecodeFrom, CharOf;
    var a, b := x / 4, x % 4 * 16;
    assert Encode([x]) == [CharOf(a)] + ([CharOf(b)] + "==");
    DecodeSextet(a, [CharOf(b)] + "==", START);
    DecodeSextet(b, "==", State(1, a, 0));
    DecodePadding(State(2, b % 16, 0));
    assert a * 4 + b / 16 == x;
    assert [x] + [] == [x];
  }

  lemma {:induction false} DecodeLastTwoBytes(x: Byte, y: Byte)
    ensures Decode(Encode([x, y])) == Some([x, y])
  {
    hide DecodeFrom, CharOf;
    var a, b, c := x / 4, x % 4 * 16 + y / 16, y % 16 * 4;
    assert Encode([x, y]) == [CharOf(a)] + ([CharOf(b)] + ([CharOf(c)] + "="));
    DecodeSextet(a, [CharOf(b)] + ([CharOf(c)] + "="), START);
    DecodeSextet(b, [CharOf(c)] + "=", State(1, a, 0));
    DecodeSextet(c, "=", State(2, b % 16, 0));
    DecodePadding(State(3, c % 4, 0));
    assert a * 4 + b / 16 == x && b % 16 * 16 + c / 4 == y;
    assert [x] + ([y] + []) == [x, y];
  }

  lemma {:induction false} DecodeGroup(x: Byte, y: Byte, z: Byte, rest: string)
    ensures Decode([CharOf(x / 4), CharOf(x % 4 * 16 + y / 16), CharOf(y % 16 * 4 + z / 64), CharOf(z % 64)] + rest)
         == Emit(x, Emit(y, Emit(z, Decode(rest))))
  {
    hide DecodeFrom, CharOf, Emit;
    var a, b, c, d := x / 4, x % 4 * 16 + y / 16, y % 16 * 4 + z / 64, z % 64;
    assert [CharOf(a), CharOf(b), CharOf(c), CharOf(d)] + rest
        == [CharOf(a)] + ([CharOf(b)] + ([CharOf(c)] + ([CharOf(d)] + rest)));
    DecodeSextet(a, [CharOf(b)] + ([CharOf(c)] + ([CharOf(d)] + rest)), START);
    DecodeSextet(b, [CharOf(c)] + ([CharOf(d)] + rest), State(1, a, 0));
    DecodeSextet(c, [CharOf(d)] + rest, State(2, b % 16, 0));
    DecodeSextet(d, rest, State(3, c % 4, 0));
    assert a * 4 + b / 16 == x && b % 16 * 16 + c / 4 == y && c % 4 * 64 + d == z;
  }

  /** Decoding what was encoded gives all bytes back. */
  lemma {:induction false} DecodeEncode(bytes: seq<Byte>)
    ensures Decode(Encode(bytes)) == Some(bytes)
  {
    hide DecodeFrom, CharOf, Decode;
    if bytes == [] {
      DecodeNothing();
    } else if |bytes| == 1 {
      DecodeLastByte(bytes[0]);
      assert bytes == [bytes[0]];
    } else if |bytes| == 2 {
      DecodeLastTwoBytes(bytes[0], bytes[1]);
      assert bytes == [bytes[0], bytes[1]];
    } else {
      DecodeEncode(bytes[3..]);
      DecodeGroup(bytes[0], bytes[1], bytes[2], Encode(bytes[3..]));
      assert bytes == [bytes[0]] + ([bytes[1]] + ([bytes[2]] + bytes[3..]));
    }
  }

  lemma {:induction false} DecodeNothing()
    ensures Decode("") == Some([])
  {
  }
}
