/** How a message body is cut into the command and its arguments. */
module Commands {
  import opened Results
  import opened Sequences
  import opened Text

  /** The longest front of `s` without whitespace. */
  function Word(s: string): (w: string)
    ensures w <= s && NoSpace(w)
    ensures w == s || IsSpace(s[|w|])
  {
    if s == "" || IsSpace(s[0]) then "" else [s[0]] + Word(s[1..])
  }

  /** `s.split()`. */
  function Split(s: string): (words: seq<string>)
    ensures forall w | w in words :: w != "" && NoSpace(w)
    decreases |s|
  {
    if s == "" then
      []
    else if IsSpace(s[0]) then
      Split(s[1..])
    else
      var w := Word(s);
      [w] + Split(s[|w|..])
  }

  function StripLeft(s: string): string
  {
    if s == "" || !IsSpace(s[0]) then s else StripLeft(s[1..])
  }

  function StripRight(s: string): string
  {
    if s == "" || !IsSpace(s[|s| - 1]) then s else StripRight(s[..|s| - 1])
  }

  /** `s.strip()`. */
  function Strip(s: string): string
  {
    StripRight(StripLeft(s))
  }

  /** `IncomingMessage.argument`. */
  function Argument(body: string): string
  {
    var splitBody := Split(body);
    if splitBody == [] then
      ""
    else
      SplitHeadFits(body);
      Strip(body[|splitBody[0]|..])
  }

  /** `IncomingMessage.arguments`. */
  function Arguments(body: string): seq<string>
  {
    var words := Split(Argument(body));
    seq(|words|, i requires 0 <= i < |words| => Strip(words[i]))
  }

  datatype DispatchError = NoFirstWord

  /** The key `_dispatch` looks up; a body of whitespace only has no first word and makes it fail. */
  function CommandKey(body: string): Result<string, DispatchError>
  {
    if body == "" then Success("")
    else if Split(body) == [] then Failure(NoFirstWord)
    else Success(Split(body)[0])
  }

  lemma {:induction false} SplitHeadFits(s: string)
    ensures Split(s) != [] ==> |Split(s)[0]| <= |s|
    decreases |s|
  {
    if s != "" && IsSpace(s[0]) {
      SplitHeadFits(s[1..]);
    }
  }

  // ----- What splitting and trimming do to each other -----

  lemma {:induction false} SplitSpace(a: string, s: string)
    requires AllSpace(a)
    ensures Split(a + s) == Split(s)
    decreases |a|
  {
    if a == "" {
      assert a + s == s;
    } else {
      assert (a + s)[1..] == a[1..] + s;
      SplitSpace(a[1..], s);
    }
  }

  lemma {:induction false} WordOf(w: string, s: string)
    requires NoSpace(w) && (s == "" || IsSpace(s[0]))
    ensures Word(w + s) == w
  {
    if w == "" {
      assert w + s == s;
    } else {
      assert (w + s)[1..] == w[1..] + s;
      WordOf(w[1..], s);
    }
  }

  /** A word at the front, followed by whitespace or nothing, is the first word. */
  lemma {:induction false} SplitWord(w: string, s: string)
    requires w != "" && NoSpace(w) && (s == "" || IsSpace(s[0]))
    ensures Split(w + s) == [w] + Split(s)
  {
    WordOf(w, s);
    assert !IsSpace((w + s)[0]) by { assert (w + s)[0] == w[0] && w[0] in w; }
    assert (w + s)[|w|..] == s;
  }

  lemma {:induction false} SplitTrailingSpace(s: string, a: string)
    requires AllSpace(a)
    ensures Split(s + a) == Split(s)
    decreases |s|
  {
    if s == "" {
      assert s + a == a + "";
      SplitSpace(a, "");
    } else if IsSpace(s[0]) {
      assert (s + a)[1..] == s[1..] + a;
      SplitTrailingSpace(s[1..], a);
    } else {
      var w := Word(s);
      var rest := s[|w|..];
      assert s == w + rest && s + a == w + (rest + a);
      SplitWord(w, rest);
      assert rest + a == "" || IsSpace((rest + a)[0]);
      SplitWord(w, rest + a);
      SplitTrailingSpace(rest, a);
    }
  }

  /** Trimming takes whitespace off both ends and leaves none there; what is between stays as it is. */
  lemma {:induction false} StripIsTrim(s: string) returns (front: string, back: string)
    ensures s == front + Strip(s) + back && AllSpace(front) && AllSpace(back)
    ensures Strip(s) == "" || (!IsSpace(Strip(s)[0]) && !IsSpace(Strip(s)[|Strip(s)| - 1]))
  {
    front := StripLeftIsTrim(s);
    back := StripRightIsTrim(StripLeft(s));
    assert s == front + (Strip(s) + back);
  }

  lemma {:induction false} StripLeftIsTrim(s: string) returns (front: string)
    ensures s == front + StripLeft(s) && AllSpace(front)
    ensures StripLeft(s) == "" || !IsSpace(StripLeft(s)[0])
  {
    if s == "" || !IsSpace(s[0]) {
      front := "";
    } else {
      var front' := StripLeftIsTrim(s[1..]);
      assert s == [s[0]] + s[1..];
      Regroup([s[0]], front', StripLeft(s[1..]));
      front := [s[0]] + front';
    }
  }

  lemma {:induction false} StripRightIsTrim(s: string) returns (back: string)
    ensures s == StripRight(s) + back && AllSpace(back)
    ensures StripRight(s) == "" || !IsSpace(StripRight(s)[|StripRight(s)| - 1])
    ensures StripRight(s) != "" ==> StripRight(s)[0] == s[0]
  {
    if s == "" || !IsSpace(s[|s| - 1]) {
      back := "";
    } else {
      hide IsSpace;
      var back' := StripRightIsTrim(s[..|s| - 1]);
      assert s == s[..|s| - 1] + [s[|s| - 1]];
      Regroup(StripRight(s), back', [s[|s| - 1]]);
      back := back' + [s[|s| - 1]];
    }
  }

  lemma {:induction false} SplitStrip(s: string)
    ensures Split(Strip(s)) == Split(s)
  {
    var front, back := StripIsTrim(s);
    assert s == front + (Strip(s) + back);
    SplitSpace(front, Strip(s) + back);
    SplitTrailingSpace(Strip(s), back);
  }

  lemma {:induction false} StripWord(w: string)
    requires NoSpace(w)
    ensures Strip(w) == w
  {
    assert w != "" ==> w[0] in w && w[|w| - 1] in w;
  }

  /**
   Trimming each argument once more changes nothing: the arguments are the words behind the first
   |first word| characters.
   */
  lemma {:induction false} ArgumentsAreWords(body: string)
    requires Split(body) != []
    ensures |Split(body)[0]| <= |body|
    ensures Arguments(body) == Split(body[|Split(body)[0]|..])
  {
    SplitHeadFits(body);
    SplitStrip(body[|Split(body)[0]|..]);
    var words := Split(Argument(body));
    forall i | 0 <= i < |words| ensures Strip(words[i]) == words[i] {
      assert words[i] in words;
      StripWord(words[i]);
    }
  }

  // ----- Agreement -----

  /** Leading whitespace, the first word, and what stands behind it. */
  lemma {:induction false} CutAtFirstWord(s: string) returns (space: string, word: string, rest: string)
    ensures s == space + word + rest
    ensures AllSpace(space) && NoSpace(word) && (rest == "" || IsSpace(rest[0]))
    ensures space == "" <==> s == "" || !IsSpace(s[0])
    ensures word == "" ==> rest == ""
    ensures Split(s) == if word == "" then [] else [word] + Split(rest)
    decreases |s|
  {
    hide IsSpace, Word;
    if s != "" && IsSpace(s[0]) {
      var space';
      space', word, rest := CutAtFirstWord(s[1..]);
      space := [s[0]] + space';
      assert s == [s[0]] + s[1..];
      Regroup([s[0]], space' + word, rest);
      Regroup([s[0]], space', word);
    } else {
      space, word, rest := "", Word(s), s[|Word(s)|..];
      CutBehindWord(s);
    }
  }

  lemma {:induction false} CutBehindWord(s: string)
    requires s == "" || !IsSpace(s[0])
    ensures s == "" + Word(s) + s[|Word(s)|..] && (s[|Word(s)|..] == "" || IsSpace(s[|Word(s)|..][0]))
    ensures Word(s) == "" <==> s == ""
    ensures Split(s) == if s == "" then [] else [Word(s)] + Split(s[|Word(s)|..])
  {
    hide IsSpace;
  }

  /** A text has no words exactly if it is whitespace. */
  lemma {:induction false} NoWords(s: string)
    ensures Split(s) == [] <==> AllSpace(s)
  {
    var space, word, rest := CutAtFirstWord(s);
    if word != "" {
      assert s[|space|] == word[0] && word[0] in word && s[|space|] in s;
    }
  }

  /** Cutting inside the leading whitespace or the first word leaves that word, or its end, in front. */
  lemma {:induction false} CutLeavesFirstWord(space: string, word: string, rest: string, n: nat)
    requires AllSpace(space) && NoSpace(word) && word != "" && (rest == "" || IsSpace(rest[0]))
    requires n < |space| + |word|
    ensures |Split((space + word + rest)[n..])| == 1 + |Split(rest)|
  {
    var s := space + word + rest;
    if n <= |space| {
      assert s[n..] == space[n..] + (word + rest);
      SplitSpace(space[n..], word + rest);
      SplitWord(word, rest);
    } else {
      var end := word[n - |space|..];
      assert s[n..] == end + rest;
      SplitWord(end, rest);
    }
  }

  /** Dispatching fails exactly on a body that is not empty and all whitespace. */
  lemma {:induction false} DispatchFailsOnBlank(body: string)
    ensures CommandKey(body).Failure? <==> body != "" && AllSpace(body)
  {
    NoWords(body);
  }

  /**
   The dispatched command and the arguments are the words of the body, exactly if the body does
   not start with whitespace: the argument is cut off by the length of the command, from the very front.
   */
  lemma {:induction false} DispatchAgreesWithSplit(body: string)
    requires !AllSpace(body)
    ensures CommandKey(body).Success?
    ensures [CommandKey(body).value] + Arguments(body) == Split(body) <==> !IsSpace(body[0])
  {
    NoWords(body);
    var space, word, rest := CutAtFirstWord(body);
    ArgumentsAreWords(body);
    if space == "" {
      assert body[|word|..] == rest;
    } else {
      CutLeavesFirstWord(space, word, rest, |word|);
    }
  }

  /** The key of a body is its first word; the empty body has the empty key. */
  lemma {:induction false} CommandIsFirstWord(body: string) returns (space: string, rest: string)
    requires !AllSpace(body)
    ensures CommandKey(body).Success?
    ensures var key := CommandKey(body).value;
      && body == space + key + rest
      && AllSpace(space) && key != "" && NoSpace(key) && (rest == "" || IsSpace(rest[0]))
  {
    NoWords(body);
    var word;
    space, word, rest := CutAtFirstWord(body);
  }

  /** A body without words has no arguments; only the empty one can be dispatched, under the empty key. */
  lemma {:induction false} BlankBody(body: string)
    requires AllSpace(body)
    ensures Argument(body) == "" && Arguments(body) == []
    ensures CommandKey(body) == if body == "" then Success("") else Failure(NoFirstWord)
  {
    NoWords(body);
  }

  /**
   The argument is all that stands behind as many characters as the command has, trimmed at its ends and
   untouched inside.
   */
  lemma {:induction false} ArgumentIsTrimmedRemainder(body: string) returns (front: string, back: string)
    requires !AllSpace(body)
    ensures CommandKey(body).Success? && |CommandKey(body).value| <= |body|
    ensures body[|CommandKey(body).value|..] == front + Argument(body) + back
    ensures !IsSpace(body[0]) ==> body == CommandKey(body).value + front + Argument(body) + back
    ensures AllSpace(front) && AllSpace(back)
    ensures Argument(body) == "" || (!IsSpace(Argument(body)[0]) && !IsSpace(Argument(body)[|Argument(body)| - 1]))
  {
    NoWords(body);
    SplitHeadFits(body);
    var word := Split(body)[0];
    FirstWordInFront(body);
    hide Split, Strip, AllSpace, NoSpace, IsSpace;
    front, back := StripIsTrim(body[|word|..]);
    RegroupFour(word, front, Argument(body), back);
    Regroup(front, Argument(body), back);
  }

  lemma {:induction false} FirstWordInFront(body: string)
    requires Split(body) != []
    ensures body != ""
    ensures !IsSpace(body[0]) ==>
      |Split(body)[0]| <= |body| && body == Split(body)[0] + body[|Split(body)[0]|..]
  {
    var space, word, rest := CutAtFirstWord(body);
    if space == "" {
      assert body[|word|..] == rest;
    }
  }
}
