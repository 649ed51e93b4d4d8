/** Attachments travel as data URLs (section 3 of RFC 2397). */
module Attachments {
  import opened Results
  import opened Text
  import opened Base64
  import opened Mimetypes

  datatype DecodeError = NoComma | MalformedBase64 | NoSlash

  /** `encode_rfc2397`. */
  function EncodeRfc2397(content: seq<Byte>, mimetype: string): string
  {
    "data:" + mimetype + ";base64," + Encode(content)
  }

  /** `decode_rfc2397`: what stands behind the first comma is decoded. */
  function DecodeRfc2397(encoded: string): Result<seq<Byte>, DecodeError>
  {
    if encoded == "" then
      Success([])
    else
      match IndexOf(encoded, ",")
      case None => Failure(NoComma)
      case Some(i) =>
        match Decode(encoded[i + 1..])
        case None => Failure(MalformedBase64)
        case Some(content) => Success(content)
  }

  /** `text.split(separator)[0]`. */
  function Before(text: string, separator: string): string
  {
    match IndexOf(text, separator)
    case None => text
    case Some(i) => text[..i]
  }

  /** `get_attachment_extension_from_encoded_content`. */
  function ExtensionOfEncoded(encoded: string): Result<string, DecodeError>
  {
    var head := Before(encoded, ";");
    match IndexOf(head, "/")
    case None => Failure(NoSlash)
    case Some(i) => Success(Before(head[i + 1..], "/"))
  }

  /** `filename.rsplit(".", 1)[-1]`. */
  function ExtensionOfName(filename: string): (r: string)
    ensures r == filename || exists front :: filename == front + "." + r
    ensures '.' !in r
  {
    if '.' !in filename then
      filename
    else if filename[0] == '.' && '.' !in filename[1..] then
      assert filename == "" + "." + filename[1..];
      filename[1..]
    else
      assert '.' in filename[1..];
      var r := ExtensionOfName(filename[1..]);
      assert exists front :: filename == front + "." + r by {
        var front :| filename[1..] == front + "." + r;
        assert filename == ([filename[0]] + front) + "." + r;
      }
      r
  }

  /** `get_mimetype_by_filename`; `lower` is the host language's case folding. */
  function MimetypeByFilename(filename: string, lower: string -> string): Mimetype
  {
    ForExtension(lower(ExtensionOfName(filename)))
  }

  datatype BotXAPIAttachment = BotXAPIAttachment(fileName: string, data: string)

  /** `BotXAPIAttachment.from_file_attachment`. */
  function FromFileAttachment(filename: string, content: seq<Byte>, lower: string -> string): BotXAPIAttachment
  {
    BotXAPIAttachment(filename, EncodeRfc2397(content, MimetypeByFilename(filename, lower).Text()))
  }

  lemma {:induction false} FirstSeparator(front: string, separator: char, back: string)
    requires separator !in front
    ensures IndexOf(front + [separator] + back, [separator]) == Some(|front|)
  {
    var s := front + [separator] + back;
    assert s[|front|..] == [separator] + back;
    assert OccursAt(s, [separator], |front|);
    forall j: nat | j < |front| ensures !OccursAt(s, [separator], j) {
      assert s[j..][0] == front[j];
      assert front[j] in front;
    }
  }

  lemma {:induction false} NoSeparator(text: string, separator: char)
    requires separator !in text
    ensures IndexOf(text, [separator]).None?
  {
    assert forall i | 0 <= i < |text| :: text[i] in text && text[i..][0] == text[i];
  }

  /** The text of a data URL. */
  lemma {:induction false} EncodedText(filename: string, content: seq<Byte>, lower: string -> string)
    ensures FromFileAttachment(filename, content, lower).fileName == filename
    ensures FromFileAttachment(filename, content, lower).data
         == "data:" + MimetypeByFilename(filename, lower).Text() + ";base64," + Encode(content)
  {
  }

  /** The type goes by what stands behind the last dot, or by the whole name without a dot, in lower case. */
  lemma {:induction false} TypeOfName(front: string, extension: string, lower: string -> string)
    requires '.' !in extension
    ensures MimetypeByFilename(front + "." + extension, lower) == ForExtension(lower(extension))
    ensures MimetypeByFilename(extension, lower) == ForExtension(lower(extension))
  {
    hide ForExtension;
    LastDot(front, extension);
  }

  lemma {:induction false} LastDot(front: string, extension: string)
    requires '.' !in extension
    ensures ExtensionOfName(front + "." + extension) == extension
  {
    var name := front + "." + extension;
    if front == "" {
      assert name[1..] == extension;
    } else {
      LastDot(front[1..], extension);
      assert name[1..] == front[1..] + "." + extension;
      assert name[1..][|front| - 1] == '.';
    }
  }

  /** `Before` cuts at the first separator. */
  lemma {:induction false} BeforeSeparator(front: string, separator: char, back: string)
    requires separator !in front
    ensures Before(front + [separator] + back, [separator]) == front
    ensures Before(front, [separator]) == front
  {
    FirstSeparator(front, separator, back);
    NoSeparator(front, separator);
    assert (front + [separator] + back)[..|front|] == front;
  }

  /** The extension is what stands between the first two slashes in front of the first semicolon. */
  lemma {:induction false} ExtensionBetweenSlashes(front: string, extension: string, back: string, rest: string)
    requires '/' !in front && '/' !in extension
    requires ';' !in front && ';' !in extension && ';' !in back
    requires back == "" || back[0] == '/'
    ensures ExtensionOfEncoded(front + "/" + extension + back + ";" + rest) == Success(extension)
    ensures ExtensionOfEncoded(front + "/" + extension + back) == Success(extension)
  {
    var head := front + "/" + extension + back;
    BeforeSeparator(head, ';', rest);
    FirstSeparator(front, '/', extension + back);
    assert head == front + ['/'] + (extension + back);
    assert head[|front| + 1..] == extension + back;
    if back == "" {
      BeforeSeparator(extension, '/', "");
      assert extension + back == extension;
    } else {
      BeforeSeparator(extension, '/', back[1..]);
      assert extension + back == extension + ['/'] + back[1..];
    }
  }

  /** What is decoded is what stands behind the first comma; no data at all is no content. */
  lemma {:induction false} DecodeBehindComma(front: string, b64: string)
    requires ',' !in front
    ensures DecodeRfc2397(front + "," + b64)
         == match Decode(b64) case None => Failure(MalformedBase64) case Some(content) => Success(content)
    ensures DecodeRfc2397(front) == if front == "" then Success([]) else Failure(NoComma)
  {
    hide Decode;
    FirstSeparator(front, ',', b64);
    NoSeparator(front, ',');
    assert (front + "," + b64)[|front| + 1..] == b64;
  }

  /** There is data, but no comma in it, or what stands behind the first comma is no base64. */
  ghost predicate Unreadable(encoded: string)
  {
    && encoded != ""
    && forall front, b64 :: encoded == front + "," + b64 && ',' !in front ==> Decode(b64).None?
  }

  lemma {:induction false} DecodeFails(encoded: string)
    ensures DecodeRfc2397(encoded).Failure? <==> Unreadable(encoded)
  {
    hide Decode;
    forall front, b64 | encoded == front + "," + b64 && ',' !in front
      ensures IndexOf(encoded, ",") == Some(|front|) && encoded[|front| + 1..] == b64
    {
      FirstSeparator(front, ',', b64);
    }
    if IndexOf(encoded, ",").Some? {
      CutAtFirst(encoded, ',');
    }
  }

  lemma {:induction false} CutAtFirst(text: string, separator: char)
    requires IndexOf(text, [separator]).Some?
    ensures var i := IndexOf(text, [separator]).value;
      i < |text| && text == text[..i] + [separator] + text[i + 1..] && separator !in text[..i]
  {
    var i := IndexOf(text, [separator]).value;
    assert text[i..][0] == separator;
    forall j | 0 <= j < i ensures text[j] != separator {
      assert !OccursAt(text, [separator], j);
      assert text[j..] == [text[j]] + text[j + 1..];
    }
  }

  lemma {:induction false} ExtensionFails(encoded: string)
    ensures ExtensionOfEncoded(encoded).Failure? <==> '/' !in Before(encoded, ";")
  {
    var head := Before(encoded, ";");
    if '/' !in head {
      NoSeparator(head, '/');
    } else if IndexOf(head, "/").None? {
      var j :| 0 <= j < |head| && head[j] == '/';
      assert head[j..] == "/" + head[j + 1..];
      assert OccursAt(head, "/", j);
    }
  }

  /** A type without a comma keeps the content readable. */
  lemma {:induction false} DecodeEncodeRfc2397(content: seq<Byte>, mimetype: string)
    requires ',' !in mimetype
    ensures DecodeRfc2397(EncodeRfc2397(content, mimetype)) == Success(content)
  {
    var front, b64 := "data:" + mimetype + ";base64", Encode(content);
    var encoded := EncodeRfc2397(content, mimetype);
    assert ',' !in "data:" && ',' !in ";base64";
    assert encoded == front + [','] + b64 by {
      assert ";base64," == ";base64" + [','];
    }
    FirstSeparator(front, ',', b64);
    assert encoded[|front| + 1..] == b64;
    DecodeEncode(content);
  }

  /** The bytes of an attachment come back, whatever they are and whatever the file is called. */
  lemma {:induction false} AttachmentRoundTrip(filename: string, content: seq<Byte>, lower: string -> string)
    ensures DecodeRfc2397(FromFileAttachment(filename, content, lower).data) == Success(content)
  {
    hide ForExtension;
    var m := MimetypeByFilename(filename, lower);
    assert ',' !in m.Text();
    DecodeEncodeRfc2397(content, m.Text());
  }

  /** And the extension read from the data is the subtype of the type chosen for the file. */
  lemma {:induction false} AttachmentExtension(filename: string, content: seq<Byte>, lower: string -> string)
    ensures ExtensionOfEncoded(FromFileAttachment(filename, content, lower).data)
         == Success(MimetypeByFilename(filename, lower).subtype)
  {
    hide ForExtension;
    var m := MimetypeByFilename(filename, lower);
    var data := FromFileAttachment(filename, content, lower).data;
    var head, tail := "data:" + m.top + "/" + m.subtype, "base64," + Encode(content);
    assert ';' !in "data:" && '/' !in "data:";
    assert data == head + [';'] + tail by {
      assert ";base64," == [';'] + "base64,";
      assert "data:" + m.Text() == head;
    }
    FirstSeparator(head, ';', tail);
    assert data[..|head|] == head;
    FirstSeparator("data:" + m.top, '/', m.subtype);
    assert head == "data:" + m.top + ['/'] + m.subtype;
    assert head[|"data:" + m.top| + 1..] == m.subtype;
    NoSeparator(m.subtype, '/');
  }
}
