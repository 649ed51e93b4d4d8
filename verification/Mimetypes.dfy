/** `EXTENSIONS_TO_MIMETYPES`: the type registered for a file name extension. */
module Mimetypes {
  import opened Results

  /** No character that separates the parts of a data URL. */
  predicate IsPlainText(s: string)
  {
    ',' !in s && ';' !in s && '/' !in s
  }

  type PlainText = s: string | IsPlainText(s)

  /** An entry of the table, cut at its slash. */
  datatype Mimetype = Mimetype(top: PlainText, subtype: PlainText)
  {
    function Text(): string
    {
      top + "/" + subtype
    }
  }

  const APPLICATION: PlainText := "application"
  const AUDIO: PlainText := "audio"
  const FONT: PlainText := "font"
  const IMAGE: PlainText := "image"
  const TEXT: PlainText := "text"
  const VIDEO: PlainText := "video"

  const DEFAULT_MIMETYPE := Mimetype(APPLICATION, "octet-stream")

  function Joined(a: PlainText, b: PlainText): PlainText
  {
    a + b
  }

  const OFFICE_DOCUMENT: PlainText := Joined("vnd.openxmlformats", "-officedocument.")

  function OfficeDocument(format: PlainText, kind: PlainText): PlainText
  {
    OFFICE_DOCUMENT + format + "." + kind
  }

  function OpenDocument(format: PlainText): PlainText
  {
    "vnd.oasis.opendocument." + format
  }

  // ----- The table, by kind of file -----

  function ArchiveSubtype(extension: string): Option<PlainText>
  {
    if extension == "7z" then Some("x-7z-compressed")
    else if extension == "arc" then Some("x-freearc")
    else if extension == "bz" then Some("x-bzip")
    else if extension == "bz2" then Some("x-bzip2")
    else if extension == "gz" then Some("gzip")
    else if extension == "rar" then Some("vnd.rar")
    else if extension == "tar" then Some("x-tar")
    else if extension == "zip" then Some("zip")
    else None
  }

  function OfficeSubtype(extension: string): Option<PlainText>
  {
    if extension == "doc" then Some("msword")
    else if extension == "mdb" then Some("x-msaccess")
    else if extension == "ppt" then Some("vnd.ms-powerpoint")
    else if extension == "vsd" then Some("vnd.visio")
    else if extension == "xls" then Some("vnd.ms-excel")
    else None
  }

  function OfficeXmlSubtype(extension: string): Option<PlainText>
  {
    if extension == "docx" then Some(OfficeDocument("wordprocessingml", "document"))
    else if extension == "pptx" then Some(OfficeDocument("presentationml", "presentation"))
    else if extension == "xlsx" then Some(OfficeDocument("spreadsheetml", "sheet"))
    else None
  }

  function OpenDocumentFormatSubtype(extension: string): Option<PlainText>
  {
    if extension == "odp" then Some(OpenDocument("presentation"))
    else if extension == "ods" then Some(OpenDocument("spreadsheet"))
    else if extension == "odt" then Some(OpenDocument("text"))
    else None
  }

  function BookSubtype(extension: string): Option<PlainText>
  {
    if extension == "abw" then Some("x-abiword")
    else if extension == "azw" then Some("vnd.amazon.ebook")
    else if extension == "epub" then Some("epub+zip")
    else if extension == "pdf" then Some("pdf")
    else if extension == "rtf" then Some("rtf")
    else None
  }

  function PostScriptSubtype(extension: string): Option<PlainText>
  {
    if extension == "ai" then Some("postscript")
    else if extension == "eps" then Some("postscript")
    else if extension == "ps" then Some("postscript")
    else None
  }

  function JsonSubtype(extension: string): Option<PlainText>
  {
    if extension == "json-api" then Some("vnd.api+json")
    else if extension == "json-patch" then Some("json-patch+json")
    else if extension == "json" then Some("json")
    else if extension == "jsonld" then Some("ld+json")
    else None
  }

  function ScriptSubtype(extension: string): Option<PlainText>
  {
    if extension == "csh" then Some("x-csh")
    else if extension == "php" then Some("x-httpd-php")
    else if extension == "sh" then Some("x-sh")
    else None
  }

  function ProgramSubtype(extension: string): Option<PlainText>
  {
    if extension == "bin" then Some("octet-stream")
    else if extension == "jar" then Some("java-archive")
    else if extension == "mpkg" then Some(Joined("vnd.apple.", "installer+xml"))
    else if extension == "wasm" then Some("wasm")
    else None
  }

  function PageSubtype(extension: string): Option<PlainText>
  {
    if extension == "webmanifest" then Some("manifest+json")
    else if extension == "xhtml" then Some("xhtml+xml")
    else if extension == "xul" then Some("vnd.mozilla.xul+xml")
    else None
  }

  function MediaSubtype(extension: string): Option<PlainText>
  {
    if extension == "cda" then Some("x-cdf")
    else if extension == "eot" then Some("vnd.ms-fontobject")
    else if extension == "ogx" then Some("ogg")
    else if extension == "swf" then Some("x-shockwave-flash")
    else None
  }

  function ApplicationSubtype(extension: string): Option<PlainText>
  {
    if ArchiveSubtype(extension).Some? then ArchiveSubtype(extension)
    else if OfficeSubtype(extension).Some? then OfficeSubtype(extension)
    else if OfficeXmlSubtype(extension).Some? then OfficeXmlSubtype(extension)
    else if OpenDocumentFormatSubtype(extension).Some? then OpenDocumentFormatSubtype(extension)
    else if BookSubtype(extension).Some? then BookSubtype(extension)
    else if PostScriptSubtype(extension).Some? then PostScriptSubtype(extension)
    else if JsonSubtype(extension).Some? then JsonSubtype(extension)
    else if ScriptSubtype(extension).Some? then ScriptSubtype(extension)
    else if ProgramSubtype(extension).Some? then ProgramSubtype(extension)
    else if PageSubtype(extension).Some? then PageSubtype(extension)
    else MediaSubtype(extension)
  }

  function AudioSubtype(extension: string): Option<PlainText>
  {
    if extension == "aac" then Some("aac")
    else if extension == "mid" then Some("midi")
    else if extension == "midi" then Some("midi")
    else if extension == "mp3" then Some("mpeg")
    else if extension == "oga" then Some("ogg")
    else if extension == "opus" then Some("opus")
    else if extension == "wav" then Some("wav")
    else if extension == "weba" then Some("webm")
    else None
  }

  function FontSubtype(extension: string): Option<PlainText>
  {
    if extension == "otf" then Some("otf")
    else if extension == "ttf" then Some("ttf")
    else if extension == "woff" then Some("woff")
    else if extension == "woff2" then Some("woff2")
    else None
  }

  function DrawingSubtype(extension: string): Option<PlainText>
  {
    if extension == "ico" then Some("vnd.microsoft.icon")
    else if extension == "svg" then Some("svg+xml")
    else if extension == "svgz" then Some("svg+xml")
    else None
  }

  function ImageSubtype(extension: string): Option<PlainText>
  {
    if extension == "avif" then Some("avif")
    else if extension == "bmp" then Some("bmp")
    else if extension == "gif" then Some("gif")
    else if extension == "jpeg" then Some("jpeg")
    else if extension == "jpg" then Some("jpeg")
    else if extension == "png" then Some("png")
    else if extension == "tif" then Some("tiff")
    else if extension == "tiff" then Some("tiff")
    else if extension == "webp" then Some("webp")
    else DrawingSubtype(extension)
  }

  function TextSubtype(extension: string): Option<PlainText>
  {
    if extension == "css" then Some("css")
    else if extension == "csv" then Some("csv")
    else if extension == "htm" then Some("html")
    else if extension == "html" then Some("html")
    else if extension == "ics" then Some("calendar")
    else if extension == "js" then Some("javascript")
    else if extension == "mjs" then Some("javascript")
    else if extension == "txt" then Some("plain")
    else if extension == "text" then Some("plain")
    else if extension == "xml" then Some("xml")
    else None
  }

  function VideoSubtype(extension: string): Option<PlainText>
  {
    if extension == "3g2" then Some("3gpp2")
    else if extension == "3gp" then Some("3gpp")
    else if extension == "avi" then Some("x-msvideo")
    else if extension == "mov" then Some("quicktime")
    else if extension == "mp4" then Some("mp4")
    else if extension == "mpeg" then Some("mpeg")
    else if extension == "mpg" then Some("mpeg")
    else if extension == "ogv" then Some("ogg")
    else if extension == "ts" then Some("mp2t")
    else if extension == "webm" then Some("webm")
    else if extension == "wmv" then Some("x-ms-wmv")
    else None
  }

  /** `EXTENSIONS_TO_MIMETYPES.get(extension, DEFAULT_MIMETYPE)`. */
  function ForExtension(extension: string): Mimetype
  {
    hide IsPlainText;
    if ApplicationSubtype(extension).Some? then Mimetype(APPLICATION, ApplicationSubtype(extension).value)
    else if AudioSubtype(extension).Some? then Mimetype(AUDIO, AudioSubtype(extension).value)
    else if FontSubtype(extension).Some? then Mimetype(FONT, FontSubtype(extension).value)
    else if ImageSubtype(extension).Some? then Mimetype(IMAGE, ImageSubtype(extension).value)
    else if TextSubtype(extension).Some? then Mimetype(TEXT, TextSubtype(extension).value)
    else if VideoSubtype(extension).Some? then Mimetype(VIDEO, VideoSubtype(extension).value)
    else DEFAULT_MIMETYPE
  }
}
