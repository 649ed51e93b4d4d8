/** The table of media types, read the other way round: which extensions have a type, and no others. */
module MimetypeTable {
  import opened Results
  import opened Mimetypes

  lemma {:induction false} ArchiveTypes(extension: string)
    ensures ArchiveSubtype(extension) == Some("x-7z-compressed") <==> extension == "7z"
    ensures ArchiveSubtype(extension) == Some("x-freearc") <==> extension == "arc"
    ensures ArchiveSubtype(extension) == Some("x-bzip") <==> extension == "bz"
    ensures ArchiveSubtype(extension) == Some("x-bzip2") <==> extension == "bz2"
    ensures ArchiveSubtype(extension) == Some("gzip") <==> extension == "gz"
    ensures ArchiveSubtype(extension) == Some("vnd.rar") <==> extension == "rar"
    ensures ArchiveSubtype(extension) == Some("x-tar") <==> extension == "tar"
    ensures ArchiveSubtype(extension) == Some("zip") <==> extension == "zip"
    ensures ArchiveSubtype(extension).Some? ==>
      extension == "7z" || extension == "arc" || extension == "bz" || extension == "bz2" || extension == "gz"
      || extension == "rar" || extension == "tar" || extension == "zip"
  {
  }

  lemma {:induction false} OfficeTypes(extension: string)
    ensures OfficeSubtype(extension) == Some("msword") <==> extension == "doc"
    ensures OfficeSubtype(extension) == Some("x-msaccess") <==> extension == "mdb"
    ensures OfficeSubtype(extension) == Some("vnd.ms-powerpoint") <==> extension == "ppt"
    ensures OfficeSubtype(extension) == Some("vnd.visio") <==> extension == "vsd"
    ensures OfficeSubtype(extension) == Some("vnd.ms-excel") <==> extension == "xls"
    ensures OfficeSubtype(extension).Some? ==>
      extension == "doc" || extension == "mdb" || extension == "ppt" || extension == "vsd" || extension == "xls"
  {
  }

  lemma {:induction false} OfficeXmlTypes(extension: string)
    ensures extension == "docx" ==>
      && OfficeXmlSubtype(extension).Some?
      && OfficeXmlSubtype(extension).value
         == "vnd.openxmlformats" + "-officedocument." + "wordprocessingml" + "." + "document"
    ensures extension == "pptx" ==>
      && OfficeXmlSubtype(extension).Some?
      && OfficeXmlSubtype(extension).value
         == "vnd.openxmlformats" + "-officedocument." + "presentationml" + "." + "presentation"
    ensures extension == "xlsx" ==>
      && OfficeXmlSubtype(extension).Some?
      && OfficeXmlSubtype(extension).value
         == "vnd.openxmlformats" + "-officedocument." + "spreadsheetml" + "." + "sheet"
    ensures OfficeXmlSubtype(extension).Some? ==>
      extension == "docx" || extension == "pptx" || extension == "xlsx"
  {
  }

  lemma {:induction false} OpenDocumentFormatTypes(extension: string)
    ensures extension == "odp" ==>
      && OpenDocumentFormatSubtype(extension).Some?
      && OpenDocumentFormatSubtype(extension).value == "vnd.oasis.opendocument." + "presentation"
    ensures extension == "ods" ==>
      && OpenDocumentFormatSubtype(extension).Some?
      && OpenDocumentFormatSubtype(extension).value == "vnd.oasis.opendocument." + "spreadsheet"
    ensures extension == "odt" ==>
      && OpenDocumentFormatSubtype(extension).Some?
      && OpenDocumentFormatSubtype(extension).value == "vnd.oasis.opendocument." + "text"
    ensures OpenDocumentFormatSubtype(extension).Some? ==>
      extension == "odp" || extension == "ods" || extension == "odt"
  {
  }

  lemma {:induction false} BookTypes(extension: string)
    ensures BookSubtype(extension) == Some("x-abiword") <==> extension == "abw"
    ensures BookSubtype(extension) == Some("vnd.amazon.ebook") <==> extension == "azw"
    ensures BookSubtype(extension) == Some("epub+zip") <==> extension == "epub"
    ensures BookSubtype(extension) == Some("pdf") <==> extension == "pdf"
    ensures BookSubtype(extension) == Some("rtf") <==> extension == "rtf"
    ensures BookSubtype(extension).Some? ==>
      extension == "abw" || extension == "azw" || extension == "epub" || extension == "pdf"
      || extension == "rtf"
  {
  }

  lemma {:induction false} PostScriptTypes(extension: string)
    ensures PostScriptSubtype(extension) == Some("postscript") <==>
      extension == "ai" || extension == "eps" || extension == "ps"
    ensures PostScriptSubtype(extension).Some? ==>
      extension == "ai" || extension == "eps" || extension == "ps"
  {
  }

  lemma {:induction false} JsonTypes(extension: string)
    ensures JsonSubtype(extension) == Some("vnd.api+json") <==> extension == "json-api"
    ensures JsonSubtype(extension) == Some("json-patch+json") <==> extension == "json-patch"
    ensures JsonSubtype(extension) == Some("json") <==> extension == "json"
    ensures JsonSubtype(extension) == Some("ld+json") <==> extension == "jsonld"
    ensures JsonSubtype(extension).Some? ==>
      extension == "json-api" || extension == "json-patch" || extension == "json" || extension == "jsonld"
  {
  }

  lemma {:induction false} ScriptTypes(extension: string)
    ensures ScriptSubtype(extension) == Some("x-csh") <==> extension == "csh"
    ensures ScriptSubtype(extension) == Some("x-httpd-php") <==> extension == "php"
    ensures ScriptSubtype(extension) == Some("x-sh") <==> extension == "sh"
    ensures ScriptSubtype(extension).Some? ==>
      extension == "csh" || extension == "php" || extension == "sh"
  {
  }

  lemma {:induction false} ProgramTypes(extension: string)
    ensures ProgramSubtype(extension) == Some("octet-stream") <==> extension == "bin"
    ensures ProgramSubtype(extension) == Some("java-archive") <==> extension == "jar"
    ensures extension == "mpkg" ==>
      ProgramSubtype(extension).Some? && ProgramSubtype(extension).value == "vnd.apple." + "installer+xml"
    ensures ProgramSubtype(extension) == Some("wasm") <==> extension == "wasm"
    ensures ProgramSubtype(extension).Some? ==>
      extension == "bin" || extension == "jar" || extension == "mpkg" || extension == "wasm"
  {
  }

  lemma {:induction false} PageTypes(extension: string)
    ensures PageSubtype(extension) == Some("manifest+json") <==> extension == "webmanifest"
    ensures PageSubtype(extension) == Some("xhtml+xml") <==> extension == "xhtml"
    ensures PageSubtype(extension) == Some("vnd.mozilla.xul+xml") <==> extension == "xul"
    ensures PageSubtype(extension).Some? ==>
      extension == "webmanifest" || extension == "xhtml" || extension == "xul"
  {
  }

  lemma {:induction false} MediaTypes(extension: string)
    ensures MediaSubtype(extension) == Some("x-cdf") <==> extension == "cda"
    ensures MediaSubtype(extension) == Some("vnd.ms-fontobject") <==> extension == "eot"
    ensures MediaSubtype(extension) == Some("ogg") <==> extension == "ogx"
    ensures MediaSubtype(extension) == Some("x-shockwave-flash") <==> extension == "swf"
    ensures MediaSubtype(extension).Some? ==>
      extension == "cda" || extension == "eot" || extension == "ogx" || extension == "swf"
  {
  }

  lemma {:induction false} AudioTypes(extension: string)
    ensures AudioSubtype(extension) == Some("aac") <==> extension == "aac"
    ensures AudioSubtype(extension) == Some("midi") <==> extension == "mid" || extension == "midi"
    ensures AudioSubtype(extension) == Some("mpeg") <==> extension == "mp3"
    ensures AudioSubtype(extension) == Some("ogg") <==> extension == "oga"
    ensures AudioSubtype(extension) == Some("opus") <==> extension == "opus"
    ensures AudioSubtype(extension) == Some("wav") <==> extension == "wav"
    ensures AudioSubtype(extension) == Some("webm") <==> extension == "weba"
    ensures AudioSubtype(extension).Some? ==>
      extension == "aac" || extension == "mid" || extension == "midi" || extension == "mp3"
      || extension == "oga" || extension == "opus" || extension == "wav" || extension == "weba"
  {
  }

  lemma {:induction false} FontTypes(extension: string)
    ensures FontSubtype(extension) == Some("otf") <==> extension == "otf"
    ensures FontSubtype(extension) == Some("ttf") <==> extension == "ttf"
    ensures FontSubtype(extension) == Some("woff") <==> extension == "woff"
    ensures FontSubtype(extension) == Some("woff2") <==> extension == "woff2"
    ensures FontSubtype(extension).Some? ==>
      extension == "otf" || extension == "ttf" || extension == "woff" || extension == "woff2"
  {
  }

  lemma {:induction false} DrawingTypes(extension: string)
    ensures DrawingSubtype(extension) == Some("vnd.microsoft.icon") <==> extension == "ico"
    ensures DrawingSubtype(extension) == Some("svg+xml") <==> extension == "svg" || extension == "svgz"
    ensures DrawingSubtype(extension).Some? ==>
      extension == "ico" || extension == "svg" || extension == "svgz"
  {
  }

  lemma {:induction false} ImageTypes(extension: string)
    ensures ImageSubtype(extension) == Some("avif") <==> extension == "avif"
    ensures ImageSubtype(extension) == Some("bmp") <==> extension == "bmp"
    ensures ImageSubtype(extension) == Some("gif") <==> extension == "gif"
    ensures ImageSubtype(extension) == Some("jpeg") <==> extension == "jpeg" || extension == "jpg"
    ensures ImageSubtype(extension) == Some("png") <==> extension == "png"
    ensures ImageSubtype(extension) == Some("tiff") <==> extension == "tif" || extension == "tiff"
    ensures ImageSubtype(extension) == Some("webp") <==> extension == "webp"
    ensures ImageSubtype(extension).Some? ==>
      extension == "avif" || extension == "bmp" || extension == "gif" || extension == "jpeg"
      || extension == "jpg" || extension == "png" || extension == "tif" || extension == "tiff"
      || extension == "webp" || DrawingSubtype(extension).Some?
    ensures DrawingSubtype(extension).Some? ==> ImageSubtype(extension) == DrawingSubtype(extension)
  {
  }

  lemma {:induction false} TextTypes(extension: string)
    ensures TextSubtype(extension) == Some("css") <==> extension == "css"
    ensures TextSubtype(extension) == Some("csv") <==> extension == "csv"
    ensures TextSubtype(extension) == Some("html") <==> extension == "htm" || extension == "html"
    ensures TextSubtype(extension) == Some("calendar") <==> extension == "ics"
    ensures TextSubtype(extension) == Some("javascript") <==> extension == "js" || extension == "mjs"
    ensures TextSubtype(extension) == Some("plain") <==> extension == "txt" || extension == "text"
    ensures TextSubtype(extension) == Some("xml") <==> extension == "xml"
    ensures TextSubtype(extension).Some? ==>
      extension == "css" || extension == "csv" || extension == "htm" || extension == "html"
      || extension == "ics" || extension == "js" || extension == "mjs" || extension == "txt"
      || extension == "text" || extension == "xml"
  {
  }

  lemma {:induction false} VideoTypes(extension: string)
    ensures VideoSubtype(extension) == Some("3gpp2") <==> extension == "3g2"
    ensures VideoSubtype(extension) == Some("3gpp") <==> extension == "3gp"
    ensures VideoSubtype(extension) == Some("x-msvideo") <==> extension == "avi"
    ensures VideoSubtype(extension) == Some("quicktime") <==> extension == "mov"
    ensures VideoSubtype(extension) == Some("mp4") <==> extension == "mp4"
    ensures VideoSubtype(extension) == Some("mpeg") <==> extension == "mpeg" || extension == "mpg"
    ensures VideoSubtype(extension) == Some("ogg") <==> extension == "ogv"
    ensures VideoSubtype(extension) == Some("mp2t") <==> extension == "ts"
    ensures VideoSubtype(extension) == Some("webm") <==> extension == "webm"
    ensures VideoSubtype(extension) == Some("x-ms-wmv") <==> extension == "wmv"
    ensures VideoSubtype(extension).Some? ==>
      extension == "3g2" || extension == "3gp" || extension == "avi" || extension == "mov" || extension == "mp4"
      || extension == "mpeg" || extension == "mpg" || extension == "ogv" || extension == "ts"
      || extension == "webm" || extension == "wmv"
  {
  }

  /** The kinds of application files. */
  lemma {:induction false} ApplicationTypes(extension: string)
    ensures ApplicationSubtype(extension) in [
      ArchiveSubtype(extension), OfficeSubtype(extension), OfficeXmlSubtype(extension),
      OpenDocumentFormatSubtype(extension), BookSubtype(extension), PostScriptSubtype(extension),
      JsonSubtype(extension), ScriptSubtype(extension), ProgramSubtype(extension), PageSubtype(extension),
      MediaSubtype(extension)]
    ensures ApplicationSubtype(extension).None? ==>
      && ArchiveSubtype(extension).None? && OfficeSubtype(extension).None? && OfficeXmlSubtype(extension).None?
      && OpenDocumentFormatSubtype(extension).None? && BookSubtype(extension).None?
      && PostScriptSubtype(extension).None? && JsonSubtype(extension).None? && ScriptSubtype(extension).None?
      && ProgramSubtype(extension).None? && PageSubtype(extension).None? && MediaSubtype(extension).None?
  {
    hide ArchiveSubtype, OfficeSubtype, OfficeXmlSubtype, OpenDocumentFormatSubtype, BookSubtype, PostScriptSubtype;
    hide JsonSubtype, ScriptSubtype, ProgramSubtype, PageSubtype, MediaSubtype;
  }

  /** The type as it is written; an extension in none of the groups has the default type. */
  lemma {:induction false} WrittenType(extension: string)
    ensures var text := ForExtension(extension).Text();
      match ApplicationSubtype(extension)
      case Some(subtype) => text == "application" + "/" + subtype
      case None =>
        match AudioSubtype(extension)
        case Some(subtype) => text == "audio" + "/" + subtype
        case None =>
          match FontSubtype(extension)
          case Some(subtype) => text == "font" + "/" + subtype
          case None =>
            match ImageSubtype(extension)
            case Some(subtype) => text == "image" + "/" + subtype
            case None =>
              match TextSubtype(extension)
              case Some(subtype) => text == "text" + "/" + subtype
              case None =>
                match VideoSubtype(extension)
                case Some(subtype) => text == "video" + "/" + subtype
                case None => text == "application" + "/" + "octet-stream"
  {
    hide ApplicationSubtype, AudioSubtype, FontSubtype, ImageSubtype, TextSubtype, VideoSubtype;
  }
}
