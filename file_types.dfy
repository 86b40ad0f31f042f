/**
 * File-type classification (`get_file_type`): a declared MIME type decides
 * first, by prefix; otherwise the lower-cased extension is looked up in fixed
 * tables, and anything unmatched is `Unknown`.
 *
 * The MIME type comes from a table lookup on the path that is not part of
 * this model, so it is an input here (`None` when no type is known).
 */
module FileTypes {
  import opened Wrappers
  import opened Strings
  import opened Paths

  /** The categories the classifier can return. */
  datatype Category =
    | Image | Video | Audio | Text | Pdf | Document | Spreadsheet | Presentation
    | Code | Data | Archive | Executable | Unknown

  /** The MIME guess for a path; it stands for the library's table lookup. */
  type MimeGuess = string -> Option<string>

  /** The MIME-prefix step: `None` when no listed prefix matches. */
  function MimeCategory(mime: string): Option<Category>
  {
    if StartsWith(mime, "image/") then Some(Image)
    else if StartsWith(mime, "video/") then Some(Video)
    else if StartsWith(mime, "audio/") then Some(Audio)
    else if StartsWith(mime, "text/") then Some(Text)
    else if StartsWith(mime, "application/pdf") then Some(Pdf)
    else if StartsWith(mime, "application/msword")
         || StartsWith(mime, "application/vnd.openxmlformats-officedocument.wordprocessingml") then Some(Document)
    else if StartsWith(mime, "application/vnd.ms-excel")
         || StartsWith(mime, "application/vnd.openxmlformats-officedocument.spreadsheetml") then Some(Spreadsheet)
    else if StartsWith(mime, "application/vnd.ms-powerpoint")
         || StartsWith(mime, "application/vnd.openxmlformats-officedocument.presentationml") then Some(Presentation)
    else None
  }

  const ImageExtensions: seq<string> := [".jpg", ".jpeg", ".png", ".gif", ".bmp", ".tiff", ".webp"]
  const VideoExtensions: seq<string> := [".mp4", ".avi", ".mov", ".wmv", ".mkv", ".flv", ".webm"]
  const AudioExtensions: seq<string> := [".mp3", ".wav", ".ogg", ".flac", ".aac", ".m4a"]
  const DocumentExtensions: seq<string> := [".pdf", ".txt", ".md", ".rtf"]
  const CodeExtensions: seq<string> :=
    [".py", ".js", ".html", ".css", ".java", ".cpp", ".c", ".h", ".cs", ".php", ".rb", ".go", ".rs", ".ts"]
  const DataExtensions: seq<string> := [".csv", ".json", ".xml", ".yaml", ".yml", ".sql", ".db", ".sqlite"]
  const ArchiveExtensions: seq<string> := [".zip", ".rar", ".7z", ".tar", ".gz", ".bz2"]
  const ExecutableExtensions: seq<string> := [".exe", ".msi", ".bat", ".sh", ".app", ".dmg"]
  const WordExtensions: seq<string> := [".doc", ".docx"]
  const ExcelExtensions: seq<string> := [".xls", ".xlsx"]
  const PowerPointExtensions: seq<string> := [".ppt", ".pptx"]

  /** The extension-table step, on an already lower-cased extension. */
  function ExtensionCategory(ext: string): Category
  {
    if ext in ImageExtensions then Image
    else if ext in VideoExtensions then Video
    else if ext in AudioExtensions then Audio
    else if ext in DocumentExtensions then Document
    else if ext in CodeExtensions then Code
    else if ext in DataExtensions then Data
    else if ext in ArchiveExtensions then Archive
    else if ext in ExecutableExtensions then Executable
    else if ext in WordExtensions then Document
    else if ext in ExcelExtensions then Spreadsheet
    else if ext in PowerPointExtensions then Presentation
    else Unknown
  }

  /** Every extension some table lists. */
  function KnownExtensions(): seq<string>
  {
    ImageExtensions + VideoExtensions + AudioExtensions + DocumentExtensions + CodeExtensions
    + DataExtensions + ArchiveExtensions + ExecutableExtensions + WordExtensions
    + ExcelExtensions + PowerPointExtensions
  }

  /** `get_file_type(path)`, given the MIME guess for the path. */
  function GetFileType(path: string, mime: Option<string>): (c: Category)
    ensures mime.None? ==> c != Text && c != Pdf
  {
    if mime.Some? && MimeCategory(mime.value).Some? then MimeCategory(mime.value).value
    else ExtensionCategory(Lower(Extension(path)))
  }

  /** A recognised MIME prefix wins over whatever the extension says. */
  lemma MimeWins(path: string, other: string, mime: string)
    requires MimeCategory(mime).Some?
    ensures GetFileType(path, Some(mime)) == GetFileType(other, Some(mime)) == MimeCategory(mime).value
  {
  }

  /** Without a recognised MIME type only the lower-cased extension matters. */
  lemma ExtensionDecides(p: string, q: string, mime: Option<string>)
    requires mime.None? || MimeCategory(mime.value).None?
    requires Lower(Extension(p)) == Lower(Extension(q))
    ensures GetFileType(p, mime) == GetFileType(q, mime) == ExtensionCategory(Lower(Extension(p)))
  {
  }

  /** An empty MIME string counts as no MIME type at all. */
  lemma EmptyMimeIsNoMime(path: string)
    ensures GetFileType(path, Some("")) == GetFileType(path, None)
  {
    assert MimeCategory("") == None by {
      assert forall p: string :: p != [] ==> !StartsWith("", p);
    }
  }

  /** An extension is `Unknown` exactly when no table lists it. */
  lemma UnlistedExtension(ext: string)
    ensures ExtensionCategory(ext) == Unknown <==> ext !in KnownExtensions()
  {
  }

  /** Without a MIME type, a path is `Unknown` exactly when its extension is in no table. */
  lemma UnknownIffUnlisted(path: string)
    ensures GetFileType(path, None) == Unknown <==> Lower(Extension(path)) !in KnownExtensions()
  {
    UnlistedExtension(Lower(Extension(path)));
  }

  /** For a plain file name without a MIME type, the lower-cased extension as written decides. */
  lemma PlainNameCategory(stem: string, ext: string)
    requires stem != [] && '.' !in stem && '/' !in stem
    requires ext != [] && ext[0] == '.' && '.' !in ext[1..] && '/' !in ext
    ensures GetFileType(stem + ext, None) == ExtensionCategory(Lower(ext))
  {
    SimpleNameExtension(stem, ext);
  }

  // Facts about literal extensions, each kept apart so that the lemmas using
  // them need not evaluate literals themselves.

  lemma LowerPy()
    ensures Lower(".PY") == ".py"
  {
  }

  lemma PyIsCode()
    ensures ExtensionCategory(".py") == Code
  {
  }

  lemma LowerTxt()
    ensures Lower(".txt") == ".txt"
  {
  }

  lemma TxtIsDocument()
    ensures ExtensionCategory(".txt") == Document
  {
  }

  /** The extension lookup ignores case: `name.PY` is code. */
  lemma UpperCaseExtensionIsCode(stem: string)
    requires stem != [] && '.' !in stem && '/' !in stem
    ensures GetFileType(stem + ".PY", None) == Code
  {
    PlainNameCategory(stem, ".PY");
    LowerPy();
    PyIsCode();
  }

  /** A `.txt` file is a document by extension, but text when its MIME type says so. */
  lemma TextFileClassification(stem: string)
    requires stem != [] && '.' !in stem && '/' !in stem
    ensures GetFileType(stem + ".txt", None) == Document
    ensures GetFileType(stem + ".txt", Some("text/plain")) == Text
  {
    PlainNameCategory(stem, ".txt");
    LowerTxt();
    TxtIsDocument();
    PlainTextMime();
  }

  lemma PlainTextMime()
    ensures MimeCategory("text/plain") == Some(Text)
  {
    var m := "text/plain";
    assert m[..5] == "text/";
    assert m[0] == 't';
  }

  /** The empty extension is in no table. */
  lemma EmptyExtensionIsUnknown()
    ensures ExtensionCategory("") == Unknown
  {
  }

  /** A name without a dot (`archive`), or whose only dot leads it (`.bashrc`), is unknown. */
  lemma NoExtensionIsUnknown(p: string)
    requires '.' !in p || (p != [] && p[0] == '.' && '.' !in p[1..] && '/' !in p)
    ensures GetFileType(p, None) == Unknown
  {
    if '.' !in p {
      DotlessHasNoExtension(p);
    } else {
      LeadingDotHasNoExtension(p);
    }
    assert Lower("") == "";
    EmptyExtensionIsUnknown();
  }
}
