/**
 * The text preview part of `get_file_metadata`: for textual files with an
 * allow-listed extension, the first 1000 characters (marked when the cap is
 * reached) and the number of lines.
 */
module Metadata {
  import opened Wrappers
  import opened Strings
  import opened Paths
  import opened FileTypes

  const PreviewLimit: nat := 1000
  const TruncationMarker: string := "... (truncated)"

  /** Extensions whose files get a preview (also the content-search allow-list). */
  const TextExtensions: seq<string> :=
    [".txt", ".md", ".csv", ".json", ".xml", ".html", ".css", ".js", ".py", ".java",
     ".c", ".cpp", ".h", ".cs", ".php", ".rb", ".go", ".rs", ".ts"]

  predicate IsTextual(c: Category)
  {
    c == Text || c == Code || c == Document
  }

  /** The preview field of a metadata record. */
  datatype PreviewField =
    | NoPreview                                  // not a previewed type
    | Preview(text: string, lineCount: nat)
    | PreviewError                               // the file could not be opened

  /** Whether a file gets a preview: a textual type and an allow-listed extension. */
  predicate HasPreview(path: string, mime: Option<string>)
    ensures HasPreview(path, mime) ==> Extension(path) != [] && IsTextual(GetFileType(path, mime))
  {
    IsTextual(GetFileType(path, mime)) && Lower(Extension(path)) in TextExtensions
  }

  /** `f.read(1000)`, followed by the marker when all 1000 characters were read. */
  function PreviewText(content: string): (r: string)
    ensures |r| <= PreviewLimit + |TruncationMarker|
  {
    var head := if |content| < PreviewLimit then content else content[..PreviewLimit];
    if |head| == PreviewLimit then head + TruncationMarker else head
  }

  /** `sum(1 for _ in f)`: the number of lines Python iterates over. */
  function LineCount(content: string): (n: nat)
    ensures n == |SplitLines(content)|
  {
    SplitLinesCount(content);
    Count(content, '\n') + (if content != [] && content[|content| - 1] != '\n' then 1 else 0)
  }

  /** The preview field for a file with the given content (`None`: it cannot be opened). */
  function PreviewOf(path: string, mime: Option<string>, content: Option<string>): (p: PreviewField)
    ensures p.NoPreview? <==> !HasPreview(path, mime)
    ensures p.PreviewError? <==> HasPreview(path, mime) && content.None?
    ensures p.Preview? ==>
      && content.Some? && p.text == PreviewText(content.value)
      && |p.text| <= PreviewLimit + |TruncationMarker| && p.lineCount == |SplitLines(content.value)|
  {
    if !HasPreview(path, mime) then NoPreview
    else if content.None? then PreviewError
    else Preview(PreviewText(content.value), LineCount(content.value))
  }

  /** A preview is a prefix of the content, and the marker is present exactly at the cap. */
  lemma PreviewIsPrefix(content: string)
    ensures |content| < PreviewLimit ==> PreviewText(content) == content
    ensures |content| >= PreviewLimit ==>
      StartsWith(PreviewText(content), content[..PreviewLimit]) && PreviewText(content)[PreviewLimit..] == TruncationMarker
  {
  }

  /** A file of exactly 1000 characters is still marked as truncated. */
  lemma ExactlyAtLimitIsMarked(content: string)
    requires |content| == PreviewLimit
    ensures PreviewText(content) == content + TruncationMarker
  {
  }

  /** An empty file has no lines; a single unterminated line counts as one. */
  lemma {:induction false} LineCountExamples(line: string)
    requires '\n' !in line && line != []
    ensures LineCount([]) == 0
    ensures LineCount(line) == 1
    ensures LineCount(line + "\n") == 1
    ensures LineCount(line + "\n" + line) == 2
  {
    CountZero(line, '\n');
    CountAppend(line, "\n", '\n');
    CountAppend(line + "\n", line, '\n');
    assert Count("\n", '\n') == 1 by { assert "\n"[1..] == []; }
  }
}
