# File-system MCP server: a Dafny model of its core

The server exposes file-system tools to a Model Context Protocol client:
scanning and searching a directory tree, reading and writing text files,
copying, moving and deleting files, creating and listing directories,
classifying files by MIME type and extension, detecting media files by their
leading bytes, planning thumbnails, grouping files by creation date, and a
handful of Windows path helpers. This project models the decision logic of
those tools and proves what they promise.

Layout, one module per file:

- `wrappers.dfy` (`Wrappers`): `Option` and `Result`.
- `strings.dfy` (`Strings`): the Python string operations the tools rely on —
  ASCII `lower`/`upper`, `in`, `find`, `count`, `split`, `''.join`, line
  iteration (lines keep their `'\n'`), `replace` of one character, and
  integer formatting.
- `paths.dfy` (`Paths`): POSIX `os.path.basename`, `dirname`, `join` and
  `splitext`.
- `file_types.dfy` (`FileTypes`): `get_file_type` — the MIME category first,
  then the lower-cased extension tables.
- `metadata.dfy` (`Metadata`): the preview and line count that
  `get_file_metadata` adds for text files.
- `search.dfy` (`Search`): `scan_directory`, `search_files` and
  `search_file_contents` over a walk given as a sequence of entries; each is
  a method with a loop, proved equal to a filter over the walk (`Collect`).
- `filesystem.dfy` (`FileSystem`): a store of files (path to text) and
  directories; copy, move, delete, write, create-directory, list and read
  as specification functions, and a `FileSystem` class whose methods update
  the store in place and are proved to agree with them. A well-formed store
  has no path that is both a file and a directory, and never holds the
  empty path, which no operating system call accepts; every operation keeps
  the store well formed.
- `media.dfy` (`Media`): `detect_file_type` (the signature dictionary, built
  with Python's dict-literal semantics, then the extension fallback),
  `generate_thumbnail`'s path and type decisions, and `organize_by_date`.
- `windows.dfy` (`Windows`): `is_valid_windows_path`, the slash rewrite of
  `normalize_windows_path`, and the pure parts of `get_windows_drives`.

Calls the model cannot see — `mimetypes.guess_type`, `os.stat`, the
directory walk, the operating system's drive queries — become parameters: a
MIME guess (`Option<string>` for one path, a function `MimeGuess` for a
walk), file contents, the walk as a sequence, the listing's item names.

## Model

| member | source | states |
|---|---|---|
| Strings.Lower | file-system-mcp-server/fs_server.py:239 | lower-casing keeps the length and maps each character through the ASCII case map |
| Strings.Upper | file-system-mcp-server/windows_utils.py:267 | upper-casing keeps the length and maps each character through the ASCII case map |
| Strings.LowerIdempotent | file-system-mcp-server/fs_server.py:239 | lower-casing twice is lower-casing once, so a query lowered again matches the same names |
| Strings.FindFrom | file-system-mcp-server/fs_server.py:293 | a search from index k gives the least occurrence at or after k, or -1 exactly when none starts at or after k |
| Strings.Find | file-system-mcp-server/fs_server.py:293 | `find` gives the first index where the pattern occurs, or -1 exactly when it does not occur |
| Strings.Split | file-system-mcp-server/windows_utils.py:259 | `split` yields at least one part and no part holds the separator |
| Strings.SplitJoin | file-system-mcp-server/windows_utils.py:259 | joining the parts of a split with the separator gives the string back |
| Strings.JoinSplit | file-system-mcp-server/windows_utils.py:259 | splitting a join of separator-free parts gives the parts back |
| Strings.SplitLines | file-system-mcp-server/fs_server.py:198-201 | file iteration yields no line exactly when the text is empty |
| Strings.SplitLinesSound | file-system-mcp-server/fs_server.py:198-202 | the lines concatenate back to the text; each is non-empty, holds no `'\n'` before its end, and all but the last end in `'\n'` |
| Strings.KeptLines | file-system-mcp-server/fs_server.py:198-202 | the first k lines joined are a prefix of the text holding exactly k newlines |
| Strings.SplitLinesCount | file-system-mcp-server/fs_server.py:147-148 | the number of lines is the number of newlines, plus one when the text does not end in a newline |
| Strings.LineOfIndex | file-system-mcp-server/fs_server.py:298 | the number of newlines before a position is the index of the line holding that position |
| Strings.ReplaceChar | file-system-mcp-server/windows_utils.py:239 | the replacement keeps the length, leaves no old character and keeps every other character in place |
| Strings.NatToString | file-system-mcp-server/fs_server.py:204 | decimal formatting yields a non-empty string of digits whose decimal value is the number, with no leading zero except for 0 itself |
| Strings.IntToString | file-system-mcp-server/fs_server.py:204 | `str` of an integer starts with '-' exactly for a negative number and the digits after it have the absolute value as their decimal value |
| Paths.Basename | file-system-mcp-server/fs_server.py:129 | the base name is the suffix after the last '/' and holds no '/': it is the whole path or is preceded by a '/' |
| Paths.Dirname | file-system-mcp-server/media_utils.py:217 | the directory part is a prefix of the path |
| Paths.Join | file-system-mcp-server/media_utils.py:217 | an absolute second part replaces the first; otherwise the result starts with the first part and ends with the second |
| Paths.Splitext | file-system-mcp-server/fs_server.py:81 | root and extension concatenate to the path; the extension is empty or a '.' followed by neither '.' nor '/' |
| Paths.SplitextExtension | file-system-mcp-server/fs_server.py:81 | the extension is non-empty exactly when some '.' of the base name has a character other than '.' before it in the base name |
| Paths.Stem | file-system-mcp-server/media_utils.py:216 | the stem is a prefix of the base name and holds no '/' |
| Paths.DotlessHasNoExtension | file-system-mcp-server/fs_server.py:81 | a path without a '.' has the empty extension |
| Paths.LeadingDotHasNoExtension | file-system-mcp-server/fs_server.py:81 | a base name whose only '.' is its first character has the empty extension |
| Paths.SimpleNameExtension | file-system-mcp-server/fs_server.py:81 | `stem.ext` with a plain stem has extension `.ext` |
| Paths.DirnameShaped | file-system-mcp-server/media_utils.py:217 | the directory part is empty, all slashes, or does not end in a slash |
| Paths.JoinSplitsBack | file-system-mcp-server/media_utils.py:217 | joining a directory and a slash-free name gives back that directory and name |
| FileTypes.GetFileType | file-system-mcp-server/fs_server.py:58-115 | without a MIME guess a file is never classified as text or pdf |
| FileTypes.MimeWins | file-system-mcp-server/fs_server.py:62-78 | a recognised MIME type decides the category whatever the path |
| FileTypes.ExtensionDecides | file-system-mcp-server/fs_server.py:80-115 | without a recognised MIME type, paths with the same lower-cased extension get the same category, the one of the extension tables |
| FileTypes.EmptyMimeIsNoMime | file-system-mcp-server/fs_server.py:62-63 | an empty MIME string is treated as no guess |
| FileTypes.UnknownIffUnlisted | file-system-mcp-server/fs_server.py:80-115 | without a guess a file is unknown exactly when its lower-cased extension is in no table |
| FileTypes.UnlistedExtension | file-system-mcp-server/fs_server.py:83-115 | an extension is unknown exactly when none of the tables lists it |
| FileTypes.PlainNameCategory | file-system-mcp-server/fs_server.py:80-115 | for a plain stem and a `.ext` extension, without a guess, the category is that of the lower-cased extension as written |
| FileTypes.UpperCaseExtensionIsCode | file-system-mcp-server/fs_server.py:81-97 | extensions are compared lower-cased: `name.PY` is code |
| FileTypes.TextFileClassification | file-system-mcp-server/fs_server.py:69-94 | a `.txt` file is a document by extension and text when guessed `text/plain` |
| FileTypes.PlainTextMime | file-system-mcp-server/fs_server.py:69-70 | `text/plain` is in the text category |
| FileTypes.EmptyExtensionIsUnknown | file-system-mcp-server/fs_server.py:83-115 | the empty extension is in no table |
| FileTypes.NoExtensionIsUnknown | file-system-mcp-server/fs_server.py:80-115 | a dotless name or a dot-file without a guess is unknown |
| Metadata.PreviewText | file-system-mcp-server/fs_server.py:140-143 | the preview is at most 1000 characters plus the truncation marker |
| Metadata.LineCount | file-system-mcp-server/fs_server.py:147-148 | the line count is the number of lines file iteration yields |
| Metadata.HasPreview | file-system-mcp-server/fs_server.py:137 | a previewed file has a non-empty extension and a textual category |
| Metadata.PreviewOf | file-system-mcp-server/fs_server.py:136-151 | a preview is attempted exactly for textual categories with a listed extension; an unreadable file gives a preview error; otherwise the preview is `PreviewText` of the content, bounded, with the line count of the content |
| Metadata.PreviewIsPrefix | file-system-mcp-server/fs_server.py:140-143 | a short content is its own preview; a long one shows its first 1000 characters and the marker |
| Metadata.ExactlyAtLimitIsMarked | file-system-mcp-server/fs_server.py:142-143 | content of exactly 1000 characters is marked truncated although nothing was cut |
| Metadata.LineCountExamples | file-system-mcp-server/fs_server.py:147-148 | empty text has no lines; a trailing newline does not start a new line |
| Search.Collect | file-system-mcp-server/fs_server.py:162-179 | filtering the walk yields at most one result per entry |
| Search.MetadataOf | file-system-mcp-server/fs_server.py:117-155 | the record keeps the path, has no preview exactly when the file is not previewed, a preview error exactly when a previewed file cannot be read, and otherwise the preview text of its content |
| Search.MetadataFields | file-system-mcp-server/fs_server.py:117-155 | the record is named by the path's last component, carries the category `get_file_type` gives the path and its guessed MIME type, and has the preview `PreviewOf` builds; a preview's line count is the number of lines of the whole content |
| Search.MetadataName | file-system-mcp-server/fs_server.py:129 | the record's name is a '/'-free suffix of its path |
| Search.CollectAppend | file-system-mcp-server/fs_server.py:162-179 | filtering a concatenated walk is concatenating the filtered parts |
| Search.CollectMembers | file-system-mcp-server/fs_server.py:162-179 | a result is in the filtered walk exactly when some entry yields it |
| Search.CollectStep | file-system-mcp-server/fs_server.py:162-179 | one more entry appends exactly what it yields to the results so far |
| Search.CollectPrefix | file-system-mcp-server/fs_server.py:278-279 | a loop that stops once the cap is reached holds the first cap results of the whole walk |
| Search.ScanDirectory | file-system-mcp-server/fs_server.py:157-183 | the loop returns the metadata of the enumerated files whose type passes the filter, in walk order |
| Search.ScanSound | file-system-mcp-server/fs_server.py:157-183 | a record is scanned exactly when some enumerated entry of allowed type yields it, and its category passes the filter |
| Search.ScanPickSome | file-system-mcp-server/fs_server.py:162-179 | an entry yields a record exactly when it is enumerated and of an allowed type, and then its own metadata |
| Search.UnfilteredRecursiveScanIsComplete | file-system-mcp-server/fs_server.py:162-170 | a recursive scan without a type filter reports every file of the walk |
| Search.EmptyFilterSelectsNothing | file-system-mcp-server/fs_server.py:168 | an empty type list selects no file, for scanning and for name search |
| Search.SearchFiles | file-system-mcp-server/fs_server.py:234-263 | the loop returns the metadata of the enumerated files whose name holds the query case-insensitively and whose type passes the filter |
| Search.NameMatches | file-system-mcp-server/fs_server.py:244 | the empty query and a query equal to the name up to case match; a matching query is no longer than the name |
| Search.SearchIgnoresCase | file-system-mcp-server/fs_server.py:239 | queries equal up to case give the same results |
| Search.SearchWithinScan | file-system-mcp-server/fs_server.py:234-263 | every name-search result is also a scan result and comes from a file whose name matches |
| Search.NameHitIsScanHit | file-system-mcp-server/fs_server.py:234-263 | an entry the name search keeps has a matching name and is kept by the scan with the same record |
| Search.EmptyQueryIsScan | file-system-mcp-server/fs_server.py:234-263 | the empty query finds exactly what a scan finds |
| Search.MatchIn | file-system-mcp-server/fs_server.py:289-303 | a match exists exactly when the lowered content holds the lowered query; its context is at most the query plus 100 characters and its line is at least 1 |
| Search.Searchable | file-system-mcp-server/fs_server.py:285 | a searched file passes the scan's filters, and every scanned file with a listed extension is searched |
| Search.MatchWindow | file-system-mcp-server/fs_server.py:293-301 | the context is the slice of the original content from at most 50 before the first occurrence to at most 50 after it, holds that occurrence, and the line number counts the newlines before it |
| Search.MatchLine | file-system-mcp-server/fs_server.py:298 | the reported line number is that of the line, as file iteration yields them, in which the first match starts |
| Search.ShortLineMatch | file-system-mcp-server/fs_server.py:293-303 | in a single short line the context is the whole content, on line 1 |
| Search.SearchFileContents | file-system-mcp-server/fs_server.py:265-348 | through `CappedCollect`: the results are the first cap content hits in walk order, those of the scanned prefix of the walk, and the scan stops early only when the cap is reached |
| Search.CappedCollect | file-system-mcp-server/fs_server.py:275-306 | the loop checks the count before each file: it keeps the first cap results in walk order, stops only once the cap is reached, and a negative cap keeps nothing |
| Search.HitFacts | file-system-mcp-server/fs_server.py:285-303 | a kept file is searchable and readable, its lowered content holds the lowered query, and its hit is its metadata with the match |
| Search.HitSound | file-system-mcp-server/fs_server.py:272-306 | every content hit comes from a searchable readable file whose content holds the query, with that file's metadata and match |
| Search.JsonIsSearchable | file-system-mcp-server/fs_server.py:272-273 | a `.json` file is searched whatever category its MIME guess gives |
| FileSystem.SizeOf | file-system-mcp-server/fs_server.py:763 | a size is reported exactly for files, and it is the length of the file's text |
| FileSystem.Copy | file-system-mcp-server/fs_server.py:746-766 | a missing source and an existing destination without overwrite are refused; past those guards, the empty destination (which `shutil.copy2` cannot open) is refused as not found, copying onto itself and onto a directory are refused and every other case succeeds; a success puts the source's text at the target, keeps every other file, reports the size of the destination and keeps the store well formed |
| FileSystem.CopyTwice | file-system-mcp-server/test_fs_tools.py:355-376 | copying a file to a fresh, non-empty path succeeds; copying again without overwrite is refused; with overwrite it leaves the store as it was |
| FileSystem.Move | file-system-mcp-server/fs_server.py:789-809 | the same first guards as copy; past them, the empty destination is refused as not found, a directory destination already holding the source's name is refused and every other case succeeds; a success removes the source, puts its text at the target, keeps every other file and reports the size of the destination |
| FileSystem.MoveToFreshPath | file-system-mcp-server/test_fs_tools.py:405-420 | moving to a fresh, non-empty path removes the source and creates the destination with the same text |
| FileSystem.Delete | file-system-mcp-server/fs_server.py:829-840 | deleting fails exactly for a path that is not a file; otherwise only that file is removed |
| FileSystem.DeleteTwice | file-system-mcp-server/fs_server.py:829-830 | after a delete succeeds the file is gone, so a second delete of it takes the `File not found` branch (the deletion test in test_fs_tools.py checks that the file is gone) |
| FileSystem.Write | file-system-mcp-server/fs_server.py:217-232 | writing fails exactly for the empty path, a directory or a path whose parent directory is missing (reported as not found); otherwise the file holds the new text, appended to the old text in append mode |
| FileSystem.WriteThenAppend | file-system-mcp-server/test_fs_tools.py:230-243 | writing x then appending y leaves x followed by y |
| FileSystem.MakeDirectory | file-system-mcp-server/fs_server.py:866-867 | creating fails exactly for the empty path or an existing file; otherwise the path is a directory and nothing else changes |
| FileSystem.MakeDirectoryIdempotent | file-system-mcp-server/test_fs_tools.py:478-493 | creating an existing directory again succeeds and changes nothing |
| FileSystem.ListedFiles | file-system-mcp-server/fs_server.py:903-912 | at most one file entry per listed item |
| FileSystem.ListedDirs | file-system-mcp-server/fs_server.py:913-917 | at most one directory entry per listed item |
| FileSystem.ExistingCount | file-system-mcp-server/fs_server.py:903-917 | the number of existing items is at most the number of items |
| FileSystem.ListingStep | file-system-mcp-server/fs_server.py:903-917 | one more item adds a file entry when its path is a file, else a directory entry when it is a directory, else nothing |
| FileSystem.ListingPartition | file-system-mcp-server/fs_server.py:903-924 | the file and directory counts add up to the number of items that exist |
| FileSystem.ListedFilesMembers | file-system-mcp-server/fs_server.py:903-912 | an entry is listed as a file exactly when its item is a file under the directory, with its size and category |
| FileSystem.ListedDirsMembers | file-system-mcp-server/fs_server.py:913-917 | an entry is listed as a directory exactly when its item joined to the directory is a directory and not a file |
| FileSystem.Kept | file-system-mcp-server/fs_server.py:198-201 | the number of lines kept is the smaller of the line count and the limit, and none for a negative limit |
| FileSystem.TruncationNote | file-system-mcp-server/fs_server.py:204 | the truncation note starts a new line and is a single line |
| FileSystem.KeptWhereStopped | file-system-mcp-server/fs_server.py:198-201 | a loop that stops at the limit or at the end of the lines has kept exactly `Kept` lines |
| FileSystem.LoopAgrees | file-system-mcp-server/fs_server.py:196-204 | the lines kept by the loop, followed by the note when the loop broke off, are the limited read |
| FileSystem.LimitedRead | file-system-mcp-server/fs_server.py:196-204 | a limited read fails exactly on empty text, where the loop variable is never bound |
| FileSystem.ReadText | file-system-mcp-server/fs_server.py:185-215 | a missing file and a non-text category are refused; otherwise the read fails exactly for a non-zero limit on an empty file; a success reports the path and the size of the file, and its content is the limited read for a non-zero limit and the whole text otherwise |
| FileSystem.ReadWithoutLimit | file-system-mcp-server/fs_server.py:205-206 | without a limit, or with limit 0, the whole text is returned |
| FileSystem.LimitedReadUnderLimit | file-system-mcp-server/fs_server.py:196-202 | a text with no more lines than the limit is returned whole, without a note |
| FileSystem.LimitedReadOverLimit | file-system-mcp-server/fs_server.py:196-204 | a longer text returns its first m lines, a prefix with m newlines, followed by the note "showing m of m+1+ lines" |
| FileSystem.ReadEmptyWithLimit | file-system-mcp-server/fs_server.py:196-204 | reading an empty file with a limit is an error |
| FileSystem.ReadLines | file-system-mcp-server/fs_server.py:196-204 | the line loop with its early break computes the limited read |
| FileSystem.FileSystem.CopyFile | file-system-mcp-server/fs_server.py:727-767 | the result and the new store are those of `Copy` (so the empty destination is refused before the store changes), and the store stays well formed |
| FileSystem.FileSystem.MoveFile | file-system-mcp-server/fs_server.py:770-810 | the result and the new store are those of `Move` (so the empty destination is refused before the store changes) |
| FileSystem.FileSystem.DeleteFile | file-system-mcp-server/fs_server.py:813-848 | the result and the new store are those of `Delete` |
| FileSystem.FileSystem.WriteTextFile | file-system-mcp-server/fs_server.py:217-232 | the result and the new store are those of `Write` |
| FileSystem.FileSystem.CreateDirectory | file-system-mcp-server/fs_server.py:851-875 | the result and the new store are those of `MakeDirectory` |
| FileSystem.FileSystem.ListDirectory | file-system-mcp-server/fs_server.py:878-928 | a missing directory is refused; otherwise the files and directories are the listed ones, each count is the length of its list, and the counts add up to the existing items |
| FileSystem.FileSystem.ReadTextFile | file-system-mcp-server/fs_server.py:185-215 | the result is the one `ReadText` gives on the current store |
| Media.KeyIndex | file-system-mcp-server/media_utils.py:315-340 | a dictionary lookup finds the position of a key, the last one holding it, or -1 exactly when the key is absent |
| Media.Insert | file-system-mcp-server/media_utils.py:317-339 | storing a key overwrites its entry in place when present and appends it otherwise, leaves other keys' entries alone and keeps keys distinct |
| Media.BuildDict | file-system-mcp-server/media_utils.py:315-340 | a dict literal builds at most one entry per pair, with distinct keys |
| Media.BuildDistinct | file-system-mcp-server/media_utils.py:315-340 | a literal with distinct keys builds a dictionary in the literal's order |
| Media.BuildSnoc | file-system-mcp-server/media_utils.py:315-340 | each later key-value pair is inserted into the dictionary built so far |
| Media.FirstSixteenDistinct | file-system-mcp-server/media_utils.py:317-336 | the sixteen entries before the second RIFF have distinct keys |
| Media.BuildThroughSecondRiff | file-system-mcp-server/media_utils.py:328-337 | the second RIFF entry overwrites the value of the first in its place |
| Media.BuildThroughOgg | file-system-mcp-server/media_utils.py:338 | the ogg key is new and is appended |
| Media.SignaturesEvaluated | file-system-mcp-server/media_utils.py:315-340 | the signature literal builds 18 entries: the repeated RIFF key keeps its first position and takes `audio/wav` |
| Media.Signatures | file-system-mcp-server/media_utils.py:315-340 | the signature dictionary is the evaluated table |
| Media.MimeKind | file-system-mcp-server/media_utils.py:350-355 | only image, video and audio MIME prefixes give a kind |
| Media.FirstMatch | file-system-mcp-server/media_utils.py:347-355 | the signature loop returns only image, video or audio |
| Media.Header | file-system-mcp-server/media_utils.py:345 | the header is a prefix of the contents of at most 16 bytes, exactly 16 when the file is that long |
| Media.MediaExtensionKind | file-system-mcp-server/media_utils.py:360-372 | the fallback is unknown exactly when the lower-cased extension is in none of the three lists |
| Media.DetectFileType | file-system-mcp-server/media_utils.py:310-372 | detection yields image, video, audio or unknown |
| Media.FirstMatchFinds | file-system-mcp-server/media_utils.py:347-355 | a header that starts with a signature of a media MIME type is detected |
| Media.FirstMatchSound | file-system-mcp-server/media_utils.py:347-355 | a detection comes from a signature the header starts with |
| Media.TableValuesHaveKinds | file-system-mcp-server/media_utils.py:315-340 | every MIME type in the table is an image, video or audio type |
| Media.SignatureDecides | file-system-mcp-server/media_utils.py:347-355 | a header matching any signature decides the type regardless of the file name |
| Media.FirstMatchSkips | file-system-mcp-server/media_utils.py:347-355 | signatures the header does not start with are passed over |
| Media.RiffIsAudio | file-system-mcp-server/media_utils.py:328-337 | a RIFF header is detected as audio, the value the later literal entry leaves |
| Media.OnlyHeaderMatters | file-system-mcp-server/media_utils.py:345 | files agreeing on their first 16 bytes get the same type |
| Media.UnreadableTextFile | file-system-mcp-server/media_utils.py:356-372 | an unreadable `.txt` file falls back to unknown |
| Media.UnreadableUpperCaseImage | file-system-mcp-server/media_utils.py:360-364 | an unreadable `.PNG` file is an image by its lower-cased extension |
| Media.PlainNameExtension | file-system-mcp-server/media_utils.py:360-372 | for a plain stem and a `.ext` extension of an unreadable file, the type is the fallback of the lower-cased extension as written |
| Media.PlanThumbnail | file-system-mcp-server/media_utils.py:207-272 | an extension in neither the image nor the video list is refused with the unsupported-type message; an explicit output path is used as given, and without one the default `<stem>_thumb.jpg` beside the file |
| Media.DefaultThumbnailPath | file-system-mcp-server/media_utils.py:215-217 | the default output path ends in `_thumb.jpg` |
| Media.DefaultThumbnailBeside | file-system-mcp-server/media_utils.py:215-217 | the default thumbnail sits in the file's directory and is named stem + `_thumb.jpg` |
| Media.DateKey | file-system-mcp-server/media_utils.py:288 | the date key holds no 'T' |
| Media.GroupOf | file-system-mcp-server/media_utils.py:290-293 | a group holds at most the given files |
| Media.OrganizeByDate | file-system-mcp-server/media_utils.py:275-307 | an empty list is refused; otherwise the keys in first-seen order, each with its files in input order |
| Media.OrganizeStep | file-system-mcp-server/media_utils.py:285-293 | one more file with a creation time adds its date to the keys when new and joins that date's group; no other group changes |
| Media.EmptyGroup | file-system-mcp-server/media_utils.py:290-293 | a date that is no key has no files |
| Media.GroupMembers | file-system-mcp-server/media_utils.py:285-293 | a file is in a group exactly when it has a creation time with that date |
| Media.DateKeysExact | file-system-mcp-server/media_utils.py:285-293 | the keys are exactly the dates of the files with a creation time, each once |
| Media.DateKeyOfTimestamp | file-system-mcp-server/media_utils.py:288 | the key of an ISO timestamp is its date part |
| Windows.IsValidWindowsPath | file-system-mcp-server/windows_utils.py:245-270 | a valid path is non-empty and holds none of the invalid characters |
| Windows.ComponentsDecide | file-system-mcp-server/windows_utils.py:249-270 | a path is valid exactly when it is non-empty, has no invalid character and none of its backslash components is a device name in any case |
| Windows.DriveLetterRejected | file-system-mcp-server/windows_utils.py:253-256 | a path with a drive letter is invalid, since ':' is an invalid character |
| Windows.ReservedNameChars | file-system-mcp-server/windows_utils.py:260-264 | device names are 3 or 4 characters without separators or invalid characters |
| Windows.DeviceNameWithExtensionAllowed | file-system-mcp-server/windows_utils.py:266-268 | a device name with an extension, such as `CON.txt`, is valid |
| Windows.ReservedLastComponentRejected | file-system-mcp-server/windows_utils.py:259-268 | a device name in any case after a backslash makes the path invalid |
| Windows.ForwardSlashHidesReservedName | file-system-mcp-server/windows_utils.py:259 | a device name after a '/' is not seen as a component |
| Windows.NormalizeSlashes | file-system-mcp-server/windows_utils.py:235-239 | the rewrite keeps the length, turns every '/' into a backslash and keeps every other character |
| Windows.NormalizeIdempotent | file-system-mcp-server/windows_utils.py:235-239 | rewriting twice is rewriting once |
| Windows.NormalizingExposesReservedName | file-system-mcp-server/windows_utils.py:239 | a path valid with '/' becomes invalid once '/' is rewritten, when a device name follows it |
| Windows.SplitDrives | file-system-mcp-server/windows_utils.py:23 | no drive from the split holds NUL |
| Windows.SplitDrivesRoundTrip | file-system-mcp-server/windows_utils.py:23 | splitting the NUL-terminated drive string gives back the drives |
| Windows.DriveTypeName | file-system-mcp-server/windows_utils.py:29-37 | codes 0 to 6 are the keys of the map and get their mapped name; any other code gets `Unknown` |
| Windows.DriveTypeUnknown | file-system-mcp-server/windows_utils.py:29-37 | a drive type is `Unknown` exactly when its code is not 1 to 6 |
| Windows.DriveSizes | file-system-mcp-server/windows_utils.py:42-45 | total and free are the reported figures, used plus free is total, and used is within the total when free does not exceed it |

## Left out

- File contents are text and sizes are character counts: UTF-8 encoding and decoding (with `errors='replace'` or `'ignore'`) are not modelled.
- Case mapping is ASCII only; Python's Unicode `lower`/`upper` are not modelled.
- `mimetypes.guess_type` is an input, not a table.
- `os.stat` is not modelled. Search.MetadataOf always yields a record: the `{"error": ...}` dict that `get_file_metadata` returns when the stat fails (fs_server.py lines 154-155), which the scans and searches would append in place of a record, is not modelled.
- Search.MetadataOf: the record drops the size and the creation and modification timestamps.
- A flat (non-recursive) `scan_directory`, `search_files` or `search_file_contents` on a root that is not a directory returns `{"error": ...}` because `os.listdir` raises, while the recursive mode returns an empty list; the model starts from a given walk and does not model either outcome.
- Files are read in text mode, where `\r\n` and `\r` are read as `\n`; that newline translation is not modelled, so line counts and line splitting see only `\n`.
- Search.Entry: an entry's name is given beside its path rather than computed as `Basename(path)`. `os.walk` and `os.listdir` make the two agree, but the model does not require it, so name matching in `search_files` is about the given name.
- `os.walk` is not modelled: the walk is a given sequence of entries in a given order. The per-directory `break` of the content search becomes a stop over the whole flattened walk, which is what the outer loop's repeated break achieves.
- Directories are a set of path strings with no hierarchy; a write needs its parent (`Dirname`) in that set, and nothing checks the parent's own parents. `os.makedirs` creating missing parents (in copy, move and create-directory) is not modelled, nor are `os.path.normpath`/`abspath`, symbolic links or the samefile test, which is path equality here.
- FileSystem.Copy: when the destination is a directory the reported size is `None`, where the code reports the size of the directory entry itself (`os.path.getsize` of the destination). FileSystem.Move reports the same way.
- Exceptions from the operating system (permissions, full disk, races) are not modelled; each tool's `except` returning `{"error": ...}` appears only for the conditions named in the error type.
- The `@mcp.tool()` wrappers that only forward to the functions above, `create_collection`, `list_user_directories`, `get_system_info` and the platform helpers are left out: they are I/O or bookkeeping.
- Rendering thumbnails with Pillow or ffmpeg is left out; Media.PlanThumbnail covers only the decisions taken before rendering.
- Floating-point figures are left out: `percent_used` of a drive and the frame time of a video thumbnail.
- `organize_by_date` creating `output_dir` sub-directories is left out. Its `errors` branch is also left out, since a creation time is always a string here.
- `normalize_windows_path` applies `ntpath.normpath` after the slash rewrite; that step is not part of this model.
- `get_windows_drives` calls `GetLogicalDriveStrings`, `GetDriveType` and `GetDiskFreeSpaceEx`, which become inputs.
- An empty `file_types` list selects no file, because the code tests membership in the list. This model follows the code, not the reading of an empty list as "all types".
