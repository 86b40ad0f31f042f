/**
 * The guarded file operations of the server (`copy_file`, `move_file`,
 * `delete_file`, `write_text_file`, `create_directory`, `list_directory`,
 * `read_text_file`) over an abstract file system: a map from file paths to
 * their text and a set of directory paths. Paths are compared as strings;
 * the size of a file is the length of its text.
 *
 * Each operation is a pure function from a `Store` to a result, and a method
 * of the `FileSystem` class that performs it on its fields.
 */
module FileSystem {
  import opened Wrappers
  import opened Strings
  import opened Paths
  import opened FileTypes
  import opened Metadata

  datatype Store = Store(files: map<string, string>, dirs: set<string>)

  /** No path is both a file and a directory, and the empty path is neither. */
  predicate Wellformed(s: Store)
  {
    s.files.Keys !! s.dirs && [] !in s.files && [] !in s.dirs
  }

  /** `os.path.exists` */
  predicate Exists(s: Store, p: string)
  {
    p in s.files || p in s.dirs
  }

  /** The exceptions the operations report as `{"error": ...}`. */
  datatype FsError =
    | SourceNotFound(path: string)
    | DestinationExists(path: string)
    | SameFile(path: string)
    | IsADirectory(path: string)
    | FileNotFound(path: string)
    | NoSuchPath(path: string)
    | FileExists(path: string)
    | DirectoryNotFound(path: string)
    | NotATextFile(path: string)
    | LineIndexUnbound

  /** The new store together with what the operation reports. */
  datatype Applied<T> = Applied(store: Store, info: T)

  datatype TransferInfo = TransferInfo(source: string, destination: string, size: Option<nat>)
  datatype DeletedInfo = DeletedInfo(path: string, name: string, size: nat)
  datatype WriteInfo = WriteInfo(path: string, name: string, size: nat, append: bool)
  datatype ReadInfo = ReadInfo(path: string, name: string, content: string, size: nat)
  datatype FileItem = FileItem(name: string, path: string, size: nat, category: Category)
  datatype DirItem = DirItem(name: string, path: string)
  datatype Listing = Listing(path: string, files: seq<FileItem>, directories: seq<DirItem>, fileCount: nat, directoryCount: nat)

  /** `os.path.getsize` of the destination, which is a file size only when it names a file. */
  function SizeOf(s: Store, p: string): (r: Option<nat>)
    ensures r.Some? <==> p in s.files
    ensures r.Some? ==> r.value == |s.files[p]|
  {
    if p in s.files then Some(|s.files[p]|) else None
  }

  /** The file `shutil` writes: into a destination directory under the source's base name. */
  function Target(s: Store, src: string, dst: string): string
  {
    if dst in s.dirs then Join(dst, Basename(src)) else dst
  }

  // ---------------------------------------------------------------- copy_file

  /**
   * `copy_file`: a missing source, and an existing destination without
   * `overwrite`, are refused; otherwise the target file gets the source's text.
   */
  function Copy(s: Store, src: string, dst: string, overwrite: bool): (r: Result<Applied<TransferInfo>, FsError>)
    ensures src !in s.files ==> r == Err(SourceNotFound(src))
    ensures src in s.files && Exists(s, dst) && !overwrite ==> r == Err(DestinationExists(dst))
    ensures r.Ok? ==> var t := Target(s, src, dst);
                      && src in s.files && t != src && t !in s.dirs
                      && r.value.store.dirs == s.dirs
                      && r.value.store.files.Keys == s.files.Keys + {t}
                      && r.value.store.files[t] == s.files[src]
                      && (forall p :: p in s.files && p != t ==> r.value.store.files[p] == s.files[p])
    ensures src in s.files && (!Exists(s, dst) || overwrite) && dst == [] ==> r == Err(NoSuchPath(dst))
    ensures src in s.files && (!Exists(s, dst) || overwrite) && dst != [] ==>
              var t := Target(s, src, dst);
              && (t == src ==> r == Err(SameFile(src)))
              && (t != src && t in s.dirs ==> r == Err(IsADirectory(t)))
              && (t != src && t !in s.dirs ==> r.Ok?)
    ensures r.Ok? ==> r.value.info == TransferInfo(src, dst, SizeOf(r.value.store, dst))
    ensures r.Ok? && Wellformed(s) ==> Wellformed(r.value.store)
  {
    if src !in s.files then Err(SourceNotFound(src))
    else if Exists(s, dst) && !overwrite then Err(DestinationExists(dst))
    else if dst == [] then Err(NoSuchPath(dst))
    else
      var t := Target(s, src, dst);
      if t == src then Err(SameFile(src))
      else if t in s.dirs then Err(IsADirectory(t))
      else
        var after := Store(s.files[t := s.files[src]], s.dirs);
        Ok(Applied(after, TransferInfo(src, dst, SizeOf(after, dst))))
  }

  /**
   * The copy scenario: a fresh destination is created; copying again without
   * `overwrite` is refused; with `overwrite` it succeeds and changes nothing.
   */
  lemma CopyTwice(s: Store, src: string, dst: string)
    requires Wellformed(s) && src in s.files && !Exists(s, dst) && dst != []
    ensures Copy(s, src, dst, false).Ok?
    ensures var once := Copy(s, src, dst, false).value.store;
            && once.files[dst] == s.files[src]
            && Copy(once, src, dst, false) == Err(DestinationExists(dst))
            && Copy(once, src, dst, true).Ok?
            && Copy(once, src, dst, true).value.store == once
  {
    var once := Copy(s, src, dst, false).value.store;
    assert once.files[dst := once.files[src]] == once.files;
  }

  // ---------------------------------------------------------------- move_file

  /**
   * `move_file`: the same guards as the copy; into a directory, an existing
   * entry of the source's name is refused; otherwise the text moves from the
   * source path to the target path.
   */
  function Move(s: Store, src: string, dst: string, overwrite: bool): (r: Result<Applied<TransferInfo>, FsError>)
    ensures src !in s.files ==> r == Err(SourceNotFound(src))
    ensures src in s.files && Exists(s, dst) && !overwrite ==> r == Err(DestinationExists(dst))
    ensures r.Ok? ==> var t := Target(s, src, dst);
                      && src in s.files && t !in s.dirs
                      && r.value.store.dirs == s.dirs
                      && r.value.store.files.Keys == s.files.Keys - {src} + {t}
                      && r.value.store.files[t] == s.files[src]
                      && (forall p :: p in s.files && p != t && p != src ==> r.value.store.files[p] == s.files[p])
    ensures src in s.files && (!Exists(s, dst) || overwrite) && dst == [] ==> r == Err(NoSuchPath(dst))
    ensures src in s.files && (!Exists(s, dst) || overwrite) && dst != [] && TakenInside(s, src, dst) ==>
              r == Err(DestinationExists(Join(dst, Basename(src))))
    ensures src in s.files && (!Exists(s, dst) || overwrite) && dst != [] && !TakenInside(s, src, dst) ==> r.Ok?
    ensures r.Ok? ==> r.value.info == TransferInfo(src, dst, SizeOf(r.value.store, dst))
    ensures r.Ok? && Wellformed(s) ==> Wellformed(r.value.store)
  {
    if src !in s.files then Err(SourceNotFound(src))
    else if Exists(s, dst) && !overwrite then Err(DestinationExists(dst))
    else if dst == [] then Err(NoSuchPath(dst))
    else if TakenInside(s, src, dst) then Err(DestinationExists(Join(dst, Basename(src))))
    else
      var t := Target(s, src, dst);
      var after := Store((s.files - {src})[t := s.files[src]], s.dirs);
      Ok(Applied(after, TransferInfo(src, dst, SizeOf(after, dst))))
  }

  /** Moving into a directory that already has an entry of the source's name. */
  predicate TakenInside(s: Store, src: string, dst: string)
  {
    dst in s.dirs && Exists(s, Join(dst, Basename(src)))
  }

  /** The move scenario: to a fresh path, the source is gone and the destination holds its text. */
  lemma MoveToFreshPath(s: Store, src: string, dst: string, overwrite: bool)
    requires Wellformed(s) && src in s.files && !Exists(s, dst) && dst != []
    ensures var r := Move(s, src, dst, overwrite);
            && r.Ok? && src !in r.value.store.files && r.value.store.files[dst] == s.files[src]
            && |r.value.store.files| == |s.files|
            && r.value.info.size == Some(|s.files[src]|)
  {
    var after := Move(s, src, dst, overwrite).value.store;
    assert after.files.Keys == s.files.Keys - {src} + {dst};
    assert |after.files.Keys| == |s.files.Keys|;
  }

  // ---------------------------------------------------------------- delete_file

  /** `delete_file`: a path that is not a file is refused; otherwise only that file is removed. */
  function Delete(s: Store, path: string): (r: Result<Applied<DeletedInfo>, FsError>)
    ensures r.Err? <==> path !in s.files
    ensures r.Err? ==> r.error == FileNotFound(path)
    ensures r.Ok? ==> && r.value.store.files.Keys == s.files.Keys - {path}
                      && r.value.store.dirs == s.dirs
                      && (forall p :: p in r.value.store.files ==> r.value.store.files[p] == s.files[p])
                      && r.value.info == DeletedInfo(path, Basename(path), |s.files[path]|)
    ensures r.Ok? && Wellformed(s) ==> Wellformed(r.value.store)
  {
    if path !in s.files then Err(FileNotFound(path))
    else Ok(Applied(Store(s.files - {path}, s.dirs), DeletedInfo(path, Basename(path), |s.files[path]|)))
  }

  /** Deleting twice: the second deletion is refused. */
  lemma DeleteTwice(s: Store, path: string)
    requires path in s.files
    ensures Delete(s, path).Ok?
    ensures Delete(Delete(s, path).value.store, path) == Err(FileNotFound(path))
  {
  }

  // ---------------------------------------------------------------- write_text_file

  /** `open` can create a file only in an existing directory (a bare name lies in the current one). */
  predicate ParentExists(s: Store, path: string)
  {
    Dirname(path) == [] || Dirname(path) in s.dirs
  }

  /**
   * `write_text_file`: mode 'w' replaces the text, mode 'a' appends to it
   * (creating the file in both modes); opening the empty path, a directory,
   * or a path whose directory does not exist fails.
   */
  function Write(s: Store, path: string, content: string, append: bool): (r: Result<Applied<WriteInfo>, FsError>)
    ensures r.Err? <==> path == [] || path in s.dirs || !ParentExists(s, path)
    ensures path != [] && path !in s.dirs && !ParentExists(s, path) ==> r == Err(FileNotFound(path))
    ensures r.Ok? ==> var old_text := if append && path in s.files then s.files[path] else [];
                      && r.value.store.files == s.files[path := old_text + content]
                      && r.value.store.dirs == s.dirs
                      && r.value.info.size == |old_text| + |content|
    ensures r.Ok? && Wellformed(s) ==> Wellformed(r.value.store)
  {
    if path == [] then Err(NoSuchPath(path))
    else if path in s.dirs then Err(IsADirectory(path))
    else if !ParentExists(s, path) then Err(FileNotFound(path))
    else
      var prior := if append && path in s.files then s.files[path] else [];
      var text := prior + content;
      Ok(Applied(Store(s.files[path := text], s.dirs), WriteInfo(path, Basename(path), |text|, append)))
  }

  /** The write scenario: writing X and then appending Y leaves XY, whatever was there before. */
  lemma WriteThenAppend(s: Store, path: string, x: string, y: string)
    requires path != [] && path !in s.dirs && ParentExists(s, path)
    ensures Write(s, path, x, false).Ok?
    ensures var w := Write(s, path, x, false).value.store;
            && Write(w, path, y, true).Ok?
            && Write(w, path, y, true).value.store.files[path] == x + y
  {
    assert [] + x == x;
  }

  // ---------------------------------------------------------------- create_directory

  /** `create_directory` (`makedirs` with `exist_ok`): an existing directory is accepted. */
  function MakeDirectory(s: Store, path: string): (r: Result<Applied<string>, FsError>)
    ensures r.Err? <==> path == [] || path in s.files
    ensures r.Ok? ==> r.value.store == Store(s.files, s.dirs + {path}) && r.value.info == path
    ensures r.Ok? && Wellformed(s) ==> Wellformed(r.value.store)
  {
    if path == [] then Err(NoSuchPath(path))
    else if path in s.files then Err(FileExists(path))
    else Ok(Applied(Store(s.files, s.dirs + {path}), path))
  }

  /** Creating the same directory twice succeeds both times and the second changes nothing. */
  lemma MakeDirectoryIdempotent(s: Store, path: string)
    requires MakeDirectory(s, path).Ok?
    ensures var once := MakeDirectory(s, path).value.store;
            MakeDirectory(once, path) == Ok(Applied(once, path))
  {
    var once := MakeDirectory(s, path).value.store;
    assert once.dirs + {path} == once.dirs;
  }

  // ---------------------------------------------------------------- list_directory

  /** The file entries of a listing, in `os.listdir` order. */
  function ListedFiles(s: Store, dir: string, items: seq<string>, guess: MimeGuess): (r: seq<FileItem>)
    ensures |r| <= |items|
  {
    if items == [] then []
    else
      var item := items[|items| - 1];
      var p := Join(dir, item);
      ListedFiles(s, dir, items[..|items| - 1], guess)
        + (if p in s.files then [FileItem(item, p, |s.files[p]|, GetFileType(p, guess(p)))] else [])
  }

  /** The directory entries of a listing: items that are not files but directories. */
  function ListedDirs(s: Store, dir: string, items: seq<string>): (r: seq<DirItem>)
    ensures |r| <= |items|
  {
    if items == [] then []
    else
      var item := items[|items| - 1];
      var p := Join(dir, item);
      ListedDirs(s, dir, items[..|items| - 1])
        + (if p !in s.files && p in s.dirs then [DirItem(item, p)] else [])
  }

  /** The number of items whose path exists. */
  function ExistingCount(s: Store, dir: string, items: seq<string>): (n: nat)
    ensures n <= |items|
  {
    if items == [] then 0
    else ExistingCount(s, dir, items[..|items| - 1]) + (if Exists(s, Join(dir, items[|items| - 1])) then 1 else 0)
  }

  /** One more item of the listing: what it adds to the files and to the directories. */
  lemma ListingStep(s: Store, dir: string, items: seq<string>, i: nat, guess: MimeGuess)
    requires i < |items|
    ensures var p := Join(dir, items[i]);
            && ListedFiles(s, dir, items[..i + 1], guess) == ListedFiles(s, dir, items[..i], guess)
                 + (if p in s.files then [FileItem(items[i], p, |s.files[p]|, GetFileType(p, guess(p)))] else [])
            && ListedDirs(s, dir, items[..i + 1]) == ListedDirs(s, dir, items[..i])
                 + (if p !in s.files && p in s.dirs then [DirItem(items[i], p)] else [])
  {
    assert items[..i + 1][..i] == items[..i];
  }

  /** Every existing item is listed exactly once, as a file or as a directory. */
  lemma {:induction false} ListingPartition(s: Store, dir: string, items: seq<string>, guess: MimeGuess)
    ensures |ListedFiles(s, dir, items, guess)| + |ListedDirs(s, dir, items)| == ExistingCount(s, dir, items)
    decreases |items|
  {
    if items != [] {
      ListingPartition(s, dir, items[..|items| - 1], guess);
    }
  }

  /** An item is listed as a file exactly when its path is a file, with that file's size. */
  lemma {:induction false} ListedFilesMembers(s: Store, dir: string, items: seq<string>, guess: MimeGuess, x: FileItem)
    ensures x in ListedFiles(s, dir, items, guess) <==>
            x.name in items && x.path == Join(dir, x.name) && x.path in s.files
            && x.size == |s.files[x.path]| && x.category == GetFileType(x.path, guess(x.path))
    decreases |items|
  {
    if items != [] {
      var init := items[..|items| - 1];
      ListedFilesMembers(s, dir, init, guess, x);
      assert items == init + [items[|items| - 1]];
    }
  }

  /** An item is listed as a directory exactly when its path is a directory and not a file. */
  lemma {:induction false} ListedDirsMembers(s: Store, dir: string, items: seq<string>, x: DirItem)
    ensures x in ListedDirs(s, dir, items) <==>
            x.name in items && x.path == Join(dir, x.name) && x.path !in s.files && x.path in s.dirs
    decreases |items|
  {
    if items != [] {
      var init := items[..|items| - 1];
      ListedDirsMembers(s, dir, init, x);
      assert items == init + [items[|items| - 1]];
    }
  }

  // ---------------------------------------------------------------- read_text_file

  /** The note appended when `max_lines` cut the file short. */
  function TruncationNote(maxLines: int, shown: int): (note: string)
    ensures note != [] && note[0] == '\n' && '\n' !in note[1..]
  {
    var tail := "... (truncated, showing " + IntToString(maxLines) + " of " + IntToString(shown) + "+ lines)";
    NoteTailSingleLine(IntToString(maxLines), IntToString(shown));
    IntToStringSingleLine(maxLines);
    IntToStringSingleLine(shown);
    assert ("\n" + tail)[1..] == tail;
    "\n" + tail
  }

  /** The text around the two numbers of the note holds no line break. */
  lemma NoteTailSingleLine(a: string, b: string)
    requires '\n' !in a && '\n' !in b
    ensures '\n' !in "... (truncated, showing " + a + " of " + b + "+ lines)"
  {
    NotePiecesSingleLine();
    CharFreeConcat("... (truncated, showing ", a, '\n');
    CharFreeConcat("... (truncated, showing " + a, " of ", '\n');
    CharFreeConcat("... (truncated, showing " + a + " of ", b, '\n');
    CharFreeConcat("... (truncated, showing " + a + " of " + b, "+ lines)", '\n');
  }

  lemma NotePiecesSingleLine()
    ensures '\n' !in "... (truncated, showing " && '\n' !in " of " && '\n' !in "+ lines)"
  {
  }

  /** How many lines a positive or negative `max_lines` keeps out of `n`. */
  function Kept(maxLines: int, n: nat): (k: nat)
    ensures k <= n
    ensures maxLines < 0 ==> k == 0
    ensures maxLines >= 0 ==> k <= maxLines && (k == n || k == maxLines)
  {
    if maxLines < 0 then 0 else if maxLines < n then maxLines else n
  }

  /**
   * The `max_lines` branch of `read_text_file` for a non-zero limit `m`: the
   * kept lines, then the note when more remain; on an empty text the loop
   * index is never bound and the read fails.
   */
  function LimitedRead(text: string, m: int): (r: Result<string, FsError>)
    ensures r.Err? <==> text == []
  {
    var lines := SplitLines(text);
    if lines == [] then Err(LineIndexUnbound)
    else
      var k := Kept(m, |lines|);
      Ok(Concat(lines[..k]) + if m < |lines| then TruncationNote(m, k + 1) else [])
  }

  /**
   * `read_text_file`: only an existing file of a textual type is read; a
   * non-zero `max_lines` keeps that many lines and adds the note when more
   * remain; on an empty file the loop index is never bound and the read fails.
   */
  function ReadText(s: Store, path: string, maxLines: Option<int>, mime: Option<string>): (r: Result<ReadInfo, FsError>)
    ensures path !in s.files ==> r == Err(FileNotFound(path))
    ensures path in s.files && !IsTextual(GetFileType(path, mime)) ==> r == Err(NotATextFile(path))
    ensures r.Ok? ==> r.value.path == path && r.value.size == |s.files[path]|
    ensures r.Ok? && maxLines.Some? && maxLines.value != 0 ==>
              LimitedRead(s.files[path], maxLines.value) == Ok(r.value.content)
    ensures r.Ok? && (maxLines.None? || maxLines.value == 0) ==> r.value.content == s.files[path]
    ensures path in s.files && IsTextual(GetFileType(path, mime)) ==>
              (r.Err? <==> maxLines.Some? && maxLines.value != 0 && s.files[path] == [])
  {
    if path !in s.files then Err(FileNotFound(path))
    else if !IsTextual(GetFileType(path, mime)) then Err(NotATextFile(path))
    else
      var text := s.files[path];
      if maxLines.Some? && maxLines.value != 0 then
        match LimitedRead(text, maxLines.value)
        case Err(e) => Err(e)
        case Ok(content) => Ok(ReadInfo(path, Basename(path), content, |text|))
      else Ok(ReadInfo(path, Basename(path), text, |text|))
  }

  /** Without a limit (or with `max_lines` 0) the whole text is returned. */
  lemma ReadWithoutLimit(s: Store, path: string, maxLines: Option<int>, mime: Option<string>)
    requires path in s.files && IsTextual(GetFileType(path, mime))
    requires maxLines.None? || maxLines.value == 0
    ensures ReadText(s, path, maxLines, mime) == Ok(ReadInfo(path, Basename(path), s.files[path], |s.files[path]|))
  {
  }

  /** A limit at least the number of lines returns the whole text, without a note. */
  lemma LimitedReadUnderLimit(text: string, m: int)
    requires text != [] && |SplitLines(text)| <= m
    ensures LimitedRead(text, m) == Ok(text)
  {
    var lines := SplitLines(text);
    SplitLinesSound(text);
    assert lines[..|lines|] == lines;
    assert Concat(lines) + [] == Concat(lines);
  }

  /**
   * Over the limit, the result is the first `m` whole lines of the text (a
   * prefix holding exactly `m` newlines), then the note.
   */
  lemma LimitedReadOverLimit(text: string, m: int)
    requires 0 < m < |SplitLines(text)|
    ensures var kept := Concat(SplitLines(text)[..m]);
            && LimitedRead(text, m) == Ok(kept + TruncationNote(m, m + 1))
            && StartsWith(text, kept)
            && Count(kept, '\n') == m
  {
    KeptLines(text, m);
  }

  /** An empty file with a non-zero limit is an error: the line loop never ran. */
  lemma ReadEmptyWithLimit(s: Store, path: string, m: int, mime: Option<string>)
    requires path in s.files && IsTextual(GetFileType(path, mime)) && s.files[path] == [] && m != 0
    ensures ReadText(s, path, Some(m), mime) == Err(LineIndexUnbound)
  {
  }

  /** The line loop stops at the end of the lines or at the first index reaching `max_lines`: it has kept `Kept` lines. */
  lemma KeptWhereStopped(m: int, n: nat, j: nat)
    requires j <= n && (m < 0 ==> j == 0) && (j == 0 || j <= m) && (j == n || j >= m)
    ensures j == Kept(m, n)
  {
  }

  /** The line loop of `read_text_file`: it stops at index `m` and remembers the last index it saw. */
  method ReadLines(text: string, m: int) returns (r: Result<string, FsError>)
    ensures r == LimitedRead(text, m)
  {
    var lines := SplitLines(text);
    var kept: seq<string> := [];
    var last: Option<nat> := None;
    var j := 0;
    while j < |lines|
      invariant 0 <= j <= |lines| && kept == lines[..j]
      invariant (m < 0 ==> j == 0) && (j == 0 || j <= m)
      invariant last == if j == 0 then None else Some(j - 1)
    {
      last := Some(j);
      if j >= m {
        break;
      }
      kept := kept + [lines[j]];
      j := j + 1;
    }
    if last.None? {
      return Err(LineIndexUnbound);
    }
    KeptWhereStopped(m, |lines|, j);
    LoopAgrees(text, m, j, last.value);
    var note := "";
    if last.value >= m {
      note := TruncationNote(m, last.value + 1);
    }
    r := Ok(Concat(kept) + note);
  }

  /** Where the line loop stopped and the last index it bound decide the limited read. */
  lemma LoopAgrees(text: string, m: int, j: nat, last: nat)
    requires SplitLines(text) != [] && j == Kept(m, |SplitLines(text)|)
    requires last == j - (if j < |SplitLines(text)| then 0 else 1)
    ensures LimitedRead(text, m) ==
            Ok(Concat(SplitLines(text)[..j]) + if last >= m then TruncationNote(m, last + 1) else [])
  {
    assert last >= m <==> m < |SplitLines(text)|;
  }

  // ---------------------------------------------------------------- the class

  /** The file system the tools act on. */
  class FileSystem {
    var files: map<string, string>
    var dirs: set<string>

    function State(): Store
      reads this
    {
      Store(files, dirs)
    }

    ghost predicate Valid()
      reads this
    {
      Wellformed(State())
    }

    constructor (initial: Store)
      requires Wellformed(initial)
      ensures Valid() && State() == initial
    {
      files := initial.files;
      dirs := initial.dirs;
    }

    /** The tool's result and new state agree with the specification function's. */
    ghost predicate Performed<T>(before: Store, spec: Result<Applied<T>, FsError>, r: Result<T, FsError>)
      reads this
    {
      match spec
      case Err(e) => r == Err(e) && State() == before
      case Ok(a) => r == Ok(a.info) && State() == a.store
    }

    method CopyFile(src: string, dst: string, overwrite: bool) returns (r: Result<TransferInfo, FsError>)
      requires Valid()
      modifies this
      ensures Valid()
      ensures Performed(old(State()), Copy(old(State()), src, dst, overwrite), r)
    {
      if src !in files {
        return Err(SourceNotFound(src));
      }
      if (dst in files || dst in dirs) && !overwrite {
        return Err(DestinationExists(dst));
      }
      if dst == [] {
        return Err(NoSuchPath(dst));
      }
      var target := dst;
      if dst in dirs {
        target := Join(dst, Basename(src));
      }
      if target == src {
        return Err(SameFile(src));
      }
      if target in dirs {
        return Err(IsADirectory(target));
      }
      files := files[target := files[src]];
      r := Ok(TransferInfo(src, dst, if dst in files then Some(|files[dst]|) else None));
    }

    method MoveFile(src: string, dst: string, overwrite: bool) returns (r: Result<TransferInfo, FsError>)
      requires Valid()
      modifies this
      ensures Valid()
      ensures Performed(old(State()), Move(old(State()), src, dst, overwrite), r)
    {
      if src !in files {
        return Err(SourceNotFound(src));
      }
      if (dst in files || dst in dirs) && !overwrite {
        return Err(DestinationExists(dst));
      }
      if dst == [] {
        return Err(NoSuchPath(dst));
      }
      var target := dst;
      if dst in dirs {
        target := Join(dst, Basename(src));
        if target in files || target in dirs {
          return Err(DestinationExists(target));
        }
      }
      var text := files[src];
      files := files - {src};
      files := files[target := text];
      r := Ok(TransferInfo(src, dst, if dst in files then Some(|files[dst]|) else None));
    }

    method DeleteFile(path: string) returns (r: Result<DeletedInfo, FsError>)
      requires Valid()
      modifies this
      ensures Valid()
      ensures Performed(old(State()), Delete(old(State()), path), r)
    {
      if path !in files {
        return Err(FileNotFound(path));
      }
      var info := DeletedInfo(path, Basename(path), |files[path]|);
      files := files - {path};
      r := Ok(info);
    }

    method WriteTextFile(path: string, content: string, append: bool) returns (r: Result<WriteInfo, FsError>)
      requires Valid()
      modifies this
      ensures Valid()
      ensures Performed(old(State()), Write(old(State()), path, content, append), r)
    {
      if path == [] {
        return Err(NoSuchPath(path));
      }
      if path in dirs {
        return Err(IsADirectory(path));
      }
      if Dirname(path) != [] && Dirname(path) !in dirs {
        return Err(FileNotFound(path));
      }
      var prior := if append && path in files then files[path] else [];
      files := files[path := prior + content];
      r := Ok(WriteInfo(path, Basename(path), |files[path]|, append));
    }

    method CreateDirectory(path: string) returns (r: Result<string, FsError>)
      requires Valid()
      modifies this
      ensures Valid()
      ensures Performed(old(State()), MakeDirectory(old(State()), path), r)
    {
      if path == [] {
        return Err(NoSuchPath(path));
      }
      if path in files {
        return Err(FileExists(path));
      }
      dirs := dirs + {path};
      r := Ok(path);
    }

    /** `list_directory` over the names `os.listdir` gives for `dir`. */
    method ListDirectory(dir: string, items: seq<string>, guess: MimeGuess) returns (r: Result<Listing, FsError>)
      ensures dir !in dirs ==> r == Err(DirectoryNotFound(dir))
      ensures dir in dirs ==> r.Ok? && r.value.path == dir
      ensures r.Ok? ==> && r.value.files == ListedFiles(State(), dir, items, guess)
                        && r.value.directories == ListedDirs(State(), dir, items)
                        && r.value.fileCount == |r.value.files|
                        && r.value.directoryCount == |r.value.directories|
                        && r.value.fileCount + r.value.directoryCount == ExistingCount(State(), dir, items)
    {
      if dir !in dirs {
        return Err(DirectoryNotFound(dir));
      }
      ghost var st := State();
      var fileItems: seq<FileItem> := [];
      var dirItems: seq<DirItem> := [];
      var i := 0;
      while i < |items|
        invariant 0 <= i <= |items|
        invariant fileItems == ListedFiles(st, dir, items[..i], guess)
        invariant dirItems == ListedDirs(st, dir, items[..i])
      {
        var item := items[i];
        var p := Join(dir, item);
        ListingStep(st, dir, items, i, guess);
        if p in files {
          fileItems := fileItems + [FileItem(item, p, |files[p]|, GetFileType(p, guess(p)))];
        } else if p in dirs {
          dirItems := dirItems + [DirItem(item, p)];
        }
        i := i + 1;
      }
      assert items[..i] == items;
      ListingPartition(st, dir, items, guess);
      r := Ok(Listing(dir, fileItems, dirItems, |fileItems|, |dirItems|));
    }

    /** `read_text_file`: the line loop stops at `max_lines` and remembers the last index it saw. */
    method ReadTextFile(path: string, maxLines: Option<int>, mime: Option<string>) returns (r: Result<ReadInfo, FsError>)
      ensures r == ReadText(State(), path, maxLines, mime)
    {
      if path !in files {
        return Err(FileNotFound(path));
      }
      if !IsTextual(GetFileType(path, mime)) {
        return Err(NotATextFile(path));
      }
      var text := files[path];
      if maxLines.None? || maxLines.value == 0 {
        return Ok(ReadInfo(path, Basename(path), text, |text|));
      }
      var limited := ReadLines(text, maxLines.value);
      match limited
      case Err(e) => return Err(e);
      case Ok(content) => return Ok(ReadInfo(path, Basename(path), content, |text|));
    }
  }
}
