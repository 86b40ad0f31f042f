/**
 * The media helpers: `detect_file_type` (magic-number sniffing with an
 * extension fallback), `organize_by_date` (grouping by the date part of
 * `created`) and the extension dispatch and default output path of
 * `generate_thumbnail`.
 */
module Media {
  import opened Wrappers
  import opened Strings
  import opened Paths
  import opened FileTypes

  newtype byte = x: int | 0 <= x < 256

  type Bytes = seq<byte>

  // ---------------------------------------------------------------- the signature table

  /** The dict literal of `detect_file_type`, entry by entry as written (19 entries, `RIFF` twice). */
  const SignatureLiteral: seq<(Bytes, string)> := [
    ([0xFF, 0xD8, 0xFF], "image/jpeg"),
    ([0x89, 0x50, 0x4E, 0x47, 0x0D, 0x0A, 0x1A, 0x0A], "image/png"),
    ([0x47, 0x49, 0x46, 0x38], "image/gif"),
    ([0x42, 0x4D], "image/bmp"),
    ([0x49, 0x49, 0x2A, 0x00], "image/tiff"),
    ([0x4D, 0x4D, 0x00, 0x2A], "image/tiff"),
    ([0x00, 0x00, 0x00, 0x18, 0x66, 0x74, 0x79, 0x70], "video/mp4"),
    ([0x00, 0x00, 0x00, 0x1C, 0x66, 0x74, 0x79, 0x70], "video/mp4"),
    ([0x00, 0x00, 0x00, 0x20, 0x66, 0x74, 0x79, 0x70], "video/mp4"),
    ([0x52, 0x49, 0x46, 0x46], "video/avi"),
    ([0x00, 0x00, 0x01, 0xBA], "video/mpeg"),
    ([0x00, 0x00, 0x01, 0xB3], "video/mpeg"),
    ([0x49, 0x44, 0x33], "audio/mp3"),
    ([0xFF, 0xFB], "audio/mp3"),
    ([0xFF, 0xF3], "audio/mp3"),
    ([0xFF, 0xF2], "audio/mp3"),
    ([0x52, 0x49, 0x46, 0x46], "audio/wav"),
    ([0x4F, 0x67, 0x67, 0x53], "audio/ogg"),
    ([0x66, 0x4C, 0x61, 0x43], "audio/flac")
  ]

  /** The last position of key `k` in an association list, or -1. */
  function KeyIndex<K(==), V>(d: seq<(K, V)>, k: K): (i: int)
    ensures -1 <= i < |d|
    ensures i == -1 <==> forall j :: 0 <= j < |d| ==> d[j].0 != k
    ensures i >= 0 ==> d[i].0 == k && forall j :: i < j < |d| ==> d[j].0 != k
  {
    if d == [] then -1
    else if d[|d| - 1].0 == k then |d| - 1
    else KeyIndex(d[..|d| - 1], k)
  }

  /** `d[k] = v` on an insertion-ordered dict: an existing key keeps its place and takes the new value. */
  function Insert<K(==), V>(d: seq<(K, V)>, k: K, v: V): (r: seq<(K, V)>)
    ensures |r| == |d| + (if KeyIndex(d, k) >= 0 then 0 else 1)
    ensures KeyIndex(r, k) >= 0 && r[KeyIndex(r, k)] == (k, v)
    ensures forall j :: 0 <= j < |d| && d[j].0 != k ==> r[j] == d[j]
    ensures DistinctKeys(d) ==> DistinctKeys(r)
  {
    var i := KeyIndex(d, k);
    if i >= 0 then
      var r := d[i := (k, v)];
      assert KeyIndex(r, k) == i by {
        var m := KeyIndex(r, k);
        assert r[i].0 == k;
        assert m >= i;
      }
      r
    else d + [(k, v)]
  }

  /** The dict a Python dict literal builds from its entries, in iteration order. */
  function BuildDict<K(==), V>(pairs: seq<(K, V)>): (r: seq<(K, V)>)
    ensures |r| <= |pairs| && DistinctKeys(r)
  {
    if pairs == [] then []
    else
      var last := pairs[|pairs| - 1];
      Insert(BuildDict(pairs[..|pairs| - 1]), last.0, last.1)
  }

  /** The signature dict in iteration order, as the literal evaluates (see `SignaturesEvaluated`). */
  const SignatureTable: seq<(Bytes, string)> := [
    ([0xFF, 0xD8, 0xFF], "image/jpeg"),
    ([0x89, 0x50, 0x4E, 0x47, 0x0D, 0x0A, 0x1A, 0x0A], "image/png"),
    ([0x47, 0x49, 0x46, 0x38], "image/gif"),
    ([0x42, 0x4D], "image/bmp"),
    ([0x49, 0x49, 0x2A, 0x00], "image/tiff"),
    ([0x4D, 0x4D, 0x00, 0x2A], "image/tiff"),
    ([0x00, 0x00, 0x00, 0x18, 0x66, 0x74, 0x79, 0x70], "video/mp4"),
    ([0x00, 0x00, 0x00, 0x1C, 0x66, 0x74, 0x79, 0x70], "video/mp4"),
    ([0x00, 0x00, 0x00, 0x20, 0x66, 0x74, 0x79, 0x70], "video/mp4"),
    ([0x52, 0x49, 0x46, 0x46], "audio/wav"),
    ([0x00, 0x00, 0x01, 0xBA], "video/mpeg"),
    ([0x00, 0x00, 0x01, 0xB3], "video/mpeg"),
    ([0x49, 0x44, 0x33], "audio/mp3"),
    ([0xFF, 0xFB], "audio/mp3"),
    ([0xFF, 0xF3], "audio/mp3"),
    ([0xFF, 0xF2], "audio/mp3"),
    ([0x4F, 0x67, 0x67, 0x53], "audio/ogg"),
    ([0x66, 0x4C, 0x61, 0x43], "audio/flac")
  ]

  predicate DistinctKeys<K(==), V>(d: seq<(K, V)>)
  {
    forall i, j :: 0 <= i < j < |d| ==> d[i].0 != d[j].0
  }

  /** Without repeated keys, the dict keeps every entry where it was written. */
  lemma {:induction false} BuildDistinct<K, V>(p: seq<(K, V)>)
    requires DistinctKeys(p)
    ensures BuildDict(p) == p
    decreases |p|
  {
    if p != [] {
      var init := p[..|p| - 1];
      BuildDistinct(init);
      assert KeyIndex(init, p[|p| - 1].0) == -1;
      assert init + [p[|p| - 1]] == p;
    }
  }

  lemma BuildSnoc<K, V>(p: seq<(K, V)>, k: K, v: V)
    ensures BuildDict(p + [(k, v)]) == Insert(BuildDict(p), k, v)
  {
    assert (p + [(k, v)])[..|p|] == p;
  }

  lemma FirstSixteenDistinct()
    ensures DistinctKeys(SignatureLiteral[..16])
  {
  }

  /** The second `RIFF` entry finds the first one and overwrites its value in place. */
  lemma {:induction false} BuildThroughSecondRiff()
    ensures BuildDict(SignatureLiteral[..17]) == SignatureTable[..16]
  {
    var lit := SignatureLiteral;
    FirstSixteenDistinct();
    BuildDistinct(lit[..16]);
    assert lit[..17] == lit[..16] + [lit[16]];
    BuildSnoc(lit[..16], lit[16].0, lit[16].1);
    assert lit[..16][9].0 == lit[16].0;
    assert KeyIndex(lit[..16], lit[16].0) == 9;
    assert lit[..16][9 := lit[16]] == SignatureTable[..16];
  }

  /** No earlier signature starts with the first byte of the `ogg` one. */
  lemma OggFirstByteUnique()
    ensures forall j :: 0 <= j < 16 ==> SignatureTable[j].0 != SignatureLiteral[17].0
  {
    forall j | 0 <= j < 16 ensures SignatureTable[j].0[0] != 0x4F {
    }
  }

  /** The two entries after it are new keys and are appended. */
  lemma {:induction false} BuildThroughOgg()
    ensures BuildDict(SignatureLiteral[..18]) == SignatureTable[..17]
  {
    var lit := SignatureLiteral;
    BuildThroughSecondRiff();
    assert lit[..18] == lit[..17] + [lit[17]];
    BuildSnoc(lit[..17], lit[17].0, lit[17].1);
    OggFirstByteUnique();
    assert SignatureTable[..17] == SignatureTable[..16] + [lit[17]];
  }

  /** No earlier signature starts with the first byte of the `flac` one. */
  lemma FlacFirstByteUnique()
    ensures forall j :: 0 <= j < 17 ==> SignatureTable[j].0 != SignatureLiteral[18].0
  {
    forall j | 0 <= j < 17 ensures SignatureTable[j].0[0] != 0x66 {
    }
  }

  /**
   * The dict the literal builds: 18 entries; the second `RIFF` entry does not
   * add a key but replaces the value of the first, in its place.
   */
  lemma {:induction false} SignaturesEvaluated()
    ensures BuildDict(SignatureLiteral) == SignatureTable
  {
    var lit := SignatureLiteral;
    BuildThroughOgg();
    assert lit == lit[..18] + [lit[18]];
    BuildSnoc(lit[..18], lit[18].0, lit[18].1);
    FlacFirstByteUnique();
    assert SignatureTable == SignatureTable[..17] + [lit[18]];
  }

  /** The signature dict `detect_file_type` iterates over. */
  function Signatures(): (t: seq<(Bytes, string)>)
    ensures t == SignatureTable
  {
    SignaturesEvaluated();
    BuildDict(SignatureLiteral)
  }

  // ---------------------------------------------------------------- detect_file_type

  /** The simplified type of a signature's MIME type. */
  function MimeKind(mime: string): (c: Option<Category>)
    ensures c.Some? ==> c.value in {Image, Video, Audio}
  {
    if StartsWith(mime, "image/") then Some(Image)
    else if StartsWith(mime, "video/") then Some(Video)
    else if StartsWith(mime, "audio/") then Some(Audio)
    else None
  }

  /** The loop over the table: the first entry whose signature starts the header and whose MIME type is simplified. */
  function FirstMatch(table: seq<(Bytes, string)>, header: Bytes): (c: Option<Category>)
    ensures c.Some? ==> c.value in {Image, Video, Audio}
  {
    if table == [] then None
    else if StartsWith(header, table[0].0) && MimeKind(table[0].1).Some? then MimeKind(table[0].1)
    else FirstMatch(table[1..], header)
  }

  /** `f.read(16)`: at most the first 16 bytes. */
  function Header(contents: Bytes): (h: Bytes)
    ensures |h| <= 16 && StartsWith(contents, h)
    ensures |contents| >= 16 ==> |h| == 16
  {
    if |contents| <= 16 then contents else contents[..16]
  }

  /** The extension fallback: only the image, video and audio lists are consulted. */
  function MediaExtensionKind(ext: string): (c: Category)
    ensures c in {Image, Video, Audio, Unknown}
    ensures c == Unknown <==> ext !in ImageExtensions && ext !in VideoExtensions && ext !in AudioExtensions
  {
    if ext in ImageExtensions then Image
    else if ext in VideoExtensions then Video
    else if ext in AudioExtensions then Audio
    else Unknown
  }

  /**
   * `detect_file_type`: `contents` is what reading the file gives, `None`
   * when opening it fails. A matching signature decides; otherwise the
   * lowercased extension does.
   */
  function DetectFileType(path: string, contents: Option<Bytes>): (c: Category)
    ensures c in {Image, Video, Audio, Unknown}
  {
    var sniffed := if contents.Some? then FirstMatch(Signatures(), Header(contents.value)) else None;
    if sniffed.Some? then sniffed.value else MediaExtensionKind(Lower(Extension(path)))
  }

  /** A table entry whose signature matches stops the loop with a type, if no earlier one did. */
  lemma {:induction false} FirstMatchFinds(table: seq<(Bytes, string)>, header: Bytes, i: nat)
    requires i < |table| && StartsWith(header, table[i].0) && MimeKind(table[i].1).Some?
    ensures FirstMatch(table, header).Some?
    decreases i
  {
    if i > 0 && !(StartsWith(header, table[0].0) && MimeKind(table[0].1).Some?) {
      FirstMatchFinds(table[1..], header, i - 1);
    }
  }

  /** A result from the loop comes from a matching entry, and no earlier entry matched. */
  lemma {:induction false} FirstMatchSound(table: seq<(Bytes, string)>, header: Bytes)
    requires FirstMatch(table, header).Some?
    ensures exists i :: 0 <= i < |table| && StartsWith(header, table[i].0)
                        && MimeKind(table[i].1) == FirstMatch(table, header)
                        && forall j :: 0 <= j < i ==> !(StartsWith(header, table[j].0) && MimeKind(table[j].1).Some?)
    decreases |table|
  {
    if !(StartsWith(header, table[0].0) && MimeKind(table[0].1).Some?) {
      FirstMatchSound(table[1..], header);
      var i :| 0 <= i < |table| - 1 && StartsWith(header, table[1..][i].0)
                && MimeKind(table[1..][i].1) == FirstMatch(table[1..], header)
                && forall j :: 0 <= j < i ==> !(StartsWith(header, table[1..][j].0) && MimeKind(table[1..][j].1).Some?);
      assert forall j :: 1 <= j < i + 1 ==> table[j] == table[1..][j - 1];
    } else {
      assert StartsWith(header, table[0].0);
    }
  }

  /** Every value in the table is an image, video or audio MIME type. */
  lemma TableValuesHaveKinds(i: nat)
    requires i < |SignatureTable|
    ensures MimeKind(SignatureTable[i].1).Some?
  {
  }

  /** Whenever the header starts with some signature, the extension plays no part and the type is known. */
  lemma SignatureDecides(path: string, other: string, contents: Bytes, i: nat)
    requires i < |SignatureTable| && StartsWith(Header(contents), SignatureTable[i].0)
    ensures DetectFileType(path, Some(contents)) == DetectFileType(other, Some(contents)) != Unknown
  {
    TableValuesHaveKinds(i);
    FirstMatchFinds(Signatures(), Header(contents), i);
  }

  /** Entries whose signatures do not start the header are passed over. */
  lemma {:induction false} FirstMatchSkips(table: seq<(Bytes, string)>, header: Bytes, k: nat)
    requires k <= |table|
    requires forall j :: 0 <= j < k ==> !StartsWith(header, table[j].0)
    ensures FirstMatch(table, header) == FirstMatch(table[k..], header)
    decreases k
  {
    if k > 0 {
      FirstMatchSkips(table[1..], header, k - 1);
      assert table[1..][k - 1..] == table[k..];
    }
  }

  lemma WavIsAudio()
    ensures MimeKind("audio/wav") == Some(Audio)
  {
    assert !StartsWith("audio/wav", "image/") && !StartsWith("audio/wav", "video/") by {
      assert "audio/wav"[..6][0] == 'a';
    }
  }

  /** None of the first nine signatures starts with `R`, the first byte of `RIFF`. */
  lemma RiffSkipsFirstNine(h: Bytes)
    requires |h| >= 1 && h[0] == 0x52
    ensures forall j :: 0 <= j < 9 ==> !StartsWith(h, SignatureTable[j].0)
  {
    forall j | 0 <= j < 9 ensures !StartsWith(h, SignatureTable[j].0) {
      assert |SignatureTable[j].0| >= 1 && SignatureTable[j].0[0] != 0x52;
    }
  }

  /** A file starting with `RIFF` is audio (`audio/wav`), never video: the later dict entry won. */
  lemma RiffIsAudio(path: string, rest: Bytes)
    ensures DetectFileType(path, Some([0x52, 0x49, 0x46, 0x46] + rest)) == Audio
  {
    var contents: Bytes := [0x52, 0x49, 0x46, 0x46] + rest;
    var h := Header(contents);
    assert h[..4] == [0x52, 0x49, 0x46, 0x46];
    var t := Signatures();
    RiffSkipsFirstNine(h);
    FirstMatchSkips(t, h, 9);
    WavIsAudio();
    assert t[9..][0] == t[9];
    assert StartsWith(h, t[9].0);
  }

  /** Only the first 16 bytes are read: what follows them never changes the result. */
  lemma OnlyHeaderMatters(path: string, a: Bytes, b: Bytes)
    requires |a| >= 16 && |b| >= 16 && a[..16] == b[..16]
    ensures DetectFileType(path, Some(a)) == DetectFileType(path, Some(b))
  {
  }

  // Facts about literal extensions, each kept apart so that the lemmas using
  // them need not evaluate literals themselves.

  lemma TxtIsNotMedia()
    ensures MediaExtensionKind(".txt") == Unknown
  {
  }

  lemma LowerPng()
    ensures Lower(".PNG") == ".png"
  {
  }

  lemma PngIsImage()
    ensures MediaExtensionKind(".png") == Image
  {
  }

  /** For a plain file name, the fallback sees the lower-cased extension as written. */
  lemma PlainNameExtension(stem: string, ext: string)
    requires stem != [] && '.' !in stem && '/' !in stem
    requires ext != [] && ext[0] == '.' && '.' !in ext[1..] && '/' !in ext
    ensures DetectFileType(stem + ext, None) == MediaExtensionKind(Lower(ext))
  {
    SimpleNameExtension(stem, ext);
  }

  /** An unreadable `.txt` file is typed by its extension alone, which is not a media type. */
  lemma UnreadableTextFile(stem: string)
    requires stem != [] && '.' !in stem && '/' !in stem
    ensures DetectFileType(stem + ".txt", None) == Unknown
  {
    PlainNameExtension(stem, ".txt");
    LowerTxt();
    TxtIsNotMedia();
  }

  /** The extension fallback ignores case: an unreadable `.PNG` file is an image. */
  lemma UnreadableUpperCaseImage(stem: string)
    requires stem != [] && '.' !in stem && '/' !in stem
    ensures DetectFileType(stem + ".PNG", None) == Image
  {
    PlainNameExtension(stem, ".PNG");
    LowerPng();
    PngIsImage();
  }

  // ---------------------------------------------------------------- generate_thumbnail

  datatype ThumbnailKind = ImageThumbnail | VideoThumbnail
  datatype ThumbnailPlan = ThumbnailPlan(kind: ThumbnailKind, output: string)

  /** The default output: `<stem>_thumb.jpg` beside the input. */
  function DefaultThumbnailPath(path: string): (r: string)
    ensures |r| >= 10 && r[|r| - 10..] == "_thumb.jpg"
  {
    ThumbPathSuffix(Dirname(path), Stem(path));
    Join(Dirname(path), Stem(path) + "_thumb.jpg")
  }

  /** Joining any directory with `<stem>_thumb.jpg` keeps the suffix. */
  lemma ThumbPathSuffix(dir: string, stem: string)
    requires '/' !in stem
    ensures var r := Join(dir, stem + "_thumb.jpg"); |r| >= 10 && r[|r| - 10..] == "_thumb.jpg"
  {
    var name := stem + "_thumb.jpg";
    ThumbNameSlashFree(stem);
    assert name[0] in name;
    SuffixOfSuffix(Join(dir, name), name, "_thumb.jpg");
  }

  /** A suffix of a suffix is a suffix. */
  lemma SuffixOfSuffix(r: string, b: string, t: string)
    requires |b| <= |r| && r[|r| - |b|..] == b
    requires |t| <= |b| && b[|b| - |t|..] == t
    ensures r[|r| - |t|..] == t
  {
    assert r[|r| - |t|..] == r[|r| - |b|..][|b| - |t|..];
  }

  /**
   * The dispatch of `generate_thumbnail` before any rendering: images and
   * videos by lowercased extension, the output path (the default when none
   * or the empty path is given), or the unsupported-type error.
   */
  function PlanThumbnail(path: string, output: Option<string>): (r: Result<ThumbnailPlan, string>)
    ensures var ext := Lower(Extension(path));
            && (r.Err? <==> ext !in ImageExtensions && ext !in VideoExtensions)
            && (r.Err? ==> r.error == "Unsupported file type for thumbnail generation: " + ext)
            && (r.Ok? ==> (r.value.kind == ImageThumbnail <==> ext in ImageExtensions))
    ensures r.Ok? && output.Some? && output.value != [] ==> r.value.output == output.value
    ensures r.Ok? && (output.None? || output.value == []) ==> r.value.output == DefaultThumbnailPath(path)
  {
    var ext := Lower(Extension(path));
    var out := if output.None? || output.value == [] then DefaultThumbnailPath(path) else output.value;
    if ext in ImageExtensions then Ok(ThumbnailPlan(ImageThumbnail, out))
    else if ext in VideoExtensions then Ok(ThumbnailPlan(VideoThumbnail, out))
    else Err("Unsupported file type for thumbnail generation: " + ext)
  }

  /** The default thumbnail lies in the input's directory and is named after its stem. */
  lemma DefaultThumbnailBeside(path: string)
    ensures Dirname(DefaultThumbnailPath(path)) == Dirname(path)
    ensures Basename(DefaultThumbnailPath(path)) == Stem(path) + "_thumb.jpg"
  {
    ThumbNameSlashFree(Stem(path));
    DirnameShaped(path);
    JoinSplitsBack(Dirname(path), Stem(path) + "_thumb.jpg");
  }

  /** The suffix adds no '/' to a slash-free stem. */
  lemma ThumbNameSlashFree(stem: string)
    requires '/' !in stem
    ensures '/' !in stem + "_thumb.jpg"
  {
    var name := stem + "_thumb.jpg";
    forall k | 0 <= k < |name| ensures name[k] != '/' {
      if k < |stem| { assert name[k] == stem[k]; }
    }
  }

  // ---------------------------------------------------------------- organize_by_date

  /** The fields of a file record that the grouping reads; `created` is absent when `None`. */
  datatype FileInfo = FileInfo(path: string, created: Option<string>)

  /** `created.split("T")[0]`: the date part of an ISO timestamp. */
  function DateKey(created: string): (k: string)
    ensures 'T' !in k
  {
    Split(created, 'T')[0]
  }

  /** The keys in the order the dict gains them: first appearance of each date. */
  function DateKeys(files: seq<FileInfo>): (keys: seq<string>)
  {
    if files == [] then []
    else
      var init := DateKeys(files[..|files| - 1]);
      var f := files[|files| - 1];
      if f.created.Some? && DateKey(f.created.value) !in init then init + [DateKey(f.created.value)] else init
  }

  /** The files with a `created` field whose date is `key`, in input order. */
  function GroupOf(files: seq<FileInfo>, key: string): (g: seq<FileInfo>)
    ensures |g| <= |files|
  {
    if files == [] then []
    else
      var f := files[|files| - 1];
      GroupOf(files[..|files| - 1], key) + if f.created.Some? && DateKey(f.created.value) == key then [f] else []
  }

  datatype Organized = Organized(groups: map<string, seq<FileInfo>>, order: seq<string>)

  /** `organize_by_date`: an empty list is refused; otherwise each dated file joins its date's group. */
  method OrganizeByDate(files: seq<FileInfo>) returns (r: Result<Organized, string>)
    ensures r.Err? <==> files == []
    ensures r.Ok? ==> && r.value.order == DateKeys(files)
                      && r.value.groups.Keys == set k | k in DateKeys(files)
                      && forall k :: k in r.value.groups ==> r.value.groups[k] == GroupOf(files, k)
  {
    if files == [] {
      return Err("No files provided");
    }
    var groups: map<string, seq<FileInfo>> := map[];
    var order: seq<string> := [];
    var i := 0;
    while i < |files|
      invariant 0 <= i <= |files|
      invariant order == DateKeys(files[..i])
      invariant forall k :: k in groups <==> k in order
      invariant forall k :: k in groups ==> groups[k] == GroupOf(files[..i], k)
    {
      var f := files[i];
      OrganizeStep(files, i);
      if f.created.Some? {
        var key := DateKey(f.created.value);
        if key !in groups {
          EmptyGroup(files[..i], key);
          groups := groups[key := [f]];
          order := order + [key];
        } else {
          groups := groups[key := groups[key] + [f]];
        }
      }
      i := i + 1;
    }
    assert files[..i] == files;
    assert groups.Keys == set k | k in order;
    r := Ok(Organized(groups, order));
  }

  /** One more file extends the key order and its date's group, and no other group. */
  lemma OrganizeStep(files: seq<FileInfo>, i: nat)
    requires i < |files|
    ensures var f := files[i];
            DateKeys(files[..i + 1]) ==
              if f.created.Some? && DateKey(f.created.value) !in DateKeys(files[..i])
              then DateKeys(files[..i]) + [DateKey(f.created.value)] else DateKeys(files[..i])
    ensures var f := files[i];
            forall k :: GroupOf(files[..i + 1], k) ==
              GroupOf(files[..i], k) + if f.created.Some? && DateKey(f.created.value) == k then [f] else []
  {
    assert files[..i + 1][..i] == files[..i];
  }

  /** A date that no earlier file had has an empty group so far. */
  lemma {:induction false} EmptyGroup(files: seq<FileInfo>, key: string)
    requires key !in DateKeys(files)
    ensures GroupOf(files, key) == []
    decreases |files|
  {
    if files != [] {
      EmptyGroup(files[..|files| - 1], key);
    }
  }

  /** A file is in the group of `key` exactly when it has a `created` field dated `key`. */
  lemma {:induction false} GroupMembers(files: seq<FileInfo>, key: string, f: FileInfo)
    ensures f in GroupOf(files, key) <==> f in files && f.created.Some? && DateKey(f.created.value) == key
    decreases |files|
  {
    if files != [] {
      var init := files[..|files| - 1];
      GroupMembers(init, key, f);
      assert files == init + [files[|files| - 1]];
    }
  }

  /** The dates that get a group are exactly the dates of the files with a `created` field, each once. */
  lemma {:induction false} DateKeysExact(files: seq<FileInfo>, key: string)
    ensures key in DateKeys(files) <==> exists f :: f in files && f.created.Some? && DateKey(f.created.value) == key
    ensures forall i, j :: 0 <= i < j < |DateKeys(files)| ==> DateKeys(files)[i] != DateKeys(files)[j]
    decreases |files|
  {
    if files != [] {
      var init := files[..|files| - 1];
      DateKeysExact(init, key);
      assert files == init + [files[|files| - 1]];
    }
  }

  /** The date key of an ISO timestamp is the text before its 'T'. */
  lemma DateKeyOfTimestamp(date: string, time: string)
    requires 'T' !in date
    ensures DateKey(date + ['T'] + time) == date
  {
    var parts := [date] + Split(time, 'T');
    SplitJoin(time, 'T');
    assert parts[1..] == Split(time, 'T');
    assert JoinWith(parts, 'T') == date + ['T'] + time;
    JoinSplit(parts, 'T');
  }
}
