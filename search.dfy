/**
 * `scan_directory`, `search_files` and `search_file_contents` over a given
 * directory enumeration. The enumeration is the sequence of entries the walk
 * yields, in walk order: for a recursive walk the file names of every
 * directory, one directory after the other; for a flat walk the items of the
 * one directory, each marked whether it is a regular file.
 */
module Search {
  import opened Wrappers
  import opened Strings
  import opened Paths
  import opened FileTypes
  import opened Metadata

  /** One enumerated item; `content` is `None` when the file cannot be opened as text. */
  datatype Entry = Entry(path: string, name: string, isFile: bool, content: Option<string>)

  /** The part of a metadata record this model keeps (sizes and timestamps are not modelled). */
  datatype FileRecord = FileRecord(path: string, name: string, category: Category, preview: PreviewField)

  /** Where a content search found the query first. */
  datatype MatchRecord = MatchRecord(context: string, line: nat)

  datatype ContentHit = ContentHit(file: FileRecord, found: MatchRecord)

  const ContextRadius: nat := 50

  /** `get_file_metadata` for an enumerated file. */
  function MetadataOf(e: Entry, guess: MimeGuess): (r: FileRecord)
    ensures r.path == e.path
    ensures r.preview.NoPreview? <==> !HasPreview(e.path, guess(e.path))
    ensures r.preview.PreviewError? <==> HasPreview(e.path, guess(e.path)) && e.content.None?
    ensures r.preview.Preview? ==> e.content.Some? && r.preview.text == PreviewText(e.content.value)
  {
    var name := Basename(e.path);
    var mime := guess(e.path);
    FileRecord(e.path, name, GetFileType(e.path, mime), PreviewOf(e.path, mime, e.content))
  }

  /**
   * What each field of the record is: the last component of the path, the
   * category `get_file_type` gives the path and its guessed type, and the
   * preview of the content, whose line count is that of the whole content.
   */
  lemma MetadataFields(e: Entry, guess: MimeGuess)
    ensures var r := MetadataOf(e, guess);
            && r.name == Basename(e.path)
            && r.category == GetFileType(e.path, guess(e.path))
            && r.preview == PreviewOf(e.path, guess(e.path), e.content)
            && (r.preview.Preview? ==> e.content.Some? && r.preview.lineCount == |SplitLines(e.content.value)|)
  {
  }

  /** The record's name is the last component of its path. */
  lemma MetadataName(e: Entry, guess: MimeGuess)
    ensures var n := MetadataOf(e, guess).name;
            '/' !in n && |n| <= |e.path| && e.path[|e.path| - |n|..] == n
  {
    var b := Basename(e.path);
    assert MetadataOf(e, guess).name == b;
  }

  /** A recursive walk reports only files; a flat listing keeps the regular files. */
  predicate Enumerated(e: Entry, recursive: bool)
  {
    recursive || e.isFile
  }

  /** `file_types is None or file_type in file_types` */
  predicate TypeAllowed(c: Category, types: Option<set<Category>>)
  {
    types.None? || c in types.value
  }

  /** The results a loop over `walk` accumulates when `pick` says what each entry contributes. */
  function Collect<T>(walk: seq<Entry>, pick: Entry -> Option<T>): (r: seq<T>)
    ensures |r| <= |walk|
  {
    if walk == [] then []
    else
      var last := pick(walk[|walk| - 1]);
      Collect(walk[..|walk| - 1], pick) + (if last.Some? then [last.value] else [])
  }

  /** Collecting over two consecutive stretches of the walk: results keep walk order. */
  lemma {:induction false} CollectAppend<T>(a: seq<Entry>, b: seq<Entry>, pick: Entry -> Option<T>)
    ensures Collect(a + b, pick) == Collect(a, pick) + Collect(b, pick)
    decreases |b|
  {
    if b == [] {
      assert a + b == a;
    } else {
      assert (a + b)[..|a + b| - 1] == a + b[..|b| - 1];
      CollectAppend(a, b[..|b| - 1], pick);
    }
  }

  /** A result is collected exactly when some entry of the walk contributes it. */
  lemma {:induction false} CollectMembers<T>(walk: seq<Entry>, pick: Entry -> Option<T>, x: T)
    ensures x in Collect(walk, pick) <==> exists i :: 0 <= i < |walk| && pick(walk[i]) == Some(x)
    decreases |walk|
  {
    if walk != [] {
      var init := walk[..|walk| - 1];
      CollectMembers(init, pick, x);
      if exists i :: 0 <= i < |walk| && pick(walk[i]) == Some(x) {
        var i :| 0 <= i < |walk| && pick(walk[i]) == Some(x);
        if i < |walk| - 1 { assert init[i] == walk[i]; }
      }
      if exists i :: 0 <= i < |init| && pick(init[i]) == Some(x) {
        var i :| 0 <= i < |init| && pick(init[i]) == Some(x);
        assert walk[i] == init[i];
      }
    }
  }

  /** Two picks that agree on every entry collect the same results. */
  lemma {:induction false} CollectAgree<T>(walk: seq<Entry>, f: Entry -> Option<T>, g: Entry -> Option<T>)
    requires forall i :: 0 <= i < |walk| ==> f(walk[i]) == g(walk[i])
    ensures Collect(walk, f) == Collect(walk, g)
    decreases |walk|
  {
    if walk != [] {
      CollectAgree(walk[..|walk| - 1], f, g);
    }
  }

  /** A pick that never contributes collects nothing. */
  lemma {:induction false} CollectNothing<T>(walk: seq<Entry>, pick: Entry -> Option<T>)
    requires forall i :: 0 <= i < |walk| ==> pick(walk[i]).None?
    ensures Collect(walk, pick) == []
    decreases |walk|
  {
    if walk != [] {
      CollectNothing(walk[..|walk| - 1], pick);
    }
  }

  /** One more entry of the walk adds what it contributes at the end. */
  lemma CollectStep<T>(walk: seq<Entry>, i: nat, pick: Entry -> Option<T>)
    requires i < |walk|
    ensures Collect(walk[..i + 1], pick) == Collect(walk[..i], pick) + (if pick(walk[i]).Some? then [pick(walk[i]).value] else [])
  {
    assert walk[..i + 1][..i] == walk[..i];
  }

  /**
   * A loop that stops once `cap` results are collected: what it has after `i`
   * entries is the first `cap` results of the whole walk.
   */
  lemma CollectPrefix<T>(walk: seq<Entry>, i: nat, pick: Entry -> Option<T>, cap: nat)
    requires i <= |walk| && |Collect(walk[..i], pick)| <= cap
    requires i < |walk| ==> |Collect(walk[..i], pick)| == cap
    ensures var all := Collect(walk, pick);
            Collect(walk[..i], pick) == all[..Min(|all|, cap)]
  {
    CollectAppend(walk[..i], walk[i..], pick);
    assert walk[..i] + walk[i..] == walk;
    if i == |walk| {
      assert walk[..i] == walk;
    }
  }

  // ---------------------------------------------------------------- scan_directory

  predicate ScanSelects(e: Entry, recursive: bool, types: Option<set<Category>>, guess: MimeGuess)
  {
    Enumerated(e, recursive) && TypeAllowed(GetFileType(e.path, guess(e.path)), types)
  }

  function ScanPick(recursive: bool, types: Option<set<Category>>, guess: MimeGuess): Entry -> Option<FileRecord>
  {
    (e: Entry) => if ScanSelects(e, recursive, types, guess) then Some(MetadataOf(e, guess)) else None
  }

  /** `scan_directory`: the metadata of every enumerated file whose type passes the filter. */
  method ScanDirectory(walk: seq<Entry>, recursive: bool, types: Option<set<Category>>, guess: MimeGuess)
    returns (results: seq<FileRecord>)
    ensures results == Collect(walk, ScanPick(recursive, types, guess))
  {
    ghost var pick := ScanPick(recursive, types, guess);
    results := [];
    var i := 0;
    while i < |walk|
      invariant 0 <= i <= |walk|
      invariant results == Collect(walk[..i], pick)
    {
      var e := walk[i];
      CollectStep(walk, i, pick);
      if ScanSelects(e, recursive, types, guess) {
        results := results + [MetadataOf(e, guess)];
      }
      i := i + 1;
    }
    assert walk[..i] == walk;
  }

  /** Every scan result is an enumerated file of an allowed type, and every such file is reported. */
  lemma ScanSound(walk: seq<Entry>, recursive: bool, types: Option<set<Category>>, guess: MimeGuess, r: FileRecord)
    ensures r in Collect(walk, ScanPick(recursive, types, guess)) <==>
      exists i :: 0 <= i < |walk| && ScanSelects(walk[i], recursive, types, guess) && r == MetadataOf(walk[i], guess)
    ensures r in Collect(walk, ScanPick(recursive, types, guess)) ==> TypeAllowed(r.category, types)
  {
    var pick := ScanPick(recursive, types, guess);
    CollectMembers(walk, pick, r);
    forall i | 0 <= i < |walk|
      ensures pick(walk[i]) == Some(r) <==> ScanSelects(walk[i], recursive, types, guess) && r == MetadataOf(walk[i], guess)
    {
      ScanPickSome(walk[i], recursive, types, guess, r);
    }
  }

  /** What one entry contributes to a scan. */
  lemma ScanPickSome(e: Entry, recursive: bool, types: Option<set<Category>>, guess: MimeGuess, r: FileRecord)
    ensures ScanPick(recursive, types, guess)(e) == Some(r) <==> ScanSelects(e, recursive, types, guess) && r == MetadataOf(e, guess)
    ensures ScanPick(recursive, types, guess)(e) == Some(r) ==> TypeAllowed(r.category, types)
  {
  }

  /** Without a filter, a recursive scan reports every entry of the walk. */
  lemma {:induction false} UnfilteredRecursiveScanIsComplete(walk: seq<Entry>, guess: MimeGuess)
    ensures |Collect(walk, ScanPick(true, None, guess))| == |walk|
    decreases |walk|
  {
    if walk != [] {
      UnfilteredRecursiveScanIsComplete(walk[..|walk| - 1], guess);
    }
  }

  /** An empty list of types (as opposed to no list) selects nothing. */
  lemma EmptyFilterSelectsNothing(walk: seq<Entry>, recursive: bool, guess: MimeGuess)
    ensures Collect(walk, ScanPick(recursive, Some({}), guess)) == []
    ensures Collect(walk, NamePick([], recursive, Some({}), guess)) == []
  {
    CollectNothing(walk, ScanPick(recursive, Some({}), guess));
    CollectNothing(walk, NamePick([], recursive, Some({}), guess));
  }

  // ---------------------------------------------------------------- search_files

  /** The name test of `search_files`: the lower-cased query occurs in the lower-cased entry name. */
  predicate NameMatches(name: string, query: string)
    ensures query == [] ==> NameMatches(name, query)
    ensures Lower(query) == Lower(name) ==> NameMatches(name, query)
    ensures NameMatches(name, query) ==> |query| <= |name|
  {
    assert OccursAt(Lower(name), Lower(query), 0) <== Lower(query) == Lower(name) || query == [];
    Contains(Lower(name), Lower(query))
  }

  function NamePick(query: string, recursive: bool, types: Option<set<Category>>, guess: MimeGuess): Entry -> Option<FileRecord>
  {
    (e: Entry) => if NameMatches(e.name, query) && ScanSelects(e, recursive, types, guess) then Some(MetadataOf(e, guess)) else None
  }

  /** `search_files`: the scan results whose name contains the query, ignoring case. */
  method SearchFiles(walk: seq<Entry>, query: string, recursive: bool, types: Option<set<Category>>, guess: MimeGuess)
    returns (results: seq<FileRecord>)
    ensures results == Collect(walk, NamePick(query, recursive, types, guess))
  {
    ghost var pick := NamePick(query, recursive, types, guess);
    results := [];
    var lowered := Lower(query);
    var i := 0;
    while i < |walk|
      invariant 0 <= i <= |walk|
      invariant results == Collect(walk[..i], pick)
    {
      var e := walk[i];
      CollectStep(walk, i, pick);
      if Contains(Lower(e.name), lowered) && ScanSelects(e, recursive, types, guess) {
        results := results + [MetadataOf(e, guess)];
      }
      i := i + 1;
    }
    assert walk[..i] == walk;
  }

  /** The name search is a case-insensitive substring test: `TEST` and `test` find the same files. */
  lemma SearchIgnoresCase(walk: seq<Entry>, q1: string, q2: string, recursive: bool, types: Option<set<Category>>, guess: MimeGuess)
    requires Lower(q1) == Lower(q2)
    ensures Collect(walk, NamePick(q1, recursive, types, guess)) == Collect(walk, NamePick(q2, recursive, types, guess))
  {
    CollectAgree(walk, NamePick(q1, recursive, types, guess), NamePick(q2, recursive, types, guess));
  }

  /** An entry the name search keeps is one the scan keeps, with the same record. */
  lemma NameHitIsScanHit(e: Entry, query: string, recursive: bool, types: Option<set<Category>>, guess: MimeGuess)
    requires NamePick(query, recursive, types, guess)(e).Some?
    ensures NameMatches(e.name, query)
    ensures ScanPick(recursive, types, guess)(e) == NamePick(query, recursive, types, guess)(e) == Some(MetadataOf(e, guess))
  {
  }

  /** Every name-search result is also a scan result, and its name contains the query. */
  lemma SearchWithinScan(walk: seq<Entry>, query: string, recursive: bool, types: Option<set<Category>>, guess: MimeGuess, r: FileRecord)
    requires r in Collect(walk, NamePick(query, recursive, types, guess))
    ensures r in Collect(walk, ScanPick(recursive, types, guess))
    ensures exists e :: e in walk && NameMatches(e.name, query) && r == MetadataOf(e, guess)
  {
    var name, scan := NamePick(query, recursive, types, guess), ScanPick(recursive, types, guess);
    CollectMembers(walk, name, r);
    var i :| 0 <= i < |walk| && name(walk[i]) == Some(r);
    NameHitIsScanHit(walk[i], query, recursive, types, guess);
    CollectMembers(walk, scan, r);
    assert walk[i] in walk;
  }

  /** The empty query matches every name, so the search degenerates to the scan. */
  lemma EmptyQueryIsScan(walk: seq<Entry>, recursive: bool, types: Option<set<Category>>, guess: MimeGuess)
    ensures Collect(walk, NamePick([], recursive, types, guess)) == Collect(walk, ScanPick(recursive, types, guess))
  {
    forall i | 0 <= i < |walk|
      ensures NamePick([], recursive, types, guess)(walk[i]) == ScanPick(recursive, types, guess)(walk[i])
    {
      assert OccursAt(Lower(walk[i].name), Lower([]), 0);
    }
    CollectAgree(walk, NamePick([], recursive, types, guess), ScanPick(recursive, types, guess));
  }

  // ---------------------------------------------------------------- search_file_contents

  /** The candidates of a content search: allowed type, and a textual type or a text extension. */
  predicate Searchable(e: Entry, recursive: bool, types: Option<set<Category>>, guess: MimeGuess)
    ensures Searchable(e, recursive, types, guess) ==> ScanSelects(e, recursive, types, guess)
    ensures ScanSelects(e, recursive, types, guess) && Lower(Extension(e.path)) in TextExtensions ==>
              Searchable(e, recursive, types, guess)
  {
    var c := GetFileType(e.path, guess(e.path));
    Enumerated(e, recursive) && TypeAllowed(c, types) && (IsTextual(c) || Lower(Extension(e.path)) in TextExtensions)
  }

  function Max(a: int, b: int): int { if a < b then b else a }
  function Min(a: int, b: int): int { if a < b then a else b }

  /**
   * The match record for the first case-insensitive occurrence of `query` in
   * `content`: up to 50 characters either side, and its 1-based line number.
   */
  function MatchIn(content: string, query: string): (r: Option<MatchRecord>)
    ensures r.Some? <==> Contains(Lower(content), Lower(query))
    ensures r.Some? ==> |r.value.context| <= |query| + 2 * ContextRadius && r.value.line >= 1
  {
    var lc := Lower(content);
    var lq := Lower(query);
    if !Contains(lc, lq) then None
    else
      var index := Find(lc, lq);
      var start := Max(0, index - ContextRadius);
      var end := Min(|content|, index + |lq| + ContextRadius);
      Some(MatchRecord(content[start..end], Count(content[..index], '\n') + 1))
  }

  /**
   * The context window holds the first occurrence, cut at most 50 characters
   * before it and after it, and `line` is one more than the newlines before it.
   */
  lemma MatchWindow(content: string, query: string)
    requires Contains(Lower(content), Lower(query))
    ensures var i := Find(Lower(content), Lower(query));
            var start := Max(0, i - ContextRadius);
            var m := MatchIn(content, query).value;
            && 0 <= start <= i && i - start <= ContextRadius
            && i + |query| <= start + |m.context| <= |content|
            && start + |m.context| - (i + |query|) <= ContextRadius
            && m.context == content[start..start + |m.context|]
            && OccursAt(Lower(m.context), Lower(query), i - start)
            && (forall j :: 0 <= j < i ==> !OccursAt(Lower(content), Lower(query), j))
            && m.line == Count(content[..i], '\n') + 1
  {
    var lc, lq := Lower(content), Lower(query);
    var i := Find(lc, lq);
    var start := Max(0, i - ContextRadius);
    var end := Min(|content|, i + |query| + ContextRadius);
    var w := content[start..end];
    MatchInValue(content, query);
    assert MatchIn(content, query).value.context == w;
    WindowOccurrence(content, lq, i, start, end);
  }

  /** Cutting the text to a window around an occurrence of a lower-cased query keeps it, shifted. */
  lemma WindowOccurrence(content: string, lq: string, i: int, start: int, end: int)
    requires OccursAt(Lower(content), lq, i) && 0 <= start <= i && i + |lq| <= end <= |content|
    ensures OccursAt(Lower(content[start..end]), lq, i - start)
  {
    LowerSlice(content, start, end);
    OccursInWindow(Lower(content), lq, i, start, end);
  }

  /** The record `MatchIn` builds around the first occurrence. */
  lemma MatchInValue(content: string, query: string)
    requires Contains(Lower(content), Lower(query))
    ensures var i := Find(Lower(content), Lower(query));
            var start := Max(0, i - ContextRadius);
            var end := Min(|content|, i + |query| + ContextRadius);
            MatchIn(content, query) == Some(MatchRecord(content[start..end], Count(content[..i], '\n') + 1))
  {
  }

  /** The reported line is the line of the file (as Python iterates them) in which the match starts. */
  lemma MatchLine(content: string, query: string)
    requires Contains(Lower(content), Lower(query))
    requires Find(Lower(content), Lower(query)) < |content|
    ensures var i := Find(Lower(content), Lower(query));
            var n := MatchIn(content, query).value.line;
            && n <= |SplitLines(content)|
            && |Concat(SplitLines(content)[..n - 1])| <= i < |Concat(SplitLines(content)[..n])|
  {
    LineOfIndex(content, Find(Lower(content), Lower(query)));
  }

  /** On a short single-line file, the context is the whole file and the line is 1. */
  lemma ShortLineMatch(content: string, query: string)
    requires Contains(Lower(content), Lower(query))
    requires |content| <= ContextRadius && '\n' !in content
    ensures MatchIn(content, query) == Some(MatchRecord(content, 1))
  {
    var i := Find(Lower(content), Lower(query));
    assert '\n' !in content[..i] by {
      assert forall k :: 0 <= k < i ==> content[..i][k] == content[k];
    }
    CountZero(content[..i], '\n');
    assert content[0..|content|] == content;
  }

  /** The work on one file: the hit it gives when it is searchable, readable and holds the query. */
  function HitOf(e: Entry, query: string, recursive: bool, types: Option<set<Category>>, guess: MimeGuess): Option<ContentHit>
  {
    if Searchable(e, recursive, types, guess) && e.content.Some? then
      var found := MatchIn(e.content.value, query);
      if found.Some? then Some(ContentHit(MetadataOf(e, guess), found.value)) else None
    else None
  }

  function HitPick(query: string, recursive: bool, types: Option<set<Category>>, guess: MimeGuess): Entry -> Option<ContentHit>
  {
    (e: Entry) => HitOf(e, query, recursive, types, guess)
  }

  /** `max_results` as a bound: a negative limit stops the search before the first file. */
  function Cap(maxResults: int): nat
  {
    if maxResults < 0 then 0 else maxResults
  }

  /**
   * The loop of `search_file_contents`: entries are examined in walk order,
   * what `pick` yields for each is kept, and the loop stops before the next
   * entry once `maxResults` results are kept. `scanned` is how many entries
   * were examined: the loop stops as soon as the cap is reached and never
   * before.
   */
  method CappedCollect<T>(walk: seq<Entry>, pick: Entry -> Option<T>, maxResults: int)
    returns (results: seq<T>, ghost scanned: nat)
    ensures var all := Collect(walk, pick);
            results == all[..Min(|all|, Cap(maxResults))]
    ensures |results| <= Cap(maxResults)
    ensures scanned <= |walk| && results == Collect(walk[..scanned], pick)
    ensures scanned < |walk| ==> |results| == Cap(maxResults)
    ensures scanned > 0 ==> |Collect(walk[..scanned - 1], pick)| < Cap(maxResults)
  {
    results := [];
    var count := 0;
    var i := 0;
    ghost var before := 0;  // how many results there were before the last entry examined
    while i < |walk|
      invariant 0 <= i <= |walk|
      invariant results == Collect(walk[..i], pick)
      invariant count == |results| <= Cap(maxResults)
      invariant i > 0 ==> before == |Collect(walk[..i - 1], pick)| < Cap(maxResults)
    {
      if count >= maxResults {
        break;
      }
      before := count;
      CollectStep(walk, i, pick);
      var hit := pick(walk[i]);
      if hit.Some? {
        results := results + [hit.value];
        count := count + 1;
      }
      i := i + 1;
    }
    scanned := i;
    CollectPrefix(walk, i, pick, Cap(maxResults));
  }

  /** `search_file_contents`: the first `Cap(maxResults)` content hits in walk order. */
  method SearchFileContents(walk: seq<Entry>, query: string, recursive: bool, types: Option<set<Category>>,
                            maxResults: int, guess: MimeGuess)
    returns (results: seq<ContentHit>, ghost scanned: nat)
    ensures var all := Collect(walk, HitPick(query, recursive, types, guess));
            results == all[..Min(|all|, Cap(maxResults))]
    ensures scanned <= |walk| && results == Collect(walk[..scanned], HitPick(query, recursive, types, guess))
    ensures scanned < |walk| ==> |results| == Cap(maxResults)
  {
    results, scanned := CappedCollect(walk, HitPick(query, recursive, types, guess), maxResults);
  }

  /** What the content search records for an entry it keeps. */
  lemma HitFacts(e: Entry, query: string, recursive: bool, types: Option<set<Category>>, guess: MimeGuess)
    requires HitPick(query, recursive, types, guess)(e).Some?
    ensures Searchable(e, recursive, types, guess) && e.content.Some?
    ensures Contains(Lower(e.content.value), Lower(query))
    ensures HitPick(query, recursive, types, guess)(e).value == ContentHit(MetadataOf(e, guess), MatchIn(e.content.value, query).value)
  {
  }

  /** A content hit comes from a searchable entry whose content contains the query, ignoring case. */
  lemma HitSound(walk: seq<Entry>, query: string, recursive: bool, types: Option<set<Category>>, guess: MimeGuess, h: ContentHit)
    requires h in Collect(walk, HitPick(query, recursive, types, guess))
    ensures exists e :: e in walk && Searchable(e, recursive, types, guess)
                        && e.content.Some? && Contains(Lower(e.content.value), Lower(query))
                        && h == ContentHit(MetadataOf(e, guess), MatchIn(e.content.value, query).value)
  {
    var hit := HitPick(query, recursive, types, guess);
    CollectMembers(walk, hit, h);
    var i :| 0 <= i < |walk| && hit(walk[i]) == Some(h);
    HitFacts(walk[i], query, recursive, types, guess);
    assert walk[i] in walk;
  }

  /** A `.json` file is searched although its type is `Data`: the extension allow-list admits it. */
  lemma JsonIsSearchable(e: Entry, recursive: bool, guess: MimeGuess)
    requires Enumerated(e, recursive)
    requires Lower(Extension(e.path)) == ".json"
    ensures Searchable(e, recursive, None, guess)
  {
  }
}
