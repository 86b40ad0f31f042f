/**
 * The POSIX flavour of Python's `os.path` helpers the server uses:
 * `basename`, `dirname`, `join` and `splitext`, with '/' as separator.
 */
module Paths {

  /** `s.rfind(c)`: the last index holding `c`, or -1. */
  function LastIndexOf(s: string, c: char): (r: int)
    ensures -1 <= r < |s|
    ensures r == -1 ==> c !in s
    ensures r >= 0 ==> s[r] == c && c !in s[r + 1..]
  {
    if s == [] then -1
    else if s[|s| - 1] == c then |s| - 1
    else
      var r := LastIndexOf(s[..|s| - 1], c);
      assert s[r + 1..] == s[..|s| - 1][r + 1..] + [s[|s| - 1]];
      r
  }

  /** `os.path.basename(p)`: everything after the last '/'. */
  function Basename(p: string): (b: string)
    ensures '/' !in b
    ensures |b| <= |p| && p[|p| - |b|..] == b
    ensures |b| == |p| || p[|p| - |b| - 1] == '/'
  {
    p[LastIndexOf(p, '/') + 1..]
  }

  /** `s.rstrip(c)` */
  function RStrip(s: string, c: char): (r: string)
    ensures |r| <= |s| && s[..|r|] == r
    ensures r == [] || r[|r| - 1] != c
    ensures forall i :: |r| <= i < |s| ==> s[i] == c
  {
    if s != [] && s[|s| - 1] == c then RStrip(s[..|s| - 1], c) else s
  }

  predicate AllSlashes(s: string)
  {
    forall i :: 0 <= i < |s| ==> s[i] == '/'
  }

  /**
   * `os.path.dirname(p)`: everything up to the last '/', with trailing
   * slashes removed unless the head is nothing but slashes.
   */
  function Dirname(p: string): (d: string)
    ensures |d| <= |p| && p[..|d|] == d
  {
    var head := p[..LastIndexOf(p, '/') + 1];
    if head != [] && !AllSlashes(head) then RStrip(head, '/') else head
  }

  /** `os.path.join(a, b)` for two components. */
  function Join(a: string, b: string): (r: string)
    ensures |b| > 0 && b[0] == '/' ==> r == b
    ensures !(|b| > 0 && b[0] == '/') ==> |r| >= |a| + |b| && r[..|a|] == a && r[|r| - |b|..] == b
  {
    if |b| > 0 && b[0] == '/' then b
    else if a == [] || a[|a| - 1] == '/' then a + b
    else a + "/" + b
  }

  /**
   * `os.path.splitext(p)`: the extension starts at the last '.', provided that
   * dot lies in the base name and a character other than '.' precedes it there.
   */
  function Splitext(p: string): (r: (string, string))
    ensures r.0 + r.1 == p
    ensures r.1 == [] || (r.1[0] == '.' && '.' !in r.1[1..] && '/' !in r.1)
  {
    var sep := LastIndexOf(p, '/');
    var dot := LastIndexOf(p, '.');
    if dot > sep && exists k :: sep < k < dot && p[k] != '.' then
      assert p[dot..][1..] == p[dot + 1..];
      (p[..dot], p[dot..])
    else
      (p, [])
  }

  /** Some '.' of the base name has a character other than '.' before it in the base name. */
  predicate ExtensionAfter(p: string)
  {
    exists k, i :: 0 <= k < i < |p| && p[i] == '.' && p[k] != '.' && '/' !in p[k..]
  }

  /** The test `splitext` makes on the last '/' and the last '.' is `ExtensionAfter`. */
  lemma SplitPoint(p: string)
    ensures var sep := LastIndexOf(p, '/');
            var dot := LastIndexOf(p, '.');
            (dot > sep && exists k :: sep < k < dot && p[k] != '.') <==> ExtensionAfter(p)
  {
    var sep := LastIndexOf(p, '/');
    var dot := LastIndexOf(p, '.');
    if ExtensionAfter(p) {
      var k, i :| 0 <= k < i < |p| && p[i] == '.' && p[k] != '.' && '/' !in p[k..];
      assert sep < k < dot && p[k] != '.';
    }
    if dot > sep && exists k :: sep < k < dot && p[k] != '.' {
      var k :| sep < k < dot && p[k] != '.';
      assert '/' !in p[k..] by {
        forall j | 0 <= j < |p[k..]| ensures p[k..][j] != '/' {
          if sep >= 0 {
            assert p[k..][j] == p[sep + 1..][k - sep - 1 + j];
          }
        }
      }
      assert p[dot] == '.';
    }
  }

  /** A path has an extension exactly when some base-name dot follows a character other than '.'. */
  lemma SplitextExtension(p: string)
    ensures Splitext(p).1 != [] <==> ExtensionAfter(p)
  {
    SplitPoint(p);
  }

  /** `os.path.splitext(p)[1]` */
  function Extension(p: string): string
  {
    Splitext(p).1
  }

  /** The base name without its extension: `os.path.splitext(os.path.basename(p))[0]`. */
  function Stem(p: string): (r: string)
    ensures |r| <= |Basename(p)| && Basename(p)[..|r|] == r
    ensures '/' !in r
  {
    var b := Basename(p);
    var parts := Splitext(b);
    PrefixOfSplit(parts.0, parts.1, b);
    parts.0
  }

  /** The front part of a split is a prefix of the whole, and free of '/' when the whole is. */
  lemma PrefixOfSplit(front: string, back: string, whole: string)
    requires front + back == whole
    ensures |front| <= |whole| && whole[..|front|] == front
    ensures '/' !in whole ==> '/' !in front
  {
    assert whole[..|front|] == front;
    if '/' in front {
      var k :| 0 <= k < |front| && front[k] == '/';
      assert whole[k] == '/';
    }
  }

  /** A path without a dot has no extension. */
  lemma DotlessHasNoExtension(p: string)
    requires '.' !in p
    ensures Extension(p) == []
  {
  }

  /** A base name whose only dot is its first character (`.bashrc`) has no extension. */
  lemma LeadingDotHasNoExtension(p: string)
    requires p != [] && p[0] == '.' && '.' !in p[1..] && '/' !in p
    ensures Extension(p) == []
  {
    assert p[1..] == p[0 + 1..];
  }

  /** A dot-free stem followed by `.ext` has the extension `.ext`. */
  lemma {:induction false} SimpleNameExtension(stem: string, ext: string)
    requires stem != [] && '.' !in stem && '/' !in stem
    requires ext != [] && ext[0] == '.' && '.' !in ext[1..] && '/' !in ext
    ensures Extension(stem + ext) == ext
    ensures Stem(stem + ext) == stem
  {
    var p := stem + ext;
    assert '/' !in p by {
      forall i | 0 <= i < |p| ensures p[i] != '/' {
        if i < |stem| { assert p[i] == stem[i]; } else { assert p[i] == ext[i - |stem|]; }
      }
    }
    var dot := LastIndexOf(p, '.');
    assert p[|stem|] == '.';
    assert dot == |stem| by {
      assert p[|stem| + 1..] == ext[1..];
      assert forall i :: 0 <= i < |stem| ==> p[i] == stem[i];
    }
    assert p[0] == stem[0];
    assert p[..dot] == stem && p[dot..] == ext;
    assert Splitext(p) == (stem, ext);
    SlashFreeBasename(p);
  }

  /** What `Dirname` can return: empty, all slashes, or not ending in a slash. */
  predicate DirShaped(d: string)
  {
    d == [] || AllSlashes(d) || d[|d| - 1] != '/'
  }

  lemma DirnameShaped(p: string)
    ensures DirShaped(Dirname(p))
  {
  }

  lemma {:induction false} SlashFreeBasename(b: string)
    requires '/' !in b
    ensures LastIndexOf(b, '/') == -1 && Basename(b) == b && Dirname(b) == []
  {
  }

  /**
   * Joining a directory name with a slash-free name and splitting the result
   * again gives back both parts.
   */
  lemma {:induction false} JoinSplitsBack(d: string, b: string)
    requires DirShaped(d) && '/' !in b
    ensures Dirname(Join(d, b)) == d
    ensures Basename(Join(d, b)) == b
  {
    var j := Join(d, b);
    if d == [] {
      assert j == b;
      SlashFreeBasename(b);
    } else if d[|d| - 1] == '/' {
      assert j == d + b;
      assert LastIndexOf(j, '/') == |d| - 1 by {
        assert j[|d| - 1] == '/';
        assert j[|d|..] == b;
      }
      assert j[..|d|] == d;
      assert j[|d|..] == b;
    } else {
      assert j == d + "/" + b;
      assert LastIndexOf(j, '/') == |d| by {
        assert j[|d|] == '/';
        assert j[|d| + 1..] == b;
      }
      var head := j[..|d| + 1];
      assert head == d + "/";
      assert !AllSlashes(head) by { assert head[|d| - 1] != '/'; }
      assert RStrip(head, '/') == d by {
        assert head[..|head| - 1] == d;
      }
      assert j[|d| + 1..] == b;
    }
  }
}
