/**
 * The Python string operations the server relies on, over `seq<char>`.
 * Case mapping is ASCII-only and therefore length preserving.
 */
module Strings {

  function LowerChar(c: char): char
  {
    if 'A' <= c <= 'Z' then (c as int + 32) as char else c
  }

  function UpperChar(c: char): char
  {
    if 'a' <= c <= 'z' then (c as int - 32) as char else c
  }

  /** `s.lower()` */
  function Lower(s: string): (r: string)
    ensures |r| == |s|
    ensures forall i :: 0 <= i < |s| ==> r[i] == LowerChar(s[i])
  {
    seq(|s|, i requires 0 <= i < |s| => LowerChar(s[i]))
  }

  /** `s.upper()` */
  function Upper(s: string): (r: string)
    ensures |r| == |s|
    ensures forall i :: 0 <= i < |s| ==> r[i] == UpperChar(s[i])
  {
    seq(|s|, i requires 0 <= i < |s| => UpperChar(s[i]))
  }

  /** Lower-casing commutes with slicing. */
  lemma LowerSlice(s: string, a: nat, b: nat)
    requires a <= b <= |s|
    ensures Lower(s[a..b]) == Lower(s)[a..b]
  {
  }

  lemma LowerIdempotent(s: string)
    ensures Lower(Lower(s)) == Lower(s)
  {
  }

  /** `t.startswith(p)` */
  predicate StartsWith<T(==)>(t: seq<T>, p: seq<T>)
  {
    |p| <= |t| && t[..|p|] == p
  }

  predicate OccursAt(t: string, p: string, i: int)
  {
    0 <= i && i + |p| <= |t| && t[i..i + |p|] == p
  }

  /** An occurrence survives cutting the text to any window around it, shifted by the cut. */
  lemma OccursInWindow(t: string, p: string, i: int, a: int, b: int)
    requires OccursAt(t, p, i) && 0 <= a <= i && i + |p| <= b <= |t|
    ensures OccursAt(t[a..b], p, i - a)
  {
    var u, v := t[a..b][i - a..i - a + |p|], t[i..i + |p|];
    forall k | 0 <= k < |p|
      ensures u[k] == v[k]
    {
    }
    assert u == v;
  }

  /** `p in t` for strings: `p` is a substring of `t`. */
  predicate Contains(t: string, p: string)
  {
    exists i :: 0 <= i <= |t| - |p| && OccursAt(t, p, i)
  }

  /** `t.find(p, k)`: the least index at or after `k` where `p` occurs, or -1. */
  function FindFrom(t: string, p: string, k: nat): (r: int)
    requires k <= |t|
    ensures r == -1 || (k <= r && OccursAt(t, p, r))
    ensures r == -1 ==> forall j :: k <= j <= |t| - |p| ==> !OccursAt(t, p, j)
    ensures r != -1 ==> forall j :: k <= j < r ==> !OccursAt(t, p, j)
    decreases |t| - k
  {
    if k + |p| > |t| then -1
    else if t[k..k + |p|] == p then k
    else FindFrom(t, p, k + 1)
  }

  /** `t.find(p)` */
  function Find(t: string, p: string): (r: int)
    ensures r == -1 <==> !Contains(t, p)
    ensures r != -1 ==> OccursAt(t, p, r) && forall j :: 0 <= j < r ==> !OccursAt(t, p, j)
  {
    FindFrom(t, p, 0)
  }

  /** `s.count(c)` for a single character. */
  function Count<T(==)>(s: seq<T>, c: T): (n: nat)
    ensures n <= |s|
  {
    if s == [] then 0 else (if s[0] == c then 1 else 0) + Count(s[1..], c)
  }

  lemma {:induction false} CountAppend<T>(a: seq<T>, b: seq<T>, c: T)
    ensures Count(a + b, c) == Count(a, c) + Count(b, c)
    decreases |a|
  {
    if a == [] {
      assert a + b == b;
    } else {
      assert (a + b)[1..] == a[1..] + b;
      CountAppend(a[1..], b, c);
    }
  }

  lemma {:induction false} CountZero<T>(s: seq<T>, c: T)
    requires c !in s
    ensures Count(s, c) == 0
    decreases |s|
  {
    if s != [] {
      CountZero(s[1..], c);
    }
  }

  /** `s.split(sep)` with an explicit single-character separator. */
  function Split<T(==)>(s: seq<T>, sep: T): (parts: seq<seq<T>>)
    ensures |parts| >= 1
    ensures forall i :: 0 <= i < |parts| ==> sep !in parts[i]
    decreases |s|
  {
    if s == [] then [[]]
    else
      var rest := Split(s[1..], sep);
      if s[0] == sep then [[]] + rest
      else [[s[0]] + rest[0]] + rest[1..]
  }

  /** The inverse of `Split`: `sep.join(parts)`. */
  function JoinWith<T>(parts: seq<seq<T>>, sep: T): seq<T>
    requires |parts| >= 1
    decreases |parts|
  {
    if |parts| == 1 then parts[0] else parts[0] + [sep] + JoinWith(parts[1..], sep)
  }

  lemma {:induction false} SplitJoin<T>(s: seq<T>, sep: T)
    ensures JoinWith(Split(s, sep), sep) == s
    decreases |s|
  {
    if s != [] {
      var rest := Split(s[1..], sep);
      SplitJoin(s[1..], sep);
      if s[0] == sep {
        assert Split(s, sep)[1..] == rest;
      } else {
        var parts := Split(s, sep);
        if |rest| == 1 {
          assert parts == [[s[0]] + rest[0]];
        } else {
          assert parts[1..] == rest[1..];
          assert JoinWith(rest, sep) == rest[0] + [sep] + JoinWith(rest[1..], sep);
        }
      }
    }
  }

  lemma {:induction false} JoinSplit<T>(parts: seq<seq<T>>, sep: T)
    requires |parts| >= 1
    requires forall i :: 0 <= i < |parts| ==> sep !in parts[i]
    ensures Split(JoinWith(parts, sep), sep) == parts
    decreases |parts|, |parts[0]|
  {
    var s := JoinWith(parts, sep);
    if parts[0] == [] {
      if |parts| > 1 {
        assert s == [sep] + JoinWith(parts[1..], sep);
        assert s[1..] == JoinWith(parts[1..], sep);
        JoinSplit(parts[1..], sep);
        assert [[]] + parts[1..] == parts;
      }
    } else {
      var tail := [parts[0][1..]] + parts[1..];
      assert tail[1..] == parts[1..];
      if |parts| == 1 {
        assert s == parts[0];
        assert s[1..] == JoinWith(tail, sep);
      } else {
        assert s[1..] == JoinWith(tail, sep);
      }
      assert parts[0][0] in parts[0];
      JoinSplit(tail, sep);
      assert [parts[0][0]] + parts[0][1..] == parts[0];
      assert [[s[0]] + tail[0]] + tail[1..] == parts;
    }
  }

  /** The concatenation of a sequence of strings: `''.join(parts)`. */
  function Concat(parts: seq<string>): (s: string)
  {
    if parts == [] then [] else parts[0] + Concat(parts[1..])
  }

  lemma {:induction false} ConcatAppend(a: seq<string>, b: seq<string>)
    ensures Concat(a + b) == Concat(a) + Concat(b)
    decreases |a|
  {
    if a == [] {
      assert a + b == b;
    } else {
      assert (a + b)[1..] == a[1..] + b;
      ConcatAppend(a[1..], b);
    }
  }

  /**
   * The lines Python yields when it iterates over a text file: every line
   * keeps its '\n', and only the last one may lack it.
   */
  function SplitLines(s: string): (lines: seq<string>)
    ensures lines == [] <==> s == []
    decreases |s|
  {
    if s == [] then []
    else
      var rest := SplitLines(s[1..]);
      if s[0] == '\n' || rest == [] then [[s[0]]] + rest
      else [[s[0]] + rest[0]] + rest[1..]
  }

  /** Each line is non-empty, ends with '\n' unless it is the last one, and has no other '\n'. */
  ghost predicate WellFormedLines(lines: seq<string>)
  {
    forall k :: 0 <= k < |lines| ==>
      lines[k] != [] &&
      '\n' !in lines[k][..|lines[k]| - 1] &&
      (k < |lines| - 1 ==> lines[k][|lines[k]| - 1] == '\n')
  }

  /** A one-character line in front keeps the lines well formed when it ends a line or is alone. */
  lemma PrependLine(c: char, rest: seq<string>)
    requires WellFormedLines(rest) && (c == '\n' || rest == [])
    ensures WellFormedLines([[c]] + rest)
  {
    var lines := [[c]] + rest;
    forall k | 0 <= k < |lines|
      ensures lines[k] != [] && '\n' !in lines[k][..|lines[k]| - 1]
      ensures k < |lines| - 1 ==> lines[k][|lines[k]| - 1] == '\n'
    {
      if k > 0 { assert lines[k] == rest[k - 1]; }
    }
  }

  /** A character other than '\n' put in front of the first line keeps the lines well formed. */
  lemma ExtendLine(c: char, rest: seq<string>)
    requires WellFormedLines(rest) && rest != [] && c != '\n'
    ensures WellFormedLines([[c] + rest[0]] + rest[1..])
  {
    var first := [c] + rest[0];
    var lines := [first] + rest[1..];
    assert first[..|first| - 1] == [c] + rest[0][..|rest[0]| - 1];
    forall k | 0 <= k < |lines|
      ensures lines[k] != [] && '\n' !in lines[k][..|lines[k]| - 1]
      ensures k < |lines| - 1 ==> lines[k][|lines[k]| - 1] == '\n'
    {
      if k > 0 { assert lines[k] == rest[k]; }
    }
  }

  /** Splitting into lines loses nothing and yields well-formed lines. */
  lemma {:induction false} SplitLinesSound(s: string)
    ensures Concat(SplitLines(s)) == s
    ensures WellFormedLines(SplitLines(s))
    decreases |s|
  {
    if s != [] {
      var rest := SplitLines(s[1..]);
      SplitLinesSound(s[1..]);
      var lines := SplitLines(s);
      if s[0] == '\n' || rest == [] {
        assert lines == [[s[0]]] + rest;
        ConcatAppend([[s[0]]], rest);
        PrependLine(s[0], rest);
      } else {
        var first := [s[0]] + rest[0];
        assert lines == [first] + rest[1..];
        assert Concat(rest) == rest[0] + Concat(rest[1..]);
        ConcatAppend([first], rest[1..]);
        ExtendLine(s[0], rest);
      }
    }
  }

  /** Lines that each end with their only '\n' hold one '\n' apiece. */
  lemma {:induction false} TerminatedLinesCount(lines: seq<string>)
    requires forall j :: 0 <= j < |lines| ==>
               lines[j] != [] && lines[j][|lines[j]| - 1] == '\n' && '\n' !in lines[j][..|lines[j]| - 1]
    ensures Count(Concat(lines), '\n') == |lines|
    decreases |lines|
  {
    if lines != [] {
      var l := lines[0];
      var body := l[..|l| - 1];
      assert l == body + ['\n'];
      CountAppend(body, ['\n'], '\n');
      CountZero(body, '\n');
      TerminatedLinesCount(lines[1..]);
      CountAppend(l, Concat(lines[1..]), '\n');
    }
  }

  /**
   * The first `k` lines, when more follow, join to a prefix of the text that
   * holds exactly `k` newlines.
   */
  lemma KeptLines(s: string, k: nat)
    requires k < |SplitLines(s)|
    ensures StartsWith(s, Concat(SplitLines(s)[..k]))
    ensures Count(Concat(SplitLines(s)[..k]), '\n') == k
  {
    var lines := SplitLines(s);
    SplitLinesSound(s);
    assert lines == lines[..k] + lines[k..];
    ConcatAppend(lines[..k], lines[k..]);
    var a, b := Concat(lines[..k]), Concat(lines[k..]);
    assert (a + b)[..|a|] == a;
    forall j | 0 <= j < k
      ensures lines[..k][j] == lines[j]
    {
    }
    TerminatedLinesCount(lines[..k]);
  }

  /** The number of lines Python counts: one per '\n', plus one for an unterminated last line. */
  lemma {:induction false} SplitLinesCount(s: string)
    ensures |SplitLines(s)| == Count(s, '\n') + (if s != [] && s[|s| - 1] != '\n' then 1 else 0)
    decreases |s|
  {
    if s != [] {
      SplitLinesCount(s[1..]);
      if s[1..] != [] {
        assert s[|s| - 1] == s[1..][|s[1..]| - 1];
      }
    }
  }

  /** The first lines when a one-character line was put in front. */
  lemma ConcatPrependedLines(c: char, rest: seq<string>, k: nat)
    requires k <= |rest|
    ensures Concat(([[c]] + rest)[..k + 1]) == [c] + Concat(rest[..k])
  {
    assert ([[c]] + rest)[..k + 1] == [[c]] + rest[..k];
  }

  /** The first lines when a character was put in front of the first line. */
  lemma ConcatExtendedLines(c: char, rest: seq<string>, k: nat)
    requires 0 < k <= |rest|
    ensures Concat(([[c] + rest[0]] + rest[1..])[..k]) == [c] + Concat(rest[..k])
  {
    assert ([[c] + rest[0]] + rest[1..])[..k] == [[c] + rest[0]] + rest[1..][..k - 1];
    assert rest[..k] == [rest[0]] + rest[1..][..k - 1];
  }

  /**
   * The index `i` of a character lies in line number `Count(s[..i], '\n')`
   * (counting from 0) of `SplitLines(s)`.
   */
  lemma {:induction false} LineOfIndex(s: string, i: nat)
    requires i < |s|
    ensures Count(s[..i], '\n') < |SplitLines(s)|
    ensures |Concat(SplitLines(s)[..Count(s[..i], '\n')])| <= i
    ensures i < |Concat(SplitLines(s)[..Count(s[..i], '\n') + 1])|
    decreases |s|
  {
    var rest := SplitLines(s[1..]);
    var lines := SplitLines(s);
    if i == 0 {
      assert s[..0] == [];
      assert lines[..0] == [];
      assert lines[..1] == [lines[0]];
      assert Concat(lines[..1]) == lines[0] + Concat([]);
    } else {
      LineOfIndex(s[1..], i - 1);
      var k := Count(s[1..][..i - 1], '\n');
      assert s[..i] == [s[0]] + s[1..][..i - 1];
      assert Count(s[..i], '\n') == (if s[0] == '\n' then 1 else 0) + k;
      if s[0] == '\n' {
        assert lines == [[s[0]]] + rest;
        ConcatPrependedLines(s[0], rest, k);
        ConcatPrependedLines(s[0], rest, k + 1);
      } else {
        assert lines == [[s[0]] + rest[0]] + rest[1..];
        if k == 0 {
          assert lines[..0] == [];
        } else {
          ConcatExtendedLines(s[0], rest, k);
        }
        ConcatExtendedLines(s[0], rest, k + 1);
      }
    }
  }

  /** `s.replace(a, b)` for single characters. */
  function ReplaceChar(s: string, a: char, b: char): (r: string)
    ensures |r| == |s|
    ensures forall i :: 0 <= i < |s| ==> r[i] == (if s[i] == a then b else s[i])
  {
    seq(|s|, i requires 0 <= i < |s| => if s[i] == a then b else s[i])
  }

  function DigitChar(d: nat): char
    requires d < 10
  {
    ('0' as int + d) as char
  }

  predicate AllDigits(s: string)
  {
    forall i :: 0 <= i < |s| ==> '0' <= s[i] <= '9'
  }

  /** The number a string of decimal digits denotes, most significant digit first. */
  function DecimalValue(s: string): nat
    requires AllDigits(s)
  {
    if s == [] then 0 else 10 * DecimalValue(s[..|s| - 1]) + (s[|s| - 1] as int - '0' as int)
  }

  /** `str(n)` for a natural number: the decimal digits of `n`, without leading zeros. */
  function NatToString(n: nat): (s: string)
    ensures |s| >= 1 && AllDigits(s)
    ensures DecimalValue(s) == n
    ensures s[0] == '0' ==> s == "0"
  {
    if n < 10 then [DigitChar(n)]
    else
      var s := NatToString(n / 10) + [DigitChar(n % 10)];
      assert s[..|s| - 1] == NatToString(n / 10);
      s
  }

  /** A string made of two pieces is free of a character that neither piece holds. */
  lemma CharFreeConcat(a: string, b: string, c: char)
    requires c !in a && c !in b
    ensures c !in a + b
  {
    forall i | 0 <= i < |a + b| ensures (a + b)[i] != c {
      if i < |a| { assert (a + b)[i] == a[i]; } else { assert (a + b)[i] == b[i - |a|]; }
    }
  }

  /** `str(n)` for an integer, with a leading '-' when it is negative. */
  function IntToString(n: int): (s: string)
    ensures s != [] && (s[0] == '-' <==> n < 0)
    ensures n < 0 ==> AllDigits(s[1..]) && DecimalValue(s[1..]) == -n
    ensures n >= 0 ==> AllDigits(s) && DecimalValue(s) == n
  {
    if n < 0 then "-" + NatToString(-n) else NatToString(n)
  }

  /** A formatted number is a single line. */
  lemma IntToStringSingleLine(n: int)
    ensures '\n' !in IntToString(n)
  {
    var s := IntToString(n);
    forall i | 0 <= i < |s| ensures s[i] != '\n' {
      if n < 0 && i > 0 { assert s[i] == s[1..][i - 1]; }
    }
  }
}
