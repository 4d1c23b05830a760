/**
 * The handful of java.lang.String and java.io text operations the string database relies on.
 * A Dafny `char` is a Unicode scalar value where Java counts UTF-16 code units; the two agree
 * on text inside the Basic Multilingual Plane.
 */
module JavaText {

  /** `s.indexOf(c, from)`: the first index at or after `from` holding `c`, or -1. */
  function IndexOf(s: string, c: char, from: nat): (r: int)
    decreases |s| - from
    ensures r == -1 || (from <= r < |s| && s[r] == c)
    ensures r == -1 ==> forall i :: from <= i < |s| ==> s[i] != c
    ensures r != -1 ==> forall i :: from <= i < r ==> s[i] != c
  {
    if from >= |s| then -1
    else if s[from] == c then from
    else IndexOf(s, c, from + 1)
  }

  /** `s.startsWith(p)`: case-sensitive. */
  predicate StartsWith(s: string, p: string) {
    |p| <= |s| && s[..|p|] == p
  }

  /** Lower-casing of one character; the ASCII letters are the only ones folded. */
  function LowerChar(c: char): char {
    if 'A' <= c <= 'Z' then (c as int + 32) as char else c
  }

  /** `s.toLowerCase()`, character by character. */
  function Lower(s: string): (r: string)
    ensures |r| == |s|
  {
    seq(|s|, i requires 0 <= i < |s| => LowerChar(s[i]))
  }

  lemma LowerPrefix(s: string, k: nat)
    requires k <= |s|
    ensures Lower(s[..k]) == Lower(s)[..k]
  {
  }

  predicate IsBreak(c: char) { c == '\r' || c == '\n' }

  predicate NoBreaks(s: string) { forall i :: 0 <= i < |s| ==> !IsBreak(s[i]) }

  /** The line separators a writer may be configured with. */
  predicate IsLineSeparator(sep: string) { sep == "\n" || sep == "\r\n" }

  /** The text a writer holds after appending each of `lines`, each followed by `sep`. */
  function Terminate(lines: seq<string>, sep: string): (t: string)
    ensures |t| >= |lines| * |sep|
  {
    if lines == [] then []
    else Terminate(lines[..|lines| - 1], sep) + lines[|lines| - 1] + sep
  }

  lemma TerminateSnoc(lines: seq<string>, w: string, sep: string)
    ensures Terminate(lines + [w], sep) == Terminate(lines, sep) + w + sep
  {
    assert (lines + [w])[..|lines|] == lines;
  }

  lemma {:induction false} TerminateCons(w: string, lines: seq<string>, sep: string)
    ensures Terminate([w] + lines, sep) == w + sep + Terminate(lines, sep)
    decreases |lines|
  {
    if lines == [] {
      assert [w] + lines == [] + [w];
      TerminateSnoc([], w, sep);
    } else {
      var init, last := lines[..|lines| - 1], lines[|lines| - 1];
      assert lines == init + [last];
      assert [w] + lines == ([w] + init) + [last];
      TerminateSnoc([w] + init, last, sep);
      TerminateCons(w, init, sep);
      TerminateSnoc(init, last, sep);
    }
  }

  /** Index of the first line terminator at or after `from`, or |t| when there is none. */
  function LineEnd(t: string, from: nat): (k: nat)
    requires from <= |t|
    decreases |t| - from
    ensures from <= k <= |t|
    ensures forall i :: from <= i < k ==> !IsBreak(t[i])
    ensures k < |t| ==> IsBreak(t[k])
  {
    if from == |t| || IsBreak(t[from]) then from else LineEnd(t, from + 1)
  }

  /**
   * The lines `BufferedReader.readLine` returns for the text `t`, up to the null that ends it:
   * a line ends at "\n", at "\r" or at "\r\n", and a last line without terminator still counts.
   */
  function ReadLines(t: string): (lines: seq<string>)
    decreases |t|
  {
    if t == [] then []
    else
      var k := LineEnd(t, 0);
      if k == |t| then [t]
      else if t[k] == '\r' && k + 1 < |t| && t[k + 1] == '\n' then [t[..k]] + ReadLines(t[k + 2..])
      else [t[..k]] + ReadLines(t[k + 1..])
  }

  /** Reading back what a writer wrote line by line gives the lines that were written. */
  lemma {:induction false} ReadLinesTerminate(lines: seq<string>, sep: string)
    requires IsLineSeparator(sep)
    requires forall i :: 0 <= i < |lines| ==> NoBreaks(lines[i])
    ensures ReadLines(Terminate(lines, sep)) == lines
    decreases |lines|
  {
    if lines != [] {
      var w, rest := lines[0], lines[1..];
      assert lines == [w] + rest;
      TerminateCons(w, rest, sep);
      var t := Terminate(lines, sep);
      var tail := Terminate(rest, sep);
      assert t == w + sep + tail;
      assert forall i :: 0 <= i < |w| ==> t[i] == w[i];
      assert t[|w|] == sep[0];
      assert LineEnd(t, 0) == |w|;
      if sep == "\r\n" {
        assert t[..|w|] == w;
        assert t[|w| + 2..] == tail;
      } else {
        assert t[..|w|] == w;
        assert t[|w| + 1..] == tail;
      }
      ReadLinesTerminate(rest, sep);
    }
  }

  /** `a.compareTo(b) <= 0`: lexicographic order on characters, a proper prefix first. */
  predicate LexLe(a: string, b: string)
    decreases |a|
  {
    a == [] || (b != [] && (a[0] < b[0] || (a[0] == b[0] && LexLe(a[1..], b[1..]))))
  }

  /** A string that sorts between two strings sharing their first n characters shares them too. */
  lemma {:induction false} SharedPrefixBetween(a: string, b: string, c: string, n: nat)
    requires LexLe(a, b) && LexLe(b, c)
    requires n <= |a| && n <= |b| && n <= |c|
    requires a[..n] == c[..n]
    ensures b[..n] == a[..n]
    decreases n
  {
    if n > 0 {
      assert a[0] == a[..n][0] == c[..n][0] == c[0];
      assert a[0] == b[0];
      assert a[1..][..n - 1] == a[..n][1..];
      assert c[1..][..n - 1] == c[..n][1..];
      SharedPrefixBetween(a[1..], b[1..], c[1..], n - 1);
      assert b[..n] == [b[0]] + b[1..][..n - 1];
      assert a[..n] == [a[0]] + a[1..][..n - 1];
    }
  }
}
