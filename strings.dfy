/**
 * The Python 2 string and path primitives the hooks rely on, on `string`
 * (a sequence of characters; the hooks handle byte strings, one character
 * per byte).
 */
module Strings {

  /** The characters Python 2's `str.split()` and `str.strip()` treat as whitespace. */
  const Whitespace: set<char> := {' ', '\t', '\n', '\r', 11 as char, 12 as char}

  /** The characters at which Python 2's `str.splitlines()` breaks a line. */
  const LineBreaks: set<char> := {'\n', '\r'}

  predicate StartsWith<T(==)>(s: seq<T>, prefix: seq<T>) {
    |prefix| <= |s| && s[..|prefix|] == prefix
  }

  predicate EndsWith<T(==)>(s: seq<T>, suffix: seq<T>) {
    |suffix| <= |s| && s[|s| - |suffix|..] == suffix
  }

  /** No character of `s` belongs to `cs`. */
  predicate NoneIn(s: string, cs: set<char>) {
    forall k :: 0 <= k < |s| ==> s[k] !in cs
  }

  /** Position of the first character of `s` that belongs to `cs`, or `|s|` when there is none. */
  function FirstIn(s: string, cs: set<char>): (n: nat)
    ensures n <= |s|
    ensures NoneIn(s[..n], cs)
    ensures n < |s| ==> s[n] in cs
  {
    if s == [] then 0
    else if s[0] in cs then 0
    else 1 + FirstIn(s[1..], cs)
  }

  /** `FirstIn` is the one position before which no character of `cs` occurs and at which one does (or the end). */
  lemma {:induction false} FirstInAt(s: string, cs: set<char>, n: nat)
    requires n <= |s|
    requires NoneIn(s[..n], cs)
    requires n < |s| ==> s[n] in cs
    ensures FirstIn(s, cs) == n
  {
    if n > 0 {
      assert s[..n][0] == s[0];
      assert s[1..][..n - 1] == s[..n][1..];
      FirstInAt(s[1..], cs, n - 1);
    } else if s != [] {
      assert s[0] in cs;
    }
  }

  /** Python's `sep.join(parts)` for a one-character separator. */
  function Join(parts: seq<string>, sep: char): string
  {
    if |parts| == 0 then ""
    else if |parts| == 1 then parts[0]
    else parts[0] + [sep] + Join(parts[1..], sep)
  }

  /** Joining two non-empty lists is joining each and putting one separator between them. */
  lemma {:induction false} JoinAppend(a: seq<string>, b: seq<string>, sep: char)
    requires a != [] && b != []
    ensures Join(a + b, sep) == Join(a, sep) + [sep] + Join(b, sep)
  {
    if |a| == 1 {
      assert (a + b)[1..] == b;
    } else {
      assert (a + b)[1..] == a[1..] + b;
      JoinAppend(a[1..], b, sep);
    }
  }

  /** Python's `s.split(sep)` for a one-character separator: the pieces between separators, empty pieces kept. */
  function Split(s: string, sep: char): (parts: seq<string>)
    ensures |parts| >= 1
    ensures forall i :: 0 <= i < |parts| ==> sep !in parts[i]
    ensures Join(parts, sep) == s
    decreases |s|
  {
    var i := FirstIn(s, {sep});
    if i == |s| then
      assert s[..i] == s;
      [s]
    else
      var rest := Split(s[i + 1..], sep);
      assert ([s[..i]] + rest)[1..] == rest;
      assert s == s[..i] + [sep] + s[i + 1..];
      [s[..i]] + rest
  }

  /** Splitting a joined list gives the list back, when no piece holds the separator. */
  lemma {:induction false} SplitOfJoin(parts: seq<string>, sep: char)
    requires |parts| >= 1
    requires forall i :: 0 <= i < |parts| ==> sep !in parts[i]
    ensures Split(Join(parts, sep), sep) == parts
  {
    var s := Join(parts, sep);
    var n := |parts[0]|;
    if |parts| == 1 {
      assert NoneIn(s, {sep});
      assert FirstIn(s, {sep}) == |s|;
    } else {
      var rest := Join(parts[1..], sep);
      assert s == parts[0] + [sep] + rest;
      assert s[..n] == parts[0];
      assert s[n] == sep;
      FirstInAt(s, {sep}, n);
      assert s[n + 1..] == rest;
      assert Split(s, sep) == [parts[0]] + Split(rest, sep);
      SplitOfJoin(parts[1..], sep);
      assert parts == [parts[0]] + parts[1..];
    }
  }

  /** `s.rstrip(cs)`: `s` without its trailing characters from `cs`. */
  function RStrip(s: string, cs: set<char>): (t: string)
    ensures StartsWith(s, t)
    ensures t == [] || t[|t| - 1] !in cs
    ensures forall k :: |t| <= k < |s| ==> s[k] in cs
  {
    if s != [] && s[|s| - 1] in cs then RStrip(s[..|s| - 1], cs) else s
  }

  /** `s.lstrip(cs)`: `s` without its leading characters from `cs`. */
  function LStrip(s: string, cs: set<char>): (t: string)
    ensures EndsWith(s, t)
    ensures t == [] || t[0] !in cs
    ensures forall k :: 0 <= k < |s| - |t| ==> s[k] in cs
  {
    if s != [] && s[0] in cs then LStrip(s[1..], cs) else s
  }

  /** Python's `s.strip()`: `s` without surrounding whitespace. */
  function Strip(s: string): (t: string)
    ensures t == [] || (t[0] !in Whitespace && t[|t| - 1] !in Whitespace)
  {
    var r := RStrip(s, Whitespace);
    var t := LStrip(r, Whitespace);
    assert t == r[|r| - |t|..];
    t
  }

  /** Python's `s.split()`: the maximal runs of non-whitespace characters of `s`, in order. */
  function SplitWs(s: string): (words: seq<string>)
    ensures forall i :: 0 <= i < |words| ==> words[i] != [] && NoneIn(words[i], Whitespace)
    decreases |s|
  {
    if s == [] then []
    else if s[0] in Whitespace then SplitWs(s[1..])
    else
      var n := FirstIn(s, Whitespace);
      [s[..n]] + SplitWs(s[n..])
  }

  /** Leading whitespace does not change what `split()` gives. */
  lemma SplitWsSkip(c: char, rest: string)
    requires c in Whitespace
    ensures SplitWs([c] + rest) == SplitWs(rest)
  {
    assert ([c] + rest)[1..] == rest;
  }

  /** A word followed by whitespace (or by nothing) is the first thing `split()` gives. */
  lemma SplitWsWord(w: string, rest: string)
    requires w != [] && NoneIn(w, Whitespace)
    requires rest == [] || rest[0] in Whitespace
    ensures SplitWs(w + rest) == [w] + SplitWs(rest)
  {
    var t := w + rest;
    assert t[0] == w[0];
    assert t[..|w|] == w;
    FirstInAt(t, Whitespace, |w|);
    assert t[|w|..] == rest;
  }

  /** Words printed with one space between them and a final newline are what `split()` gives back. */
  lemma {:induction false} SplitWsOfJoin(words: seq<string>)
    requires |words| >= 1
    requires forall i :: 0 <= i < |words| ==> words[i] != [] && NoneIn(words[i], Whitespace)
    ensures SplitWs(Join(words, ' ') + "\n") == words
  {
    var w := words[0];
    if |words| == 1 {
      assert Join(words, ' ') == w;
      SplitWsWordThen(w, '\n', []);
      assert ['\n'] + [] == "\n";
      assert SplitWs([]) == [];
    } else {
      var rest := words[1..];
      var x := Join(rest, ' ') + "\n";
      assert Join(words, ' ') + "\n" == w + ([' '] + x);
      SplitWsWordThen(w, ' ', x);
      assert forall i :: 0 <= i < |rest| ==> rest[i] == words[i + 1];
      SplitWsOfJoin(rest);
      assert words == [w] + rest;
    }
  }

  /** A word, one whitespace character, then the rest: the word and the words of the rest. */
  lemma SplitWsWordThen(w: string, c: char, rest: string)
    requires w != [] && NoneIn(w, Whitespace) && c in Whitespace
    ensures SplitWs(w + ([c] + rest)) == [w] + SplitWs(rest)
  {
    SplitWsWord(w, [c] + rest);
    SplitWsSkip(c, rest);
  }

  /**
   * Python 2's `s.splitlines()`: the lines of `s`, broken at "\n", "\r" or
   * "\r\n" and without those breaks; a final break does not open an empty line.
   */
  function SplitLines(s: string): (lines: seq<string>)
    ensures forall i :: 0 <= i < |lines| ==> NoneIn(lines[i], LineBreaks)
    ensures s != [] && NoneIn(s, LineBreaks) ==> lines == [s]
    ensures s == [] <==> lines == []
    decreases |s|
  {
    if s == [] then []
    else
      var n := FirstIn(s, LineBreaks);
      if n == |s| then
        assert s[..n] == s;
        [s]
      else
        var next := if s[n] == '\r' && n + 1 < |s| && s[n + 1] == '\n' then n + 2 else n + 1;
        [s[..n]] + SplitLines(s[next..])
  }

  /** Each line followed by "\n": the text a tool prints one line per item. */
  function JoinLines(lines: seq<string>): string
  {
    if lines == [] then "" else lines[0] + "\n" + JoinLines(lines[1..])
  }

  /** Reading back lines printed one per line gives the same lines. */
  lemma {:induction false} SplitLinesOfJoinLines(lines: seq<string>)
    requires forall i :: 0 <= i < |lines| ==> NoneIn(lines[i], LineBreaks)
    ensures SplitLines(JoinLines(lines)) == lines
  {
    if lines != [] {
      var s := JoinLines(lines);
      var n := |lines[0]|;
      assert s == lines[0] + "\n" + JoinLines(lines[1..]);
      assert s[..n] == lines[0];
      FirstInAt(s, LineBreaks, n);
      assert s[n + 1..] == JoinLines(lines[1..]);
      SplitLinesOfJoinLines(lines[1..]);
      assert lines == [lines[0]] + lines[1..];
    }
  }

  /** The elements of `s` in the opposite order (Python's `list.reverse()`). */
  function Reverse<T>(s: seq<T>): (r: seq<T>)
    ensures |r| == |s|
    ensures forall i :: 0 <= i < |s| ==> r[i] == s[|s| - 1 - i]
  {
    if s == [] then [] else Reverse(s[1..]) + [s[0]]
  }

  /** The concatenation of the sequences in `ss`, in order. */
  function Flatten<T>(ss: seq<seq<T>>): seq<T>
  {
    if ss == [] then [] else ss[0] + Flatten(ss[1..])
  }

  lemma FlattenAppend<T>(ss: seq<seq<T>>, last: seq<T>)
    ensures Flatten(ss + [last]) == Flatten(ss) + last
  {
    if ss != [] {
      assert (ss + [last])[1..] == ss[1..] + [last];
    }
  }
}

/** The parts of Python's `posixpath` the hooks use; the separator is '/'. */
module PosixPath {
  import opened Strings

  const Sep: char := '/'

  /** The position just after the last '/' of `p`, or 0 (Python's `p.rfind('/') + 1`). */
  function AfterLastSep(p: string): (i: nat)
    ensures i <= |p|
    ensures i > 0 ==> p[i - 1] == Sep
    ensures Sep !in p[i..]
  {
    if p == [] then 0
    else if p[|p| - 1] == Sep then |p|
    else
      var i := AfterLastSep(p[..|p| - 1]);
      assert p[i..] == p[..|p| - 1][i..] + [p[|p| - 1]];
      i
  }

  /**
   * Python's `os.path.dirname(p)`: the text before the last '/', with trailing
   * '/'s removed unless that text is made only of '/'s.
   */
  function Dirname(p: string): (d: string)
    ensures StartsWith(p, d)
    ensures Sep !in p ==> d == ""
    ensures d == p || |d| < |p|
  {
    var i := AfterLastSep(p);
    var head := p[..i];
    if head != [] && exists k :: 0 <= k < |head| && head[k] != Sep then RStrip(head, {Sep}) else head
  }
}
