/** The pieces of Python's `str` behaviour that the file processor relies on:
    whitespace as `str.isspace()` and `\s` see it, `strip()`, `lower()`, `in`,
    `endswith`, `splitlines()`, `join`, `re.sub(r'\s+', ' ', s)`, `str(int)` and `int(str)`. */
module PyStrings {
  import opened Wrappers

  /** `c.isspace()`; also exactly the characters `\s` matches in a str pattern and `strip()` removes. */
  predicate IsSpace(c: char) {
    ('\t' <= c <= '\r') || ('\U{1c}' <= c <= ' ') || c == '\U{85}' || c == '\U{a0}' || c == '\U{1680}'
    || ('\U{2000}' <= c <= '\U{200a}') || c == '\U{2028}' || c == '\U{2029}' || c == '\U{202f}'
    || c == '\U{205f}' || c == '\U{3000}'
  }

  /** The line boundaries of `str.splitlines()` (a "\r\n" pair counts as one boundary). */
  predicate IsLineBreak(c: char) {
    ('\n' <= c <= '\r') || ('\U{1c}' <= c <= '\U{1e}') || c == '\U{85}' || c == '\U{2028}' || c == '\U{2029}'
  }

  predicate AllSpace(s: string) {
    forall k :: 0 <= k < |s| ==> IsSpace(s[k])
  }

  predicate NoBreaks(s: string) {
    forall k :: 0 <= k < |s| ==> !IsLineBreak(s[k])
  }

  /** Neither begins nor ends with whitespace: what `strip()` leaves. */
  predicate Stripped(s: string) {
    s == [] || (!IsSpace(s[0]) && !IsSpace(s[|s| - 1]))
  }

  /** Length of the longest all-whitespace prefix (what `^\s*` matches). */
  function LeadingSpaces(s: string): (n: nat)
    ensures n <= |s| && AllSpace(s[..n])
    ensures n < |s| ==> !IsSpace(s[n])
  {
    if s == [] || !IsSpace(s[0]) then 0 else 1 + LeadingSpaces(s[1..])
  }

  /** Length of the longest all-whitespace suffix. */
  function TrailingSpaces(s: string): (n: nat)
    ensures n <= |s| && AllSpace(s[|s| - n..])
    ensures n < |s| ==> !IsSpace(s[|s| - n - 1])
    decreases |s|
  {
    if s == [] || !IsSpace(s[|s| - 1]) then 0 else 1 + TrailingSpaces(s[..|s| - 1])
  }

  /** `s.strip()`. */
  function Strip(s: string): string {
    var t := s[LeadingSpaces(s)..];
    t[..|t| - TrailingSpaces(t)]
  }

  /** `" " * n`. */
  function Spaces(n: nat): (r: string)
    ensures |r| == n && forall k :: 0 <= k < n ==> r[k] == ' '
  {
    if n == 0 then "" else Spaces(n - 1) + " "
  }

  /** `s.lower()` restricted to ASCII letters (other characters are kept as they are). */
  function Lower(s: string): (r: string)
    ensures |r| == |s|
  {
    if s == [] then "" else [if 'A' <= s[0] <= 'Z' then (s[0] as int + 32) as char else s[0]] + Lower(s[1..])
  }

  predicate OccursAt(s: string, sub: string, i: int) {
    0 <= i && i + |sub| <= |s| && s[i..i + |sub|] == sub
  }

  /** Python's `sub in s`. */
  predicate Contains(s: string, sub: string) {
    exists i | 0 <= i <= |s| - |sub| :: OccursAt(s, sub, i)
  }

  /** `s.endswith(suffix)`. */
  predicate EndsWith(s: string, suffix: string) {
    |suffix| <= |s| && s[|s| - |suffix|..] == suffix
  }

  /** `s[:n]`. */
  function Truncate(s: string, n: nat): (r: string)
    ensures |r| <= n && r <= s
    ensures |s| <= n ==> r == s
    ensures |s| > n ==> |r| == n
  {
    if |s| <= n then s else s[..n]
  }

  /** Index of the first line boundary, or |s| when there is none. */
  function LineEnd(s: string): (i: nat)
    ensures i <= |s| && forall k :: 0 <= k < i ==> !IsLineBreak(s[k])
    ensures i < |s| ==> IsLineBreak(s[i])
  {
    if s == [] || IsLineBreak(s[0]) then 0 else 1 + LineEnd(s[1..])
  }

  /** `s.splitlines()`: no terminator is kept and a final terminator adds no empty line. */
  function SplitLines(s: string): (lines: seq<string>)
    ensures forall j :: 0 <= j < |lines| ==> NoBreaks(lines[j])
    decreases |s|
  {
    if s == [] then []
    else
      var i := LineEnd(s);
      if i == |s| then [s]
      else
        var next := if s[i] == '\r' && i + 1 < |s| && s[i + 1] == '\n' then i + 2 else i + 1;
        [s[..i]] + SplitLines(s[next..])
  }

  /** `sep.join(parts)`. */
  function Join(parts: seq<string>, sep: string): string {
    if parts == [] then "" else if |parts| == 1 then parts[0] else parts[0] + sep + Join(parts[1..], sep)
  }

  /** `re.sub(r'\s+', ' ', s)`: every maximal run of whitespace becomes one space. */
  function Collapse(s: string): (r: string)
    decreases |s|
  {
    if s == [] then ""
    else if IsSpace(s[0]) then " " + Collapse(s[LeadingSpaces(s)..])
    else [s[0]] + Collapse(s[1..])
  }

  /** Index of the first whitespace character, or |s|. */
  function WordEnd(s: string): (i: nat)
    ensures i <= |s| && forall k :: 0 <= k < i ==> !IsSpace(s[k])
    ensures i < |s| ==> IsSpace(s[i])
  {
    if s == [] || IsSpace(s[0]) then 0 else 1 + WordEnd(s[1..])
  }

  /** `s.split()`: the maximal runs of non-whitespace, in order. */
  function Words(s: string): (ws: seq<string>)
    decreases |s|
  {
    var t := s[LeadingSpaces(s)..];
    if t == [] then [] else
      assert t[0] == s[LeadingSpaces(s)];
      var n := WordEnd(t);
      assert n > 0;
      [t[..n]] + Words(t[n..])
  }

  function DigitChar(d: nat): char
    requires d < 10
  {
    "0123456789"[d]
  }

  function NatToString(n: nat): (r: string)
    ensures |r| >= 1 && forall k :: 0 <= k < |r| ==> '0' <= r[k] <= '9'
  {
    if n < 10 then [DigitChar(n)] else NatToString(n / 10) + [DigitChar(n % 10)]
  }

  /** `str(i)` for a Python int. */
  function IntToString(i: int): string {
    if i < 0 then "-" + NatToString(-i) else NatToString(i)
  }

  predicate IsDigit(c: char) {
    '0' <= c <= '9'
  }

  /** The digit part of an integer literal as `int()` accepts it: digits, each `_` between two digits. */
  predicate DigitPart(s: string) {
    |s| > 0 && IsDigit(s[0]) && IsDigit(s[|s| - 1])
    && (forall k :: 0 <= k < |s| ==> IsDigit(s[k]) || s[k] == '_')
    && (forall k :: 0 <= k < |s| - 1 ==> !(s[k] == '_' && s[k + 1] == '_'))
  }

  /** Value of a run of digits and underscores (underscores carry no value). */
  function DigitsValue(s: string): nat
    decreases |s|
  {
    if s == [] then 0
    else
      var c := s[|s| - 1];
      if IsDigit(c) then DigitsValue(s[..|s| - 1]) * 10 + (c as int - '0' as int) else DigitsValue(s[..|s| - 1])
  }

  /** `int(s)` for a str argument: surrounding whitespace, an optional sign, then a digit part;
      anything else raises ValueError (None here). */
  function ParseInt(s: string): Option<int> {
    var t := Strip(s);
    if t != [] && (t[0] == '-' || t[0] == '+') then
      var v: int := DigitsValue(t[1..]);
      if DigitPart(t[1..]) then Some(if t[0] == '-' then -v else v) else None
    else if DigitPart(t) then Some(DigitsValue(t)) else None
  }

  // ---------------------------------------------------------------------------------------------
  // Lemmas

  lemma LineEndAt(a: string, b: string)
    requires NoBreaks(a) && b != [] && IsLineBreak(b[0])
    ensures LineEnd(a + b) == |a|
  {
    var s := a + b;
    assert s[|a|] == b[0];
    assert forall k :: 0 <= k < |a| ==> s[k] == a[k];
  }

  lemma LineEndNone(a: string)
    requires NoBreaks(a)
    ensures LineEnd(a) == |a|
  {
  }

  /** Joining lines that hold no boundary with "\n" and splitting again gives the lines back,
      provided the last line is not empty (an empty last line would vanish). */
  lemma {:induction false} SplitLinesJoin(lines: seq<string>)
    requires forall j :: 0 <= j < |lines| ==> NoBreaks(lines[j])
    requires lines != [] ==> lines[|lines| - 1] != ""
    ensures SplitLines(Join(lines, "\n")) == lines
  {
    if |lines| == 1 {
      LineEndNone(lines[0]);
    } else if |lines| > 1 {
      var head := lines[0];
      var rest := Join(lines[1..], "\n");
      var s := head + ("\n" + rest);
      assert Join(lines, "\n") == s;
      LineEndAt(head, "\n" + rest);
      assert s[|head|] == '\n';
      assert s[..|head|] == head;
      assert s[|head| + 1..] == rest;
      SplitLinesJoin(lines[1..]);
      assert SplitLines(s) == [head] + SplitLines(rest);
      assert lines == [head] + lines[1..];
    }
  }

  lemma {:induction false} LeadingSpacesAppend(w: string, t: string)
    requires AllSpace(w)
    ensures LeadingSpaces(w + t) == |w| + LeadingSpaces(t)
    decreases |w|
  {
    if w != [] {
      assert (w + t)[0] == w[0];
      assert (w + t)[1..] == w[1..] + t;
      LeadingSpacesAppend(w[1..], t);
    } else {
      assert w + t == t;
    }
  }

  lemma {:induction false} TrailingSpacesAppend(t: string, w: string)
    requires AllSpace(w)
    ensures TrailingSpaces(t + w) == TrailingSpaces(t) + |w|
    decreases |w|
  {
    if w != [] {
      var u := t + w;
      assert u[|u| - 1] == w[|w| - 1];
      assert u[..|u| - 1] == t + w[..|w| - 1];
      TrailingSpacesAppend(t, w[..|w| - 1]);
    } else {
      assert t + w == t;
    }
  }

  /** Whitespace around a stripped string is exactly what `strip()` removes. */
  lemma StripAround(w1: string, t: string, w2: string)
    requires AllSpace(w1) && AllSpace(w2) && Stripped(t) && t != []
    ensures Strip(w1 + t + w2) == t
  {
    var s := w1 + t + w2;
    assert s == w1 + (t + w2);
    LeadingSpacesAppend(w1, t + w2);
    assert LeadingSpaces(t + w2) == 0 by { assert (t + w2)[0] == t[0]; }
    assert s[|w1|..] == t + w2;
    TrailingSpacesAppend(t, w2);
    assert TrailingSpaces(t) == 0;
    assert (t + w2)[..|t|] == t;
  }

  lemma StripPrefixSpaces(w: string, t: string)
    requires AllSpace(w)
    ensures Strip(w + t) == Strip(t)
  {
    var s := w + t;
    LeadingSpacesAppend(w, t);
    var a := LeadingSpaces(t);
    assert s[|w| + a..] == t[a..];
    StripSameCore(s, t);
  }

  /** `strip()` depends only on what follows the leading whitespace. */
  lemma StripSameCore(s: string, t: string)
    requires s[LeadingSpaces(s)..] == t[LeadingSpaces(t)..]
    ensures Strip(s) == Strip(t)
  {
  }

  lemma StripOfStripped(t: string)
    requires Stripped(t)
    ensures Strip(t) == t
  {
    if t != [] {
      assert LeadingSpaces(t) == 0;
      assert TrailingSpaces(t) == 0;
    }
  }

  /** `(" " + t).strip() == t` for a stripped `t`. */
  lemma StripSpaceThen(t: string)
    requires Stripped(t)
    ensures Strip(" " + t) == t
  {
    StripPrefixSpaces(" ", t);
    StripOfStripped(t);
  }

  lemma StripIsStripped(s: string)
    ensures Stripped(Strip(s))
  {
    var a := LeadingSpaces(s);
    var t := s[a..];
    var b := TrailingSpaces(t);
    var r := t[..|t| - b];
    assert Strip(s) == r;
    if r != [] {
      assert a < |s| && b < |t|;
      assert r[0] == t[0] == s[a];
      assert !IsSpace(s[a]);
      assert r[|r| - 1] == t[|t| - b - 1];
      assert !IsSpace(t[|t| - b - 1]);
    }
  }

  lemma StripAllSpace(s: string)
    requires AllSpace(s)
    ensures Strip(s) == ""
  {
    StripPrefixSpaces(s, "");
    assert s + "" == s;
  }

  lemma StripNoBreaks(s: string)
    requires NoBreaks(s)
    ensures NoBreaks(Strip(s))
  {
    var t := s[LeadingSpaces(s)..];
    var r := t[..|t| - TrailingSpaces(t)];
    forall k | 0 <= k < |r| ensures !IsLineBreak(r[k]) {
      assert r[k] == s[LeadingSpaces(s) + k];
    }
  }

  lemma StripKeeps(s: string, c: char)
    requires forall k :: 0 <= k < |s| ==> s[k] != c
    ensures forall k :: 0 <= k < |Strip(s)| ==> Strip(s)[k] != c
  {
    var t := s[LeadingSpaces(s)..];
    var r := t[..|t| - TrailingSpaces(t)];
    forall k | 0 <= k < |r| ensures r[k] != c {
      assert r[k] == s[LeadingSpaces(s) + k];
    }
  }

  lemma {:induction false} JoinAppend(parts: seq<string>, last: string, sep: string)
    requires parts != []
    ensures Join(parts + [last], sep) == Join(parts, sep) + sep + last
  {
    if |parts| > 1 {
      assert (parts + [last])[1..] == parts[1..] + [last];
      JoinAppend(parts[1..], last, sep);
    }
  }
}
