/** `FileProcessor._format_markdown`: a line-by-line imitation of Prettier built from four regexes.
    Python's `\s` and `strip()` both use the `str.isspace()` set; `.` matches any character but
    "\n", and `splitlines()` leaves no line break inside a line. */
module Markdown {
  import opened PyStrings

  /** Number of leading '#' characters. */
  function Hashes(s: string): (h: nat)
    ensures h <= |s| && (forall k :: 0 <= k < h ==> s[k] == '#') && (h < |s| ==> s[h] != '#')
  {
    if s == [] || s[0] != '#' then 0 else 1 + Hashes(s[1..])
  }

  /** What the group `(.+)` after a greedy `\s+` or `\s*` captures from `r`: the text after the
      leading whitespace, or, when `r` is all whitespace, its last character (the regex backtracks). */
  function CapturedRest(r: string): string
    requires r != []
  {
    if LeadingSpaces(r) < |r| then r[LeadingSpaces(r)..] else r[|r| - 1..]
  }

  predicate IsMarker(c: char) {
    c == '*' || c == '-'
  }

  /** `^(#+)\s+(.+)` matches: hashes, whitespace, and at least two characters after the hashes. */
  predicate IsHeading(l: string) {
    1 <= Hashes(l) < |l| && IsSpace(l[Hashes(l)]) && |l| - Hashes(l) >= 2
  }

  /** `^\s*([\*\-])\s+(.+)` matches. */
  predicate IsListItem(l: string) {
    LeadingSpaces(l) + 1 < |l| && IsMarker(l[LeadingSpaces(l)]) && IsSpace(l[LeadingSpaces(l) + 1])
    && |l| - (LeadingSpaces(l) + 1) >= 2
  }

  /** `^\s*>\s*(.+)` matches. */
  predicate IsQuote(l: string) {
    LeadingSpaces(l) < |l| && l[LeadingSpaces(l)] == '>' && |l| - (LeadingSpaces(l) + 1) >= 1
  }

  /** The rewrite of one line, branch by branch as the formatter tries them. Each branch strips
      the text the pattern's last group captures; that is the same as stripping everything after
      the hashes or the marker (StripCapturedRest), which is what is written here. */
  function FormatLine(l: string): string {
    if IsHeading(l) then l[..Hashes(l)] + " " + Strip(l[Hashes(l)..])
    else if IsListItem(l) then Spaces(LeadingSpaces(l)) + [l[LeadingSpaces(l)]] + " " + Strip(l[LeadingSpaces(l) + 1..])
    else if IsQuote(l) then "> " + Strip(l[LeadingSpaces(l) + 1..])
    else Strip(Collapse(l))
  }

  function FormatLines(ls: seq<string>): (r: seq<string>)
    ensures |r| == |ls|
  {
    if ls == [] then [] else FormatLines(ls[..|ls| - 1]) + [FormatLine(ls[|ls| - 1])]
  }

  /** The formatted document: one output line per `splitlines()` line, joined by "\n". */
  function FormatDoc(content: string): string {
    Join(FormatLines(SplitLines(content)), "\n")
  }

  /** The loop of `_format_markdown`, appending one formatted line per input line. */
  method FormatMarkdown(content: string) returns (out: string)
    ensures out == FormatDoc(content)
  {
    var lines := SplitLines(content);
    var formatted: seq<string> := [];
    for i := 0 to |lines|
      invariant formatted == FormatLines(lines[..i])
    {
      assert lines[..i + 1][..i] == lines[..i];
      formatted := formatted + [FormatLine(lines[i])];
    }
    assert lines[..|lines|] == lines;
    out := Join(formatted, "\n");
  }

  /** Line `k` of the output is the rewrite of line `k` of the input. */
  lemma {:induction false} FormatLinesAt(ls: seq<string>, k: int)
    requires 0 <= k < |ls|
    ensures FormatLines(ls)[k] == FormatLine(ls[k])
    decreases |ls|
  {
    if k < |ls| - 1 {
      FormatLinesAt(ls[..|ls| - 1], k);
    }
  }

  // ---------------------------------------------------------------------------------------------
  // Which lines are fixed points

  /** A heading or list item whose text is empty: hashes, or an indent and a marker, then one space. */
  predicate BlankItem(o: string) {
    |o| >= 2 && o[|o| - 1] == ' '
    && ((forall k :: 0 <= k < |o| - 1 ==> o[k] == '#')
        || (IsMarker(o[|o| - 2]) && o[..|o| - 2] == Spaces(|o| - 2)))
  }

  /** Whitespace is only ' ', never two in a row: what `re.sub(r'\s+', ' ', ...)` leaves. */
  predicate Spaced(o: string) {
    (forall k :: 0 <= k < |o| ==> IsSpace(o[k]) ==> o[k] == ' ')
    && (forall k :: 0 <= k < |o| - 1 ==> !(o[k] == ' ' && o[k + 1] == ' '))
  }

  /** Stripping the text a `\s+(.+)` or `\s*(.+)` group captures after a head is the same as
      stripping all that follows the head. */
  lemma StripCapturedRest(r: string)
    requires r != []
    ensures Strip(CapturedRest(r)) == Strip(r)
  {
    var k := LeadingSpaces(r);
    if k < |r| {
      assert r == r[..k] + r[k..];
      StripPrefixSpaces(r[..k], r[k..]);
    } else {
      StripAllSpace(r);
      StripAllSpace(r[|r| - 1..]);
    }
  }

  lemma CollapseHead(s: string)
    requires s != []
    ensures Collapse(s) != [] && Collapse(s)[0] == (if IsSpace(s[0]) then ' ' else s[0])
  {
  }

  lemma SpacedCons(c: char, x: string)
    requires Spaced(x) && (IsSpace(c) ==> c == ' ')
    requires c == ' ' && x != [] ==> x[0] != ' '
    ensures Spaced([c] + x)
  {
    var y := [c] + x;
    forall k | 0 < k < |y| ensures y[k] == x[k - 1] { }
  }

  lemma {:induction false} CollapseSpaced(s: string)
    ensures Spaced(Collapse(s))
    decreases |s|
  {
    if s != [] {
      if IsSpace(s[0]) {
        var t := s[LeadingSpaces(s)..];
        CollapseSpaced(t);
        if t != [] {
          assert !IsSpace(t[0]);
          CollapseHead(t);
        }
        SpacedCons(' ', Collapse(t));
        assert Collapse(s) == [' '] + Collapse(t);
      } else {
        CollapseSpaced(s[1..]);
        SpacedCons(s[0], Collapse(s[1..]));
        assert Collapse(s) == [s[0]] + Collapse(s[1..]);
      }
    }
  }

  lemma {:induction false} CollapseNoBreaks(s: string)
    requires NoBreaks(s)
    ensures NoBreaks(Collapse(s))
    decreases |s|
  {
    if s != [] {
      var t := if IsSpace(s[0]) then s[LeadingSpaces(s)..] else s[1..];
      assert NoBreaks(t) by {
        var d := |s| - |t|;
        forall k | 0 <= k < |t| ensures t[k] == s[d + k] { }
      }
      CollapseNoBreaks(t);
      var c := if IsSpace(s[0]) then ' ' else s[0];
      assert Collapse(s) == [c] + Collapse(t);
      assert !IsLineBreak(c);
    }
  }

  lemma {:induction false} CollapseOfSpaced(o: string)
    requires Spaced(o)
    ensures Collapse(o) == o
    decreases |o|
  {
    if o != [] {
      assert Spaced(o[1..]) by {
        forall k | 0 <= k < |o| - 1 ensures o[1..][k] == o[k + 1] { }
      }
      if IsSpace(o[0]) {
        assert |o| > 1 ==> !IsSpace(o[1]);
        assert LeadingSpaces(o) == 1;
      }
      CollapseOfSpaced(o[1..]);
      assert o == [o[0]] + o[1..];
    }
  }

  lemma SpacedSlice(o: string, a: int, b: int)
    requires Spaced(o) && 0 <= a <= b <= |o|
    ensures Spaced(o[a..b])
  {
    var s := o[a..b];
    forall k | 0 <= k < |s| ensures s[k] == o[a + k] { }
  }

  lemma SpacedStrip(c: string)
    requires Spaced(c)
    ensures Spaced(Strip(c))
  {
    var t := c[LeadingSpaces(c)..];
    SpacedSlice(c, LeadingSpaces(c), |c|);
    SpacedSlice(t, 0, |t| - TrailingSpaces(t));
  }

  lemma NoBreaksSlice(l: string, a: int, b: int)
    requires NoBreaks(l) && 0 <= a <= b <= |l|
    ensures NoBreaks(l[a..b])
  {
    var s := l[a..b];
    forall k | 0 <= k < |s| ensures s[k] == l[a + k] { }
  }

  /** A non-blank first character survives `strip()`. */
  lemma StripHead(x: string)
    requires x != [] && !IsSpace(x[0])
    ensures Strip(x) != [] && Strip(x)[0] == x[0]
  {
    assert LeadingSpaces(x) == 0;
    assert x[0..] == x;
    assert TrailingSpaces(x) < |x|;
  }

  // ---------------------------------------------------------------------------------------------
  // Lines left as normal text

  lemma PlainSpaced(l: string)
    ensures Spaced(Strip(Collapse(l))) && Stripped(Strip(Collapse(l)))
  {
    CollapseSpaced(l);
    SpacedStrip(Collapse(l));
    StripIsStripped(Collapse(l));
  }

  lemma PlainNoBreaks(l: string)
    requires NoBreaks(l)
    ensures NoBreaks(Strip(Collapse(l)))
  {
    CollapseNoBreaks(l);
    StripNoBreaks(Collapse(l));
  }

  lemma OneSpaceStrips(s: string)
    requires s == " "
    ensures Strip(s) == ""
  {
    assert AllSpace(s) by { assert s[0] == ' '; }
    StripAllSpace(s);
  }

  lemma PlainBlank(l: string)
    requires LeadingSpaces(l) == |l|
    ensures Strip(Collapse(l)) == ""
  {
    if l != [] {
      var n := LeadingSpaces(l);
      assert IsSpace(l[0]) by { assert l[..n][0] == l[0]; }
      assert l[n..] == [];
      assert Collapse(l) == " " + Collapse(l[n..]);
      OneSpaceStrips(Collapse(l));
    }
  }

  lemma PlainIndented(l: string)
    requires 0 < LeadingSpaces(l) < |l|
    ensures Strip(Collapse(l)) == Strip(Collapse(l[LeadingSpaces(l)..]))
  {
    assert IsSpace(l[0]);
    StripPrefixSpaces(" ", Collapse(l[LeadingSpaces(l)..]));
  }

  /** A line left as normal text begins, once formatted, with its first non-blank character. */
  lemma PlainHead(l: string)
    requires LeadingSpaces(l) < |l|
    ensures Strip(Collapse(l)) == Strip(Collapse(l[LeadingSpaces(l)..]))
    ensures Strip(Collapse(l)) != [] && Strip(Collapse(l))[0] == l[LeadingSpaces(l)]
  {
    var i := LeadingSpaces(l);
    if i > 0 { PlainIndented(l); } else { assert l[i..] == l; }
    CollapseHead(l[i..]);
    StripHead(Collapse(l[i..]));
  }

  /** A line that is only an indented '>' comes out as the bare '>'. */
  lemma PlainQuoteMark(l: string)
    requires LeadingSpaces(l) + 1 == |l| && l[|l| - 1] == '>'
    ensures Strip(Collapse(l)) == ">"
  {
    PlainHead(l);
    var g := l[LeadingSpaces(l)..];
    assert g == [l[|l| - 1]];
    LoneMark(g);
  }

  lemma LoneMark(g: string)
    requires g == ">"
    ensures Strip(Collapse(g)) == ">"
  {
    assert !IsSpace(g[0]) && g[1..] == [];
    assert Collapse(g) == g;
    StripOfStripped(g);
  }

  // ---------------------------------------------------------------------------------------------
  // Fixed points

  /** `o[..n] + " " + Strip(o[n..]) == o` when `o[n]` is the space after a head of `n` characters. */
  lemma SpacedTailStripped(o: string, n: nat)
    requires Spaced(o) && Stripped(o) && n + 2 <= |o| && o[n] == ' '
    ensures Stripped(o[n + 1..])
  {
    var t := o[n + 1..];
    assert t[0] == o[n + 1];
    assert o[n + 1] != ' ';
    assert !IsSpace(o[n + 1]);
    assert t[|t| - 1] == o[|o| - 1];
  }

  lemma SpacedRest(o: string, n: nat)
    requires Spaced(o) && Stripped(o) && 1 <= n && n + 2 <= |o| && IsSpace(o[n])
    ensures o[..n] + " " + Strip(o[n..]) == o
  {
    var t := o[n + 1..];
    assert o[n] == ' ';
    assert o[n..] == " " + t;
    SpacedTailStripped(o, n);
    StripSpaceThen(t);
    assert o == o[..n] + " " + t;
  }

  lemma SpacedHeadingFixed(o: string)
    requires Spaced(o) && Stripped(o) && IsHeading(o)
    ensures FormatLine(o) == o
  {
    SpacedRest(o, Hashes(o));
  }

  lemma SpacedListFixed(o: string)
    requires Spaced(o) && Stripped(o) && !IsHeading(o) && IsListItem(o)
    ensures FormatLine(o) == o
  {
    assert LeadingSpaces(o) == 0;
    SpacedRest(o, 1);
    assert Spaces(0) + [o[0]] == o[..1];
  }

  lemma SpacedPlainFixed(o: string)
    requires Spaced(o) && Stripped(o) && !IsHeading(o) && !IsListItem(o)
    requires o != [] && o[0] == '>' ==> o == ">"
    ensures FormatLine(o) == o
  {
    assert !IsQuote(o) by {
      if o != [] { assert LeadingSpaces(o) == 0; }
    }
    CollapseOfSpaced(o);
    StripOfStripped(o);
  }

  /** A spaced, stripped line is its own rewrite, unless it is a '>' followed by text (which a
      blockquote rewrites). */
  lemma SpacedFixed(o: string)
    requires Spaced(o) && Stripped(o)
    requires o != [] && o[0] == '>' ==> o == ">"
    ensures FormatLine(o) == o
  {
    if IsHeading(o) {
      SpacedHeadingFixed(o);
    } else if IsListItem(o) {
      SpacedListFixed(o);
    } else {
      SpacedPlainFixed(o);
    }
  }

  /** A rewritten heading whose text is non-empty is rewritten to itself. */
  lemma HeadingFixed(hs: string, t: string)
    requires |hs| >= 1 && (forall k :: 0 <= k < |hs| ==> hs[k] == '#') && Stripped(t) && t != []
    ensures FormatLine(hs + " " + t) == hs + " " + t
  {
    HeadingShape(hs, t);
    StripSpaceThen(t);
  }

  lemma HeadingShape(hs: string, t: string)
    requires |hs| >= 1 && (forall k :: 0 <= k < |hs| ==> hs[k] == '#') && t != []
    ensures var o := hs + " " + t; Hashes(o) == |hs| && IsHeading(o) && o[|hs|..] == " " + t && o[..|hs|] == hs
  {
    var o := hs + " " + t;
    HashesOf(hs, " " + t);
    assert o[|hs|] == ' ';
    assert o[|hs|..] == " " + t;
  }

  /** A rewritten list item whose text is non-empty is rewritten to itself. */
  lemma ListFixed(i: nat, m: char, t: string)
    requires IsMarker(m) && Stripped(t) && t != []
    ensures FormatLine(Spaces(i) + [m] + " " + t) == Spaces(i) + [m] + " " + t
  {
    ListShape(i, m, t);
    StripSpaceThen(t);
  }

  lemma ListShape(i: nat, m: char, t: string)
    requires IsMarker(m) && t != []
    ensures var o := Spaces(i) + [m] + " " + t;
      LeadingSpaces(o) == i && o[i] == m && !IsHeading(o) && IsListItem(o) && o[i + 1..] == " " + t
  {
    var o := Spaces(i) + [m] + " " + t;
    assert o == Spaces(i) + [m] + (" " + t);
    IndentedShape(i, m, " " + t);
    assert o[i + 1..] == " " + t;
    assert o[i + 1] == ' ';
  }

  /** The indent of `Spaces(i) + [c] + rest` is `i`, and it is no heading. */
  lemma IndentedShape(i: nat, c: char, rest: string)
    requires !IsSpace(c) && c != '#'
    ensures var o := Spaces(i) + [c] + rest;
      LeadingSpaces(o) == i && o[i] == c && Hashes(o) == 0
  {
    var o := Spaces(i) + [c] + rest;
    assert o == Spaces(i) + ([c] + rest);
    LeadingSpacesAppend(Spaces(i), [c] + rest);
    assert o[0] != '#';
  }

  /** Every rewritten blockquote is rewritten to itself. */
  lemma QuoteFixed(t: string)
    requires Stripped(t)
    ensures FormatLine("> " + t) == "> " + t
  {
    QuoteShape(t);
    StripSpaceThen(t);
  }

  lemma QuoteShape(t: string)
    ensures var o := "> " + t;
      LeadingSpaces(o) == 0 && !IsHeading(o) && !IsListItem(o) && IsQuote(o) && o[1..] == " " + t
  {
    var o := "> " + t;
    assert o[0] == '>' && o[1] == ' ';
    assert o[1..] == " " + t;
  }

  /** A blank heading loses its trailing space: "# " becomes "#". */
  lemma BlankHeadingShrinks(hs: string)
    requires |hs| >= 1 && forall k :: 0 <= k < |hs| ==> hs[k] == '#'
    ensures FormatLine(hs + " ") == hs
  {
    var o := hs + " ";
    HashesOf(hs, " ");
    assert o[0] == '#';
    assert LeadingSpaces(o) == 0;
    assert !IsHeading(o) && !IsListItem(o) && !IsQuote(o);
    CollapseOfRun(hs);
  }

  /** A blank list item becomes its bare marker: "  - " becomes "-". */
  lemma BlankListShrinks(o: string, i: nat, m: char)
    requires IsMarker(m) && o == Spaces(i) + [m] + " "
    ensures FormatLine(o) == [m]
  {
    assert o == Spaces(i) + [m, ' '];
    LeadingSpacesAppend(Spaces(i), [m, ' ']);
    assert o[i] == m;
    assert o[0] != '#';
    assert !IsHeading(o) && !IsListItem(o) && !IsQuote(o);
    StripCollapseItem(o, i, m);
  }

  lemma BlankItemShrinks(o: string)
    requires BlankItem(o)
    ensures FormatLine(o) != o
  {
    if forall k :: 0 <= k < |o| - 1 ==> o[k] == '#' {
      BlankHeadingItem(o);
    } else {
      BlankListItem(o);
    }
  }

  lemma BlankHeadingItem(o: string)
    requires |o| >= 2 && o[|o| - 1] == ' ' && forall k :: 0 <= k < |o| - 1 ==> o[k] == '#'
    ensures |FormatLine(o)| < |o|
  {
    var n := |o| - 1;
    assert o == o[..n] + " ";
    BlankHeadingShrinks(o[..n]);
  }

  lemma BlankListItem(o: string)
    requires |o| >= 2 && o[|o| - 1] == ' ' && IsMarker(o[|o| - 2]) && o[..|o| - 2] == Spaces(|o| - 2)
    ensures |FormatLine(o)| < |o|
  {
    BlankListParts(o, Spaces(|o| - 2));
    BlankListShrinks(o, |o| - 2, o[|o| - 2]);
  }

  lemma BlankListParts(o: string, indent: string)
    requires |o| >= 2 && o[|o| - 1] == ' ' && o[..|o| - 2] == indent
    ensures o == indent + [o[|o| - 2]] + " "
  {
    var n := |o| - 2;
    var tail := [o[n], ' '];
    assert o[n..] == tail;
    assert o == o[..n] + tail;
    assert [o[n]] + " " == tail;
  }

  lemma HashesOf(hs: string, rest: string)
    requires forall k :: 0 <= k < |hs| ==> hs[k] == '#'
    requires rest != [] && rest[0] != '#'
    ensures Hashes(hs + rest) == |hs|
    decreases |hs|
  {
    if hs != [] {
      assert (hs + rest)[1..] == hs[1..] + rest;
      HashesOf(hs[1..], rest);
    } else {
      assert hs + rest == rest;
    }
  }

  lemma CollapseOfRun(hs: string)
    requires |hs| >= 1 && forall k :: 0 <= k < |hs| ==> hs[k] == '#'
    ensures Strip(Collapse(hs + " ")) == hs
  {
    var o := hs + " ";
    assert Spaced(o);
    CollapseOfSpaced(o);
    assert TrailingSpaces(o) == 1 by { assert !IsSpace(o[|o| - 2]); }
    assert LeadingSpaces(o) == 0;
    assert o[..|o| - 1] == hs;
  }

  /** An indent of any whitespace collapses to one space. */
  lemma CollapseIndent(w: string, rest: string)
    requires w != [] && AllSpace(w) && rest != [] && !IsSpace(rest[0])
    ensures Collapse(w + rest) == " " + Collapse(rest)
  {
    LeadingSpacesAppend(w, rest);
    assert (w + rest)[0] == w[0];
    assert (w + rest)[|w|..] == rest;
  }

  lemma CollapseItem(m: char)
    requires IsMarker(m)
    ensures Collapse([m, ' ']) == [m, ' ']
  {
    assert Spaced([m, ' ']);
    CollapseOfSpaced([m, ' ']);
  }

  lemma StripCollapseItem(o: string, i: nat, m: char)
    requires IsMarker(m) && o == Spaces(i) + [m] + " "
    ensures Strip(Collapse(o)) == [m]
  {
    if i > 0 {
      assert AllSpace(Spaces(i));
      StripCollapseIndentedItem(o, Spaces(i), m);
    } else {
      assert o == [m, ' '];
      StripCollapseBareItem(o, m);
    }
  }

  lemma StripCollapseIndentedItem(o: string, w: string, m: char)
    requires IsMarker(m) && w != [] && AllSpace(w) && o == w + [m] + " "
    ensures Strip(Collapse(o)) == [m]
  {
    assert o == w + [m, ' '];
    CollapseItem(m);
    CollapseIndent(w, [m, ' ']);
    StripAround(" ", [m], " ");
    assert " " + [m, ' '] == " " + [m] + " ";
  }

  lemma StripCollapseBareItem(o: string, m: char)
    requires IsMarker(m) && o == [m, ' ']
    ensures Strip(Collapse(o)) == [m]
  {
    CollapseItem(m);
    assert o == "" + [m] + " ";
    StripAround("", [m], " ");
  }

  lemma QuoteMarkNoBreaks(m: string)
    requires m == "> "
    ensures NoBreaks(m)
  {
    assert m[0] == '>' && m[1] == ' ';
  }

  lemma NoBreaksCat(a: string, b: string)
    requires NoBreaks(a) && NoBreaks(b)
    ensures NoBreaks(a + b)
  {
    var s := a + b;
    forall k | 0 <= k < |s| ensures !IsLineBreak(s[k]) {
      if k < |a| { assert s[k] == a[k]; } else { assert s[k] == b[k - |a|]; }
    }
  }

  lemma NoBreaksParts(a: string, b: string)
    requires NoBreaks(a) && NoBreaks(b)
    ensures NoBreaks(a + " " + b)
  {
    var s := a + " " + b;
    forall k | 0 <= k < |s| ensures !IsLineBreak(s[k]) {
      if k < |a| { assert s[k] == a[k]; } else if k > |a| { assert s[k] == b[k - |a| - 1]; }
    }
  }

  // ---------------------------------------------------------------------------------------------
  // Idempotence, branch by branch

  /** A rewritten heading `hs + " " + t` is a fixed point exactly when it is not blank. */
  lemma HeadingForm(hs: string, t: string)
    requires |hs| >= 1 && (forall k :: 0 <= k < |hs| ==> hs[k] == '#') && Stripped(t)
    ensures FormatLine(hs + " " + t) == hs + " " + t <==> !BlankItem(hs + " " + t)
  {
    if t == [] { HeadingFormBlank(hs); } else { HeadingFormText(hs, t); }
  }

  lemma HeadingFormBlank(hs: string)
    requires |hs| >= 1 && (forall k :: 0 <= k < |hs| ==> hs[k] == '#')
    ensures BlankItem(hs + " " + "") && FormatLine(hs + " " + "") != hs + " " + ""
  {
    assert hs + " " + "" == hs + " ";
    BlankHeadingShrinks(hs);
  }

  lemma HeadingFormText(hs: string, t: string)
    requires |hs| >= 1 && (forall k :: 0 <= k < |hs| ==> hs[k] == '#') && Stripped(t) && t != []
    ensures !BlankItem(hs + " " + t) && FormatLine(hs + " " + t) == hs + " " + t
  {
    HeadingFixed(hs, t);
    var o := hs + " " + t;
    assert o[|o| - 1] == t[|t| - 1];
  }

  /** A rewritten list item `Spaces(i) + [m] + " " + t` is a fixed point exactly when it is not blank. */
  lemma ListForm(i: nat, m: char, t: string)
    requires IsMarker(m) && Stripped(t)
    ensures FormatLine(Spaces(i) + [m] + " " + t) == Spaces(i) + [m] + " " + t
        <==> !BlankItem(Spaces(i) + [m] + " " + t)
  {
    if t == [] {
      var o := Spaces(i) + [m] + " ";
      assert o + t == o;
      ListFormBlank(o, i, m);
    } else {
      ListFormText(i, m, t);
    }
  }

  lemma ListFormBlank(o: string, i: nat, m: char)
    requires IsMarker(m) && o == Spaces(i) + [m] + " "
    ensures BlankItem(o) && FormatLine(o) != o
  {
    BlankListShrinks(o, i, m);
    MarkerLineParts(Spaces(i), m);
  }

  lemma MarkerLineParts(indent: string, m: char)
    ensures var o := indent + [m] + " "; |o| == |indent| + 2 && o[..|indent|] == indent && o[|indent|] == m && o[|o| - 1] == ' '
  {
    var o := indent + [m] + " ";
    assert o[..|indent|] == indent;
  }

  lemma ListFormText(i: nat, m: char, t: string)
    requires IsMarker(m) && Stripped(t) && t != []
    ensures !BlankItem(Spaces(i) + [m] + " " + t) && FormatLine(Spaces(i) + [m] + " " + t) == Spaces(i) + [m] + " " + t
  {
    ListFixed(i, m, t);
    var o := Spaces(i) + [m] + " " + t;
    assert o[|o| - 1] == t[|t| - 1];
  }

  lemma HeadingIdempotent(l: string)
    requires IsHeading(l)
    ensures FormatLine(FormatLine(l)) == FormatLine(l) <==> !BlankItem(FormatLine(l))
  {
    StripIsStripped(l[Hashes(l)..]);
    HeadingForm(l[..Hashes(l)], Strip(l[Hashes(l)..]));
  }

  lemma ListIdempotent(l: string)
    requires !IsHeading(l) && IsListItem(l)
    ensures FormatLine(FormatLine(l)) == FormatLine(l) <==> !BlankItem(FormatLine(l))
  {
    StripIsStripped(l[LeadingSpaces(l) + 1..]);
    ListForm(LeadingSpaces(l), l[LeadingSpaces(l)], Strip(l[LeadingSpaces(l) + 1..]));
  }

  lemma QuoteIdempotent(l: string)
    requires !IsHeading(l) && !IsListItem(l) && IsQuote(l)
    ensures FormatLine(FormatLine(l)) == FormatLine(l) && !BlankItem(FormatLine(l))
  {
    var t := Strip(l[LeadingSpaces(l) + 1..]);
    StripIsStripped(l[LeadingSpaces(l) + 1..]);
    QuoteFixed(t);
    var o := "> " + t;
    assert o[0] == '>';
    if t != [] { assert o[|o| - 1] == t[|t| - 1]; }
  }

  lemma PlainIdempotent(l: string)
    requires !IsHeading(l) && !IsListItem(l) && !IsQuote(l)
    ensures FormatLine(FormatLine(l)) == FormatLine(l) && !BlankItem(FormatLine(l))
  {
    var o := Strip(Collapse(l));
    assert FormatLine(l) == o;
    PlainSpaced(l);
    if o != [] && o[0] == '>' {
      if LeadingSpaces(l) == |l| { PlainBlank(l); }
      PlainHead(l);
      PlainQuoteMark(l);
    }
    SpacedFixed(o);
  }

  /** Formatting a line twice gives the same line exactly when the first pass does not leave a
      blank heading or list item (such as "#   " -> "# " -> "#"). */
  lemma FormatLineIdempotent(l: string)
    ensures FormatLine(FormatLine(l)) == FormatLine(l) <==> !BlankItem(FormatLine(l))
  {
    if IsHeading(l) {
      HeadingIdempotent(l);
    } else if IsListItem(l) {
      ListIdempotent(l);
    } else if IsQuote(l) {
      QuoteIdempotent(l);
    } else {
      PlainIdempotent(l);
    }
  }

  // ---------------------------------------------------------------------------------------------
  // Whole documents

  lemma FormatLineNoBreaks(l: string)
    requires NoBreaks(l)
    ensures NoBreaks(FormatLine(l))
  {
    if IsHeading(l) {
      HeadingNoBreaks(l);
    } else if IsListItem(l) {
      ListNoBreaks(l);
    } else if IsQuote(l) {
      QuoteNoBreaks(l);
    } else {
      PlainNoBreaks(l);
    }
  }

  lemma HeadingNoBreaks(l: string)
    requires NoBreaks(l) && IsHeading(l)
    ensures NoBreaks(FormatLine(l))
  {
    NoBreaksSlice(l, 0, Hashes(l));
    NoBreaksSlice(l, Hashes(l), |l|);
    StripNoBreaks(l[Hashes(l)..]);
    NoBreaksParts(l[..Hashes(l)], Strip(l[Hashes(l)..]));
  }

  lemma ListNoBreaks(l: string)
    requires NoBreaks(l) && !IsHeading(l) && IsListItem(l)
    ensures NoBreaks(FormatLine(l))
  {
    var i := LeadingSpaces(l);
    NoBreaksSlice(l, i + 1, |l|);
    StripNoBreaks(l[i + 1..]);
    NoBreaksParts(Spaces(i) + [l[i]], Strip(l[i + 1..]));
  }

  lemma QuoteLine(l: string)
    requires !IsHeading(l) && !IsListItem(l) && IsQuote(l)
    ensures FormatLine(l) == "> " + Strip(l[LeadingSpaces(l) + 1..])
  {
  }

  lemma QuoteNoBreaks(l: string)
    requires NoBreaks(l) && !IsHeading(l) && !IsListItem(l) && IsQuote(l)
    ensures NoBreaks(FormatLine(l))
  {
    QuoteLine(l);
    QuoteRestNoBreaks(l);
  }

  lemma QuoteRestNoBreaks(l: string)
    requires NoBreaks(l) && IsQuote(l)
    ensures NoBreaks("> " + Strip(l[LeadingSpaces(l) + 1..]))
  {
    var i := LeadingSpaces(l);
    NoBreaksSlice(l, i + 1, |l|);
    StripNoBreaks(l[i + 1..]);
    QuoteMarkNoBreaks("> ");
    NoBreaksCat("> ", Strip(l[i + 1..]));
  }

  /** Formatting the formatted lines again gives them back when no line came out blank. */
  lemma {:induction false} FormatLinesIdempotent(ls: seq<string>)
    requires forall k :: 0 <= k < |ls| ==> !BlankItem(FormatLines(ls)[k])
    ensures FormatLines(FormatLines(ls)) == FormatLines(ls)
    decreases |ls|
  {
    if ls != [] {
      var init := ls[..|ls| - 1];
      var out := FormatLines(ls);
      assert out == FormatLines(init) + [FormatLine(ls[|ls| - 1])];
      assert forall k :: 0 <= k < |init| ==> FormatLines(init)[k] == out[k];
      FormatLinesIdempotent(init);
      FormatLineIdempotent(ls[|ls| - 1]);
      assert out[..|out| - 1] == FormatLines(init);
    }
  }

  /** Formatting an already formatted document changes nothing, provided no line came out as a
      blank heading or list item and the last line did not come out empty (an empty last line
      disappears when the joined text is split again: "a\n " -> "a\n" -> "a"). */
  lemma FormatDocIdempotent(content: string)
    requires forall k :: 0 <= k < |SplitLines(content)| ==> !BlankItem(FormatLines(SplitLines(content))[k])
    requires SplitLines(content) != [] ==> FormatLines(SplitLines(content))[|SplitLines(content)| - 1] != ""
    ensures FormatDoc(FormatDoc(content)) == FormatDoc(content)
  {
    var ls := SplitLines(content);
    var out := FormatLines(ls);
    forall k | 0 <= k < |out| ensures NoBreaks(out[k]) {
      FormatLinesAt(ls, k);
      FormatLineNoBreaks(ls[k]);
    }
    SplitLinesJoin(out);
    FormatLinesIdempotent(ls);
  }

  /** "#   " -> "# " -> "#": a blank heading shrinks on every pass. */
  lemma BlankHeadingExample()
    ensures FormatLine("#   ") == "# " && FormatLine("# ") == "#"
  {
    assert Hashes("#   ") == 1;
    assert IsHeading("#   ");
    assert "#   "[1..] == "   " && "#   "[..1] == "#";
    StripAllSpace("   ");
    BlankHeadingShrinks("#");
  }

  lemma SplitTwoLines()
    ensures SplitLines("a\n ") == ["a", " "]
  {
    LineEndAt("a", "\n ");
    assert "a" + "\n " == "a\n ";
    assert "a\n "[2..] == " ";
    assert "a\n "[..1] == "a";
    assert LineEnd(" ") == 1;
  }

  lemma SplitOneLine()
    ensures SplitLines("a\n") == ["a"]
  {
    LineEndAt("a", "\n");
    assert "a" + "\n" == "a\n";
    assert "a\n"[2..] == [];
    assert "a\n"[..1] == "a";
  }

  lemma FormatSingleLetter()
    ensures FormatLine("a") == "a"
  {
    assert LeadingSpaces("a") == 0 && Hashes("a") == 0;
    assert !IsHeading("a") && !IsListItem("a") && !IsQuote("a");
    assert Spaced("a");
    CollapseOfSpaced("a");
    StripOfStripped("a");
  }

  lemma FormatBlankLine()
    ensures FormatLine(" ") == ""
  {
    assert LeadingSpaces(" ") == 1 && Hashes(" ") == 0;
    assert !IsHeading(" ") && !IsListItem(" ") && !IsQuote(" ");
    PlainBlank(" ");
  }

  lemma FormatTwoLines()
    ensures FormatLines(["a", " "]) == ["a", ""]
  {
    FormatSingleLetter();
    FormatBlankLine();
    FormatPair("a", " ");
  }

  lemma FormatOne(x: string)
    ensures FormatLines([x]) == [FormatLine(x)]
  {
    assert FormatLines([x]) == FormatLines([]) + [FormatLine(x)];
  }

  lemma FormatPair(x: string, y: string)
    ensures FormatLines([x, y]) == [FormatLine(x), FormatLine(y)]
  {
    assert [x, y][..1] == [x];
    FormatOne(x);
  }

  /** "a\n " -> "a\n" -> "a": a last line that comes out empty vanishes on the next pass. */
  lemma EmptyLastLineExample()
    ensures FormatDoc("a\n ") == "a\n" && FormatDoc("a\n") == "a"
  {
    FirstPassDropsBlank();
    SecondPassDropsNewline();
  }

  lemma FirstPassDropsBlank()
    ensures FormatDoc("a\n ") == "a\n"
  {
    SplitTwoLines();
    FormatTwoLines();
    FormatDocVia("a\n ", ["a", " "], ["a", ""]);
    JoinPair("a", "", "\n");
    assert "a" + "\n" + "" == "a\n";
  }

  lemma FormatDocVia(c: string, ls: seq<string>, out: seq<string>)
    requires SplitLines(c) == ls && FormatLines(ls) == out
    ensures FormatDoc(c) == Join(out, "\n")
  {
  }

  lemma SecondPassDropsNewline()
    ensures FormatDoc("a\n") == "a"
  {
    SplitOneLine();
    FormatSingleLetter();
    FormatOne("a");
  }

  lemma JoinPair(x: string, y: string, sep: string)
    ensures Join([x, y], sep) == x + sep + y
  {
    assert [x, y][1..] == [y];
  }
}
