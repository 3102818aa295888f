/** `FileProcessor._process_file_replacement`: every case-insensitive "IITM" in the text and
    markdown members of an archive becomes "IIT Madras", and the digest is taken of the results
    joined with newlines. */
module Replacement {
  import opened Wrappers
  import opened PyStrings
  import opened Records

  // ---------------------------------------------------------------------------------------------
  // `re.sub(r'(?i)IITM', 'IIT Madras', s)`

  /** Characters the pattern letter `I` matches under IGNORECASE: besides `i` and `I`, Python's
      case-insensitive matcher pairs `i` with dotless `ı` (U+0131), and `İ` (U+0130) lowers to `i`. */
  predicate ILike(c: char) {
    c == 'i' || c == 'I' || c == 'İ' || c == 'ı'
  }

  predicate TLike(c: char) {
    c == 't' || c == 'T'
  }

  predicate MLike(c: char) {
    c == 'm' || c == 'M'
  }

  /** The pattern matches the four characters at position `j`. */
  predicate MatchesAt(s: string, j: int) {
    0 <= j && j + 4 <= |s| && ILike(s[j]) && ILike(s[j + 1]) && TLike(s[j + 2]) && MLike(s[j + 3])
  }

  /** No position of `s` starts a match. */
  predicate Clean(s: string) {
    forall j :: 0 <= j < |s| ==> !MatchesAt(s, j)
  }

  const Madras := "IIT Madras"

  /** The scan of `re.sub`: leftmost match first, continuing after it, matches never overlapping. */
  function ReplaceIitm(s: string): (r: string)
    ensures |r| >= |s|
    decreases |s|
  {
    if |s| < 4 then s
    else if MatchesAt(s, 0) then Madras + ReplaceIitm(s[4..])
    else [s[0]] + ReplaceIitm(s[1..])
  }

  /** When the output begins like the tail "ITM" of a match, so does the input. */
  lemma ItmPrefix(t: string)
    requires |ReplaceIitm(t)| >= 3
    requires ILike(ReplaceIitm(t)[0]) && TLike(ReplaceIitm(t)[1]) && MLike(ReplaceIitm(t)[2])
    ensures |t| >= 3 && ILike(t[0]) && TLike(t[1]) && MLike(t[2])
  {
    if |t| >= 4 && !MatchesAt(t, 0) {
      TmPrefix(t[1..]);
    }
  }

  lemma TmPrefix(u: string)
    requires |ReplaceIitm(u)| >= 2 && TLike(ReplaceIitm(u)[0]) && MLike(ReplaceIitm(u)[1])
    ensures |u| >= 2 && TLike(u[0]) && MLike(u[1])
  {
    if |u| >= 4 && !MatchesAt(u, 0) {
      MPrefix(u[1..]);
    }
  }

  lemma MPrefix(v: string)
    requires |ReplaceIitm(v)| >= 1 && MLike(ReplaceIitm(v)[0])
    ensures |v| >= 1 && MLike(v[0])
  {
  }

  /** After the replacement no case-insensitive "iitm" is left anywhere: "IIT Madras" contains
      none, and none can straddle its ends. */
  lemma {:induction false} ReplacedClean(s: string)
    ensures Clean(ReplaceIitm(s))
    decreases |s|
  {
    var r := ReplaceIitm(s);
    if |s| < 4 {
    } else if MatchesAt(s, 0) {
      ReplacedClean(s[4..]);
      var rest := ReplaceIitm(s[4..]);
      assert r == Madras + rest;
      forall j ensures !MatchesAt(r, j) {
        if 10 <= j {
          assert !MatchesAt(rest, j - 10);
        }
      }
    } else {
      ReplacedClean(s[1..]);
      var rest := ReplaceIitm(s[1..]);
      assert r == [s[0]] + rest;
      forall j ensures !MatchesAt(r, j) {
        if j == 0 && MatchesAt(r, 0) {
          ItmPrefix(s[1..]);
          assert false;
        } else if 1 <= j {
          assert !MatchesAt(rest, j - 1);
        }
      }
    }
  }

  /** The replacement changes the text exactly when the text contains a match. */
  lemma {:induction false} ReplaceIdentity(s: string)
    ensures ReplaceIitm(s) == s <==> Clean(s)
    decreases |s|
  {
    if |s| < 4 {
    } else if MatchesAt(s, 0) {
      assert |ReplaceIitm(s)| > |s|;
    } else {
      ReplaceIdentity(s[1..]);
      if Clean(s) {
        forall j ensures !MatchesAt(s[1..], j) {
          assert !MatchesAt(s, j + 1);
        }
        assert ReplaceIitm(s) == [s[0]] + s[1..];
      } else {
        var j :| 0 <= j < |s| && MatchesAt(s, j);
        assert j >= 1;
        var t := s[1..];
        assert t[j - 1] == s[j] && t[j] == s[j + 1] && t[j + 1] == s[j + 2] && t[j + 2] == s[j + 3];
        assert MatchesAt(t, j - 1);
        assert ReplaceIitm(s[1..]) != s[1..];
        assert ReplaceIitm(s)[1..] == ReplaceIitm(s[1..]);
      }
    }
  }

  /** Replacing twice is replacing once. */
  lemma ReplaceIdempotent(s: string)
    ensures ReplaceIitm(ReplaceIitm(s)) == ReplaceIitm(s)
  {
    ReplacedClean(s);
    ReplaceIdentity(ReplaceIitm(s));
  }

  /** Every spelling is replaced, and the rest of the text is left as it is. */
  lemma MixedCaseExample()
    ensures ReplaceIitm("iItM") == Madras
    ensures ReplaceIitm("xIITM") == "xIIT Madras"
  {
    assert MatchesAt("iItM", 0);
    assert !MatchesAt("xIITM", 0);
    assert "xIITM"[1..] == "IITM";
    assert MatchesAt("IITM", 0);
  }

  /** A newline is none of the pattern's letters, so no match straddles a join. */
  lemma {:induction false} JoinClean(parts: seq<string>)
    requires forall k :: 0 <= k < |parts| ==> Clean(parts[k])
    ensures Clean(Join(parts, "\n"))
  {
    if |parts| > 1 {
      JoinClean(parts[1..]);
      var a := parts[0];
      var b := Join(parts[1..], "\n");
      var s := Join(parts, "\n");
      assert s == a + "\n" + b;
      forall j ensures !MatchesAt(s, j) {
        if j + 4 <= |a| {
          assert !MatchesAt(a, j);
        } else if j <= |a| && j + 4 <= |s| {
          assert s[|a|] == '\n';
          assert !MatchesAt(s, j);
        } else if j > |a| {
          assert !MatchesAt(b, j - |a| - 1);
        }
      }
    }
  }

  // ---------------------------------------------------------------------------------------------
  // The loop over the archive's members

  /** `re.sub` on a member whose `content` is None. */
  const NotAString := "expected string or bytes-like object"

  /** The members whose content is used: `text` and `markdown` ones; html, csv and the rest are skipped. */
  predicate Used(m: Member) {
    m.info.kind == Kind.Text || m.info.kind == Kind.Markdown
  }

  /** One iteration of the loop, after the iterations before it gave `acc`. */
  function Step(acc: Result<seq<string>>, m: Member): (r: Result<seq<string>>)
    ensures acc.Err? ==> r.Err?
  {
    if acc.Err? || !Used(m) then acc
    else if m.info.content.None? then Err(NotAString)
    else Ok(acc.value + [ReplaceIitm(m.info.content.value)])
  }

  /** The replaced contents of the used members, in member order, or the error of the first used
      member whose content is None. */
  function ReplacedParts(ms: seq<Member>): Result<seq<string>> {
    if ms == [] then Ok([]) else Step(ReplacedParts(ms[..|ms| - 1]), ms[|ms| - 1])
  }

  /** `_process_file_replacement(file_info)`. */
  function ReplacementDigest(env: Env, info: FileInfo): Result<string> {
    match ReplacedParts(info.extractedContent.GetOr([]))
    case Ok(parts) => Ok(env.sha256(Join(parts, "\n")))
    case Err(e) => Err(e)
  }

  /** The only error is `NotAString`, and it arises exactly when some used member has no content. */
  lemma {:induction false} ReplacedPartsOk(ms: seq<Member>)
    ensures ReplacedParts(ms).Ok? <==> forall k :: 0 <= k < |ms| && Used(ms[k]) ==> ms[k].info.content.Some?
    ensures ReplacedParts(ms).Err? ==> ReplacedParts(ms) == Err(NotAString)
  {
    if ms != [] {
      var init := ms[..|ms| - 1];
      ReplacedPartsOk(init);
      assert forall k :: 0 <= k < |init| ==> init[k] == ms[k];
    }
  }

  /** Each part is the replaced content of a used member, and the parts come in member order:
      the k-th part belongs to the k-th used member. */
  lemma {:induction false} ReplacedPartsOrder(ms: seq<Member>, m: Member)
    requires ReplacedParts(ms).Ok?
    ensures Used(m) && m.info.content.Some? ==>
      ReplacedParts(ms + [m]) == Ok(ReplacedParts(ms).value + [ReplaceIitm(m.info.content.value)])
    ensures !Used(m) ==> ReplacedParts(ms + [m]) == ReplacedParts(ms)
  {
    assert (ms + [m])[..|ms|] == ms;
  }

  /** The text that is hashed contains no case-insensitive "iitm". */
  lemma {:induction false} DigestInputClean(ms: seq<Member>)
    requires ReplacedParts(ms).Ok?
    ensures Clean(Join(ReplacedParts(ms).value, "\n"))
  {
    PartsClean(ms);
    JoinClean(ReplacedParts(ms).value);
  }

  lemma {:induction false} PartsClean(ms: seq<Member>)
    requires ReplacedParts(ms).Ok?
    ensures forall k :: 0 <= k < |ReplacedParts(ms).value| ==> Clean(ReplacedParts(ms).value[k])
  {
    if ms != [] {
      var init := ms[..|ms| - 1];
      var m := ms[|ms| - 1];
      PartsClean(init);
      if Used(m) {
        ReplacedClean(m.info.content.value);
      }
    }
  }

  /** An error in the prefix is the error of the whole loop. */
  lemma {:induction false} ErrPersists(ms: seq<Member>, i: nat)
    requires i <= |ms| && ReplacedParts(ms[..i]).Err?
    ensures ReplacedParts(ms).Err?
    decreases |ms| - i
  {
    if i < |ms| {
      assert ms[..i + 1][..i] == ms[..i];
      ErrPersists(ms, i + 1);
    } else {
      assert ms[..i] == ms;
    }
  }

  /** The loop as the source writes it: `result` grows one used member at a time. */
  method ProcessFileReplacement(env: Env, info: FileInfo) returns (r: Result<string>)
    ensures r == ReplacementDigest(env, info)
  {
    var ms := info.extractedContent.GetOr([]);
    var result: seq<string> := [];
    for i := 0 to |ms|
      invariant ReplacedParts(ms[..i]) == Ok(result)
    {
      assert ms[..i + 1][..i] == ms[..i];
      var m := ms[i];
      if m.info.kind == Kind.Text || m.info.kind == Kind.Markdown {
        if m.info.content.None? {
          ErrPersists(ms, i + 1);
          ReplacedPartsOk(ms);
          return Err(NotAString);
        }
        result := result + [ReplaceIitm(m.info.content.value)];
      }
    }
    assert ms[..|ms|] == ms;
    var combined := Join(result, "\n");
    r := Ok(env.sha256(combined));
  }
}
