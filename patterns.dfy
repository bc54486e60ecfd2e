/**
 * The `re.sub(pattern, repl, text)` calls of the modelled code, each given its exact meaning as a
 * function on strings. Python's `re` finds the leftmost match, replaces it and carries on after it;
 * `.` does not match a newline and `$` matches at the end or just before a final newline.
 *
 *   `<[^>]+>`                                      -> RemoveTags
 *   `\s+` replaced by one space                    -> CollapseSpaces
 *   `\s*<\s*[^<]*<\s*[^<]*<\s*[^<]*<\s*기사본문.*$`  -> CutArticleCrumb
 *   `\s*<\s*[^<]*<\s*[^<]*<\s*[^<]*$`               -> CutLastLts(x, 3)
 *   `\s*<\s*[^<]*<\s*[^<]*$`                        -> CutLastLts(x, 2)
 *   `\s*<\s*[^<]*$`                                 -> CutLastLts(x, 1)
 *   `\s*\|\s*.*$` and `\s*-\s*.*$`                  -> CutAtMarker(x, '|'), CutAtMarker(x, '-')
 */
module Patterns {
  import opened Text

  // ---------------------------------------------------------------------------
  // Searching for one character
  // ---------------------------------------------------------------------------

  /** The first index at or after `i` that holds `c`, or `|s|` when there is none. */
  function Find(s: string, c: char, i: int): (j: int)
    requires 0 <= i <= |s|
    ensures i <= j <= |s|
    ensures j < |s| ==> s[j] == c
    ensures forall k :: i <= k < j ==> s[k] != c
    decreases |s| - i
  {
    if i == |s| then |s| else if s[i] == c then i else Find(s, c, i + 1)
  }

  // ---------------------------------------------------------------------------
  // `<[^>]+>` replaced by ""
  // ---------------------------------------------------------------------------

  /** A match of `<[^>]+>` starts at `i`: a `<`, at least one character, then the first `>` after it. */
  predicate TagAt(s: string, i: int)
    requires 0 <= i < |s|
  {
    s[i] == '<' && i + 1 < |s| && i + 1 < Find(s, '>', i + 1) < |s|
  }

  predicate TagFree(s: string) {
    forall i :: 0 <= i < |s| ==> !TagAt(s, i)
  }

  /** `re.sub(r"<[^>]+>", "", s)`. */
  function RemoveTags(s: string): (r: string)
    ensures forall c :: c in r ==> c in s
    decreases |s|
  {
    if s == [] then []
    else if TagAt(s, 0) then
      var rest := s[Find(s, '>', 1) + 1..];
      assert forall c :: c in rest ==> c in s;
      RemoveTags(rest)
    else
      assert forall c :: c in s[1..] ==> c in s;
      [s[0]] + RemoveTags(s[1..])
  }

  lemma {:induction false} FindShift(c0: char, r: string, c: char, i: int)
    requires 0 <= i <= |r|
    ensures Find([c0] + r, c, i + 1) == Find(r, c, i) + 1
    decreases |r| - i
  {
    if i < |r| && r[i] != c {
      FindShift(c0, r, c, i + 1);
    }
  }

  lemma {:induction false} FindAbsent(s: string, c: char, i: int)
    requires 0 <= i <= |s| && c !in s
    ensures Find(s, c, i) == |s|
  {
  }

  /** What is left after the tags are taken out holds no tag itself. */
  lemma {:induction false} RemoveTagsTagFree(s: string)
    ensures TagFree(RemoveTags(s))
    decreases |s|
  {
    if s == [] {
    } else if TagAt(s, 0) {
      RemoveTagsTagFree(s[Find(s, '>', 1) + 1..]);
    } else {
      var r := RemoveTags(s[1..]);
      RemoveTagsTagFree(s[1..]);
      var out := [s[0]] + r;
      assert out == RemoveTags(s);
      forall i | 0 <= i < |out| ensures !TagAt(out, i) {
        if i == 0 {
          if s[0] == '<' && |out| > 1 {
            if Find(s, '>', 1) == 1 {
              assert s[1] == '>';
              assert !TagAt(s[1..], 0);
              assert r[0] == '>';
              assert out[1] == '>';
            } else {
              assert Find(s, '>', 1) == |s|;
              assert '>' !in s[1..];
              assert '>' !in r;
              FindAbsent(r, '>', 0);
              FindShift(s[0], r, '>', 0);
            }
          }
        } else {
          FindShift(s[0], r, '>', i);
          assert out[i] == r[i - 1];
          if i < |r| {
            assert !TagAt(r, i - 1);
          }
        }
      }
    }
  }

  /** A contiguous piece of a tag-free string is tag-free. */
  lemma TagFreeSlice(s: string, a: int, b: int)
    requires 0 <= a <= b <= |s| && TagFree(s)
    ensures TagFree(s[a..b])
  {
    var r := s[a..b];
    forall i | 0 <= i < |r| ensures !TagAt(r, i) {
      if TagAt(r, i) {
        var j := Find(r, '>', i + 1);
        FindSlice(s, a, b, i + 1);
        assert TagAt(s, a + i);
      }
    }
  }

  lemma {:induction false} FindSlice(s: string, a: int, b: int, i: int)
    requires 0 <= a <= b <= |s| && 0 <= i <= b - a
    ensures Find(s[a..b], '>', i) < b - a ==> Find(s, '>', a + i) == a + Find(s[a..b], '>', i)
    decreases b - a - i
  {
    if i < b - a && s[a + i] != '>' {
      FindSlice(s, a, b, i + 1);
    }
  }

  // ---------------------------------------------------------------------------
  // `\s+` replaced by " "
  // ---------------------------------------------------------------------------

  /** No two whitespace characters stand next to each other. */
  predicate SingleSpaced(s: string) {
    forall i :: 0 <= i < |s| - 1 ==> !(IsSpace(s[i]) && IsSpace(s[i + 1]))
  }

  /** `re.sub(r"\s+", " ", s)`: every run of whitespace becomes one space. */
  function CollapseSpaces(s: string): (r: string)
    ensures SingleSpaced(r)
    ensures forall c :: c in r && IsSpace(c) ==> c == ' '
    ensures r != [] && IsSpace(r[0]) ==> s != [] && IsSpace(s[0])
    ensures r != [] ==> s != []
    decreases |s|
  {
    if s == [] then []
    else if IsSpace(s[0]) then
      var t := TrimStart(s);
      assert |t| < |s|;
      [' '] + CollapseSpaces(t)
    else [s[0]] + CollapseSpaces(s[1..])
  }

  lemma SingleSpacedSlice(s: string, a: int, b: int)
    requires 0 <= a <= b <= |s| && SingleSpaced(s)
    ensures SingleSpaced(s[a..b])
  {
    var r := s[a..b];
    forall i | 0 <= i < |r| - 1 ensures !(IsSpace(r[i]) && IsSpace(r[i + 1])) {
      assert r[i] == s[a + i] && r[i + 1] == s[a + i + 1];
    }
  }

  // ---------------------------------------------------------------------------
  // Breadcrumb suffixes: `\s*<\s*[^<]*...$`
  // ---------------------------------------------------------------------------

  function CountLt(s: string): (n: nat)
    ensures n <= |s|
    decreases |s|
  {
    if s == [] then 0 else (if s[0] == '<' then 1 else 0) + CountLt(s[1..])
  }

  /** The index of the `j`-th `<` of `s` (counting from 0). */
  function NthLt(s: string, j: nat): (q: nat)
    requires j < CountLt(s)
    ensures q < |s| && s[q] == '<'
    decreases |s|
  {
    if s[0] == '<' then (if j == 0 then 0 else 1 + NthLt(s[1..], j - 1))
    else 1 + NthLt(s[1..], j)
  }

  /** The text before the `j`-th `<`, with the whitespace in front of that `<` taken off. */
  function CutBeforeNthLt(s: string, j: nat): string
    requires j < CountLt(s)
  {
    TrimEnd(s[..NthLt(s, j)])
  }

  /**
   * The pattern made of `k` times `\s*<` and `[^<]*`, ending in `$`: it can only match the last `k`
   * occurrences of `<` together with everything after them, so it cuts before the `k`-th last `<`.
   */
  function CutLastLts(s: string, k: nat): string
    requires 1 <= k
  {
    var n := CountLt(s);
    if n >= k then CutBeforeNthLt(s, n - k) else s
  }

  /** A `.*$` tail: no newline, except possibly as the very last character. */
  predicate LineTail(v: string) {
    forall k :: 0 <= k < |v| - 1 ==> v[k] != '\n'
  }

  /** What a `.*$` match leaves behind of a tail it accepts: the final newline, if there is one. */
  function FinalNewline(v: string): string {
    if v != [] && v[|v| - 1] == '\n' then "\n" else ""
  }

  const ArticleBody: string := "기사본문"

  /** The `k`-th `<` (counting from 0) at or after `i`, or `|s|` when there are not that many. */
  function LtAfter(s: string, i: int, k: nat): (j: int)
    requires 0 <= i <= |s|
    ensures i <= j <= |s|
    ensures j < |s| ==> s[j] == '<'
    decreases k
  {
    var f := Find(s, '<', i);
    if k == 0 || f == |s| then f else LtAfter(s, f + 1, k - 1)
  }

  /** The text after the fourth `<` of a breadcrumb starting at `a`, with leading whitespace skipped. */
  function CrumbTail(s: string, a: int): string
    requires 0 <= a < |s|
  {
    TailAfter(s, LtAfter(s, a + 1, 2))
  }

  /** The text after the `<` at `d`, with leading whitespace skipped; nothing when there is no such `<`. */
  function TailAfter(s: string, d: int): string
    requires 0 <= d <= |s|
  {
    if d < |s| then TrimStart(s[d + 1..]) else ""
  }

  /** `\s*<\s*[^<]*<\s*[^<]*<\s*[^<]*<\s*기사본문.*$` matches with its first `<` at `a`. */
  predicate CrumbAt(s: string, a: int)
    requires 0 <= a < |s|
  {
    var t := CrumbTail(s, a);
    s[a] == '<' && LtAfter(s, a + 1, 2) < |s| && StartsWith(t, ArticleBody) && LineTail(t[|ArticleBody|..])
  }

  /** The leftmost `a` at or after `i` where the breadcrumb pattern matches, or `|s|`. */
  function FirstCrumb(s: string, i: int): (a: int)
    requires 0 <= i <= |s|
    ensures i <= a <= |s|
    ensures a < |s| ==> CrumbAt(s, a)
    ensures forall k :: i <= k < a ==> !CrumbAt(s, k)
    decreases |s| - i
  {
    if i == |s| then |s| else if CrumbAt(s, i) then i
    else
      var a := FirstCrumb(s, i + 1);
      NoCrumbBefore(s, i, a);
      a
  }

  /** No match at `i` and none from `i + 1` up to `a`: none from `i` up to `a`. */
  lemma NoCrumbBefore(s: string, i: int, a: int)
    requires 0 <= i < a <= |s| && !CrumbAt(s, i)
    requires forall k :: i + 1 <= k < a ==> !CrumbAt(s, k)
    ensures forall k :: i <= k < a ==> !CrumbAt(s, k)
  {
    forall k | i <= k < a ensures !CrumbAt(s, k) {
      if k != i {
        assert i + 1 <= k < a;
      }
    }
  }

  /** `re.sub(r"\s*<\s*[^<]*<\s*[^<]*<\s*[^<]*<\s*기사본문.*$", "", s)`. */
  function CutArticleCrumb(s: string): string {
    var a := FirstCrumb(s, 0);
    if a == |s| then s
    else TrimEnd(s[..a]) + FinalNewline(CrumbTail(s, a)[|ArticleBody|..])
  }

  // ---------------------------------------------------------------------------
  // Marker suffixes: `\s*\|\s*.*$` and `\s*-\s*.*$`
  // ---------------------------------------------------------------------------

  /** `\s*M\s*.*$` matches with its marker `M` at `q`. */
  predicate MarkerAt(s: string, m: char, q: int)
    requires 0 <= q < |s|
  {
    s[q] == m && LineTail(TrimStart(s[q + 1..]))
  }

  function FirstMarker(s: string, m: char, i: int): (q: int)
    requires 0 <= i <= |s|
    ensures i <= q <= |s|
    ensures q < |s| ==> MarkerAt(s, m, q)
    ensures forall k :: i <= k < q ==> !MarkerAt(s, m, k)
    decreases |s| - i
  {
    if i == |s| then |s| else if MarkerAt(s, m, i) then i
    else
      var q := FirstMarker(s, m, i + 1);
      NoMarkerBefore(s, m, i, q);
      q
  }

  /** No marker match at `i` and none from `i + 1` up to `q`: none from `i` up to `q`. */
  lemma NoMarkerBefore(s: string, m: char, i: int, q: int)
    requires 0 <= i < q <= |s| && !MarkerAt(s, m, i)
    requires forall k :: i + 1 <= k < q ==> !MarkerAt(s, m, k)
    ensures forall k :: i <= k < q ==> !MarkerAt(s, m, k)
  {
    forall k | i <= k < q ensures !MarkerAt(s, m, k) {
      if k != i {
        assert i + 1 <= k < q;
      }
    }
  }

  /** `re.sub(r"\s*M\s*.*$", "", s)` for the marker `M`. */
  function CutAtMarker(s: string, m: char): string {
    var q := FirstMarker(s, m, 0);
    if q == |s| then s
    else TrimEnd(s[..q]) + FinalNewline(TrimStart(s[q + 1..]))
  }

  /** The breadcrumb deletions in the order both title cleaners apply them. */
  function CutBreadcrumbs(s: string): string {
    CutLastLts(CutLastLts(CutLastLts(CutArticleCrumb(s), 3), 2), 1)
  }

  // ---------------------------------------------------------------------------
  // What every deletion keeps: a prefix of its input, up to trailing whitespace
  // ---------------------------------------------------------------------------

  /** `t` is, once trailing whitespace is ignored, a prefix of `s`. */
  ghost predicate TrimmedPrefixOf(t: string, s: string) {
    exists p :: 0 <= p <= |s| && TrimEnd(t) == TrimEnd(s[..p])
  }

  lemma TrimmedPrefixRefl(s: string)
    ensures TrimmedPrefixOf(s, s)
  {
    assert s[..|s|] == s;
  }

  lemma TrimEndIdempotent(s: string)
    ensures TrimEnd(TrimEnd(s)) == TrimEnd(s)
  {
    TrimEndOfStripped(TrimEnd(s));
  }

  /** A prefix of `t` is a prefix of `t`'s trimmed form, or trims to that form. */
  lemma TrimEndOfPrefix(t: string, p: int)
    requires 0 <= p <= |t|
    ensures p <= |TrimEnd(t)| ==> t[..p] == TrimEnd(t)[..p]
    ensures p > |TrimEnd(t)| ==> TrimEnd(t[..p]) == TrimEnd(t)
  {
    var w := TrimEnd(t);
    if p > |w| {
      var gap := t[|w|..p];
      AllSpaceSlice(t[|w|..], 0, p - |w|);
      assert gap == t[|w|..][0..p - |w|];
      assert t[..p] == w + gap;
      TrimEndAppendSpace(w, gap);
      TrimEndIdempotent(t);
    }
  }

  lemma TrimmedPrefixTrans(u: string, t: string, s: string)
    requires TrimmedPrefixOf(u, t) && TrimmedPrefixOf(t, s)
    ensures TrimmedPrefixOf(u, s)
  {
    var p1 :| 0 <= p1 <= |t| && TrimEnd(u) == TrimEnd(t[..p1]);
    var p2 :| 0 <= p2 <= |s| && TrimEnd(t) == TrimEnd(s[..p2]);
    var p := TrimmedPrefixWitness(u, t, s, p1, p2);
  }

  /** The cut of `s` that the two cuts lead to: the first one when it ends inside the second. */
  lemma TrimmedPrefixWitness(u: string, t: string, s: string, p1: int, p2: int) returns (p: int)
    requires 0 <= p1 <= |t| && TrimEnd(u) == TrimEnd(t[..p1])
    requires 0 <= p2 <= |s| && TrimEnd(t) == TrimEnd(s[..p2])
    ensures 0 <= p <= |s| && TrimEnd(u) == TrimEnd(s[..p])
  {
    var w := TrimEnd(t);
    TrimEndOfPrefix(t, p1);
    if p1 <= |w| {
      var sp := s[..p2];
      TrimEndOfPrefix(sp, p1);
      assert sp[..p1] == s[..p1];
      p := p1;
    } else {
      p := p2;
    }
  }

  /** Cutting before `q` and keeping a final newline only: a trimmed prefix of the input. */
  lemma CutIsTrimmedPrefix(s: string, q: int, nl: string)
    requires 0 <= q <= |s| && (nl == "" || nl == "\n")
    ensures TrimmedPrefixOf(TrimEnd(s[..q]) + nl, s)
  {
    assert AllSpace(nl);
    TrimEndAppendSpace(TrimEnd(s[..q]), nl);
    TrimEndIdempotent(s[..q]);
  }

  lemma CutLastLtsPrefix(s: string, k: nat)
    requires 1 <= k
    ensures TrimmedPrefixOf(CutLastLts(s, k), s)
  {
    var n := CountLt(s);
    if n >= k {
      var q := NthLt(s, n - k);
      CutLastLtsCut(s, k, q);
      CutIsTrimmedPrefix(s, q, "");
    } else {
      TrimmedPrefixRefl(s);
    }
  }

  lemma CutArticleCrumbPrefix(s: string)
    ensures TrimmedPrefixOf(CutArticleCrumb(s), s)
  {
    var a := FirstCrumb(s, 0);
    if a == |s| {
      TrimmedPrefixRefl(s);
    } else {
      CutIsTrimmedPrefix(s, a, FinalNewline(CrumbTail(s, a)[|ArticleBody|..]));
    }
  }

  lemma CutAtMarkerPrefix(s: string, m: char)
    ensures TrimmedPrefixOf(CutAtMarker(s, m), s)
  {
    var q := FirstMarker(s, m, 0);
    if q == |s| {
      TrimmedPrefixRefl(s);
    } else {
      CutIsTrimmedPrefix(s, q, FinalNewline(TrimStart(s[q + 1..])));
    }
  }

  lemma CutBreadcrumbsPrefix(s: string)
    ensures TrimmedPrefixOf(CutBreadcrumbs(s), s)
  {
    var s1 := CutArticleCrumb(s);
    var s2 := CutLastLts(s1, 3);
    var s3 := CutLastLts(s2, 2);
    CutArticleCrumbPrefix(s);
    CutLastLtsPrefix(s1, 3);
    CutLastLtsPrefix(s2, 2);
    CutLastLtsPrefix(s3, 1);
    TrimmedPrefixTrans(s2, s1, s);
    TrimmedPrefixTrans(s3, s2, s);
    TrimmedPrefixTrans(CutBreadcrumbs(s), s3, s);
  }

  /** Stripping a trimmed prefix of `s` is stripping some prefix of `s`. */
  lemma StripTrimmedPrefix(t: string, s: string)
    requires TrimmedPrefixOf(t, s)
    ensures exists p :: 0 <= p <= |s| && Strip(t) == Strip(s[..p])
  {
    var p :| 0 <= p <= |s| && TrimEnd(t) == TrimEnd(s[..p]);
    StripTrimEnd(t);
    StripTrimEnd(s[..p]);
  }

  // ---------------------------------------------------------------------------
  // Characters: the deletions never bring in a character the input lacks
  // ---------------------------------------------------------------------------

  lemma CutChars(s: string, q: int, nl: string)
    requires 0 <= q <= |s|
    requires nl == "" || (nl == "\n" && s != [] && s[|s| - 1] == '\n')
    ensures forall c :: c in TrimEnd(s[..q]) + nl ==> c in s
  {
    forall c | c in TrimEnd(s[..q]) + nl ensures c in s {
      if c in TrimEnd(s[..q]) {
        var k :| 0 <= k < |TrimEnd(s[..q])| && TrimEnd(s[..q])[k] == c;
        assert s[k] == c;
      }
    }
  }

  /** The final newline of a non-empty suffix of `s` is the final character of `s`. */
  lemma FinalNewlineOfSuffix(s: string, v: string)
    requires |v| <= |s| && v == s[|s| - |v|..]
    ensures FinalNewline(v) == "" || (FinalNewline(v) == "\n" && s != [] && s[|s| - 1] == '\n')
  {
    if v != [] {
      assert v[|v| - 1] == s[|s| - 1];
    }
  }

  lemma CutLastLtsChars(s: string, k: nat)
    requires 1 <= k
    ensures forall c :: c in CutLastLts(s, k) ==> c in s
  {
    var n := CountLt(s);
    if n >= k {
      var q := NthLt(s, n - k);
      CutLastLtsCut(s, k, q);
      CutChars(s, q, "");
    }
  }

  /** With at least `k` occurrences of `<`, the cut is the trimmed text before the `k`-th last one. */
  lemma CutLastLtsCut(s: string, k: nat, q: int)
    requires 1 <= k <= CountLt(s) && q == NthLt(s, CountLt(s) - k)
    ensures 0 <= q <= |s| && CutLastLts(s, k) == TrimEnd(s[..q]) + ""
  {
    assert TrimEnd(s[..q]) + "" == TrimEnd(s[..q]);
  }

  lemma SuffixTrans(s: string, u: string, v: string)
    requires |u| <= |s| && u == s[|s| - |u|..] && |v| <= |u| && v == u[|u| - |v|..]
    ensures v == s[|s| - |v|..]
  {
  }

  lemma TrimStartOfSuffix(s: string, d: int)
    requires 0 <= d < |s|
    ensures var t := TrimStart(s[d + 1..]); |t| <= |s| && t == s[|s| - |t|..]
  {
    var u := s[d + 1..];
    SuffixTrans(s, u, TrimStart(u));
  }

  lemma CrumbTailSuffix(s: string, a: int)
    requires 0 <= a < |s|
    ensures var t := CrumbTail(s, a); |t| <= |s| && t == s[|s| - |t|..]
  {
    var d := LtAfter(s, a + 1, 2);
    if d < |s| {
      TrimStartOfSuffix(s, d);
    }
  }

  lemma CutArticleCrumbChars(s: string)
    ensures forall c :: c in CutArticleCrumb(s) ==> c in s
  {
    var a := FirstCrumb(s, 0);
    if a < |s| {
      var nl := CrumbNewline(s, a);
      CutChars(s, a, nl);
    }
  }

  /** The newline a breadcrumb match leaves behind is the input's own final newline. */
  lemma CrumbNewline(s: string, a: int) returns (nl: string)
    requires 0 <= a < |s| && CrumbAt(s, a)
    ensures nl == FinalNewline(CrumbTail(s, a)[|ArticleBody|..])
    ensures nl == "" || (nl == "\n" && s != [] && s[|s| - 1] == '\n')
  {
    var t := CrumbTail(s, a);
    var v := t[|ArticleBody|..];
    nl := FinalNewline(v);
    CrumbTailSuffix(s, a);
    SuffixTrans(s, t, v);
    FinalNewlineOfSuffix(s, v);
  }

  lemma CutAtMarkerChars(s: string, m: char)
    ensures forall c :: c in CutAtMarker(s, m) ==> c in s
  {
    var q := FirstMarker(s, m, 0);
    if q < |s| {
      var u := s[q + 1..];
      var v := TrimStart(u);
      var nl := FinalNewline(v);
      assert nl == "" || (nl == "\n" && s != [] && s[|s| - 1] == '\n') by {
        SuffixTrans(s, u, v);
        FinalNewlineOfSuffix(s, v);
      }
      CutChars(s, q, nl);
    }
  }

  lemma CutBreadcrumbsChars(s: string)
    ensures forall c :: c in CutBreadcrumbs(s) ==> c in s
  {
    var s1 := CutArticleCrumb(s);
    var s2 := CutLastLts(s1, 3);
    var s3 := CutLastLts(s2, 2);
    CutArticleCrumbChars(s);
    CutLastLtsChars(s1, 3);
    CutLastLtsChars(s2, 2);
    CutLastLtsChars(s3, 1);
  }

  /** Without the marker the marker deletion changes nothing. */
  lemma CutAtMarkerAbsent(s: string, m: char)
    requires m !in s
    ensures CutAtMarker(s, m) == s
  {
    assert FirstMarker(s, m, 0) == |s|;
  }

  /** What comes before the first `m`, trimmed, holds no `m`. */
  lemma AbsentBeforeFind(s: string, m: char, f: int)
    requires 0 <= f <= |s| && forall k :: 0 <= k < f ==> s[k] != m
    ensures m !in TrimEnd(s[..f])
  {
    var t := TrimEnd(s[..f]);
    forall k | 0 <= k < |t| ensures t[k] != m {
      assert t[k] == s[k];
    }
  }

  /** What is left of a single line after a cut and a left strip is a single line. */
  lemma NoNewlineTail(s: string, i: int)
    requires '\n' !in s && 0 <= i <= |s|
    ensures '\n' !in TrimStart(s[i..])
  {
    var v := TrimStart(s[i..]);
    assert v == s[|s| - |v|..];
    assert forall k :: 0 <= k < |v| ==> v[k] == s[|s| - |v| + k];
  }

  /** A tail without a newline leaves no final newline behind. */
  lemma NoFinalNewline(v: string)
    requires '\n' !in v
    ensures FinalNewline(v) == ""
  {
    assert v == [] || v[|v| - 1] != '\n';
  }

  /** The deletion at the leftmost marker `q`. */
  lemma CutAtMarkerAt(s: string, m: char, q: int)
    requires 0 <= q < |s| && FirstMarker(s, m, 0) == q
    ensures CutAtMarker(s, m) == TrimEnd(s[..q]) + FinalNewline(TrimStart(s[q + 1..]))
  {
  }

  /** On a single line the marker deletion removes the first marker and everything after it. */
  lemma CutAtMarkerSingleLine(s: string, m: char)
    requires '\n' !in s
    ensures m !in CutAtMarker(s, m)
    ensures m in s ==> CutAtMarker(s, m) == TrimEnd(s[..Find(s, m, 0)])
  {
    if m in s {
      var f := Find(s, m, 0);
      assert f < |s| by {
        var k :| 0 <= k < |s| && s[k] == m;
      }
      assert CutAtMarker(s, m) == TrimEnd(s[..f]) by {
        CutAtMarkerFound(s, m, f);
      }
      assert m !in TrimEnd(s[..f]) by {
        AbsentBeforeFind(s, m, f);
      }
    } else {
      CutAtMarkerAbsent(s, m);
    }
  }

  /** On a single line with a marker, the deletion keeps the trimmed text before the first marker. */
  lemma CutAtMarkerFound(s: string, m: char, f: int)
    requires '\n' !in s && f == Find(s, m, 0) && f < |s|
    ensures CutAtMarker(s, m) == TrimEnd(s[..f])
  {
    var v := TrimStart(s[f + 1..]);
    NoNewlineTail(s, f + 1);
    assert FirstMarker(s, m, 0) == f by {
      assert MarkerAt(s, m, f);
    }
    CutAtMarkerAt(s, m, f);
    NoFinalNewline(v);
    assert TrimEnd(s[..f]) + "" == TrimEnd(s[..f]);
  }

  // ---------------------------------------------------------------------------
  // The breadcrumb deletions when there are at most six `<`
  // ---------------------------------------------------------------------------

  lemma {:induction false} CountLtAppend(a: string, b: string)
    ensures CountLt(a + b) == CountLt(a) + CountLt(b)
    decreases |a|
  {
    if a != [] {
      assert (a + b)[0] == a[0];
      assert (a + b)[1..] == a[1..] + b;
      CountLtAppend(a[1..], b);
    } else {
      assert a + b == b;
    }
  }

  lemma {:induction false} CountLtAbsent(s: string)
    requires '<' !in s
    ensures CountLt(s) == 0
    decreases |s|
  {
    if s != [] {
      CountLtAbsent(s[1..]);
    }
  }

  lemma {:induction false} CountLtBeforeNth(s: string, j: nat)
    requires j < CountLt(s)
    ensures CountLt(s[..NthLt(s, j)]) == j
    decreases |s|
  {
    var q := NthLt(s, j);
    if s[0] == '<' {
      if j > 0 {
        CountLtBeforeNth(s[1..], j - 1);
        assert s[..q][1..] == s[1..][..q - 1];
      }
    } else {
      CountLtBeforeNth(s[1..], j);
      assert s[..q][1..] == s[1..][..q - 1];
    }
  }

  /** The `<` of a prefix are the first `<` of the whole text. */
  lemma {:induction false} NthLtOfPrefix(s: string, p: int, i: nat)
    requires 0 <= p <= |s| && i < CountLt(s[..p])
    ensures i < CountLt(s) && NthLt(s[..p], i) == NthLt(s, i)
    decreases |s|
  {
    assert s == s[..p] + s[p..];
    CountLtAppend(s[..p], s[p..]);
    assert s[..p][1..] == s[1..][..p - 1];
    if s[0] == '<' {
      if i > 0 {
        NthLtOfPrefix(s[1..], p - 1, i - 1);
      }
    } else {
      NthLtOfPrefix(s[1..], p - 1, i);
    }
  }

  /** Trailing whitespace holds no `<`. */
  lemma CountLtTrimEnd(z: string)
    ensures CountLt(TrimEnd(z)) == CountLt(z)
  {
    var y := TrimEnd(z);
    var w := z[|y|..];
    assert CountLt(z) == CountLt(y) + CountLt(w) by {
      assert z == y + w;
      CountLtAppend(y, w);
    }
    assert CountLt(w) == 0 by {
      assert AllSpace(w);
      CountLtAbsent(w);
    }
  }

  /** Cutting before the `j`-th `<` leaves exactly the `j` of them in front of it. */
  lemma CutBeforeNthLtCount(s: string, j: nat)
    requires j < CountLt(s)
    ensures CountLt(CutBeforeNthLt(s, j)) == j
  {
    CountLtBeforeNth(s, j);
    CountLtTrimEnd(s[..NthLt(s, j)]);
  }

  /** ... and at the same places, so a later cut before an earlier `<` is the same cut. */
  lemma CutBeforeNthLtEarlier(s: string, j: nat, i: nat)
    requires i < j < CountLt(s)
    ensures CountLt(CutBeforeNthLt(s, j)) == j
    ensures CutBeforeNthLt(CutBeforeNthLt(s, j), i) == CutBeforeNthLt(s, i)
  {
    CutBeforeNthLtCount(s, j);
    var z := s[..NthLt(s, j)];
    var y := TrimEnd(z);
    assert y == s[..|y|] by {
      assert y == z[..|y|];
    }
    NthLtOfPrefix(s, |y|, i);
    assert y[..NthLt(y, i)] == s[..NthLt(s, i)];
  }

  /** One breadcrumb deletion after a cut before the `j`-th `<`. */
  lemma CutLastLtsAfterCut(s: string, j: nat, k: nat)
    requires j < CountLt(s) && 1 <= k
    ensures CutLastLts(CutBeforeNthLt(s, j), k) == if j >= k then CutBeforeNthLt(s, j - k) else CutBeforeNthLt(s, j)
  {
    if j >= k {
      CutLastLtsAfterCutMany(s, j, k);
    } else {
      CutLastLtsAfterCutFew(s, j, k);
    }
  }

  /** With at least `k` of `<` left in front of the cut, the deletion cuts `k` of them further left. */
  lemma CutLastLtsAfterCutMany(s: string, j: nat, k: nat)
    requires 1 <= k <= j < CountLt(s)
    ensures CutLastLts(CutBeforeNthLt(s, j), k) == CutBeforeNthLt(s, j - k)
  {
    var c := CutBeforeNthLt(s, j);
    var i := j - k;
    assert CountLt(c) == j by {
      CutBeforeNthLtCount(s, j);
    }
    assert CutLastLts(c, k) == CutBeforeNthLt(c, i) by {
      CutLastLtsMany(c, k);
    }
    assert CutBeforeNthLt(c, i) == CutBeforeNthLt(s, i) by {
      CutBeforeNthLtEarlier(s, j, i);
    }
  }

  /** With fewer than `k` of `<` left in front of the cut, the deletion changes nothing. */
  lemma CutLastLtsAfterCutFew(s: string, j: nat, k: nat)
    requires j < CountLt(s) && j < k
    ensures CutLastLts(CutBeforeNthLt(s, j), k) == CutBeforeNthLt(s, j)
  {
    var c := CutBeforeNthLt(s, j);
    assert CountLt(c) == j by {
      CutBeforeNthLtCount(s, j);
    }
    CutLastLtsFewer(c, k);
  }

  lemma CutLastLtsMany(c: string, k: nat)
    requires 1 <= k <= CountLt(c)
    ensures CutLastLts(c, k) == CutBeforeNthLt(c, CountLt(c) - k)
  {
  }

  lemma CutLastLtsFewer(c: string, k: nat)
    requires 1 <= k && CountLt(c) < k
    ensures CutLastLts(c, k) == c
  {
  }

  lemma CutArticleCrumbAbsent(s: string)
    requires !Contains(s, ArticleBody)
    ensures CutArticleCrumb(s) == s
  {
    var a := FirstCrumb(s, 0);
    if a < |s| {
      CrumbTailSuffix(s, a);
      OccursInSuffix(s, CrumbTail(s, a), ArticleBody);
    }
  }

  /** A suffix of `s` that starts with `p` puts `p` in `s`. */
  lemma OccursInSuffix(s: string, t: string, p: string)
    requires |t| <= |s| && t == s[|s| - |t|..] && StartsWith(t, p)
    ensures Contains(s, p)
  {
    assert OccursAt(s, p, |s| - |t|);
    ContainsIff(s, p);
  }

  /**
   * With between one and six `<` and no "기사본문", the breadcrumb deletions together remove
   * everything from the first `<` on.
   */
  lemma CutBreadcrumbsFew(s: string)
    requires 1 <= CountLt(s) <= 6 && !Contains(s, ArticleBody)
    ensures CutBreadcrumbs(s) == CutBeforeNthLt(s, 0)
  {
    CutArticleCrumbAbsent(s);
    CutLastLtsFew(s);
  }

  lemma CutLastLtsFew(s: string)
    requires 1 <= CountLt(s) <= 6
    ensures CutLastLts(CutLastLts(CutLastLts(s, 3), 2), 1) == CutBeforeNthLt(s, 0)
  {
    if CountLt(s) <= 2 {
      CutLastLtsShort(s);
    } else {
      CutLastLtsLong(s, CountLt(s) - 3);
    }
  }

  /** With one or two `<`, the three-`<` deletion changes nothing and the other two cut before the first. */
  lemma CutLastLtsShort(s: string)
    requires 1 <= CountLt(s) <= 2
    ensures CutLastLts(CutLastLts(CutLastLts(s, 3), 2), 1) == CutBeforeNthLt(s, 0)
  {
    assert CutLastLts(s, 3) == s;
    CutLastLtsTwo(s);
  }

  /** With three to six `<`, the three-`<` deletion cuts before the `j`-th and the other two finish the job. */
  lemma CutLastLtsLong(s: string, j: nat)
    requires j == CountLt(s) - 3 && j <= 3
    ensures CutLastLts(CutLastLts(CutLastLts(s, 3), 2), 1) == CutBeforeNthLt(s, 0)
  {
    assert CutLastLts(s, 3) == CutBeforeNthLt(s, j) by {
      CutLastLtsMany(s, 3);
    }
    CutLastLtsFrom(s, j);
  }

  /** With one or two `<`, the two shorter deletions cut before the first. */
  lemma CutLastLtsTwo(s: string)
    requires 1 <= CountLt(s) <= 2
    ensures CutLastLts(CutLastLts(s, 2), 1) == CutBeforeNthLt(s, 0)
  {
    if CountLt(s) == 2 {
      assert CutLastLts(s, 2) == CutBeforeNthLt(s, 0) by {
        CutLastLtsMany(s, 2);
      }
      assert CutLastLts(CutBeforeNthLt(s, 0), 1) == CutBeforeNthLt(s, 0) by {
        CutLastLtsAfterCutFew(s, 0, 1);
      }
    } else {
      CutLastLtsFewer(s, 2);
    }
  }

  /** The two shorter breadcrumb deletions after a cut before the `j`-th `<`, `j` at most 3. */
  lemma CutLastLtsFrom(s: string, j: nat)
    requires j < CountLt(s) && j <= 3
    ensures CutLastLts(CutLastLts(CutBeforeNthLt(s, j), 2), 1) == CutBeforeNthLt(s, 0)
  {
    var i: nat := if j >= 2 then j - 2 else j;
    var z := CutLastLts(CutBeforeNthLt(s, j), 2);
    assert z == CutBeforeNthLt(s, i) by {
      CutLastLtsAfterCut(s, j, 2);
    }
    assert CutLastLts(z, 1) == CutBeforeNthLt(s, 0) by {
      CutLastLtsAfterCut(s, i, 1);
    }
  }

  /** Without any `<` the breadcrumb deletions change nothing. */
  lemma CutBreadcrumbsNoLt(s: string)
    requires '<' !in s
    ensures CutBreadcrumbs(s) == s
  {
    CountLtAbsent(s);
    assert FirstCrumb(s, 0) == |s|;
  }

  /** The leftmost crumb is the first position where the pattern matches. */
  lemma FirstCrumbAt(s: string, i: int, a: int)
    requires 0 <= i <= a < |s| && CrumbAt(s, a)
    requires forall k :: i <= k < a ==> s[k] != '<'
    ensures FirstCrumb(s, i) == a
  {
  }

  /** A crumb whose first `<` is the first `<` of the text is the leftmost crumb. */
  lemma FirstCrumbOfFour(s: string, p1: int, p4: int)
    requires 0 <= p1 < p4 < |s| && s[p1] == '<' && LtAfter(s, p1 + 1, 2) == p4
    requires forall k :: 0 <= k < p1 ==> s[k] != '<'
    requires StartsWith(TrimStart(s[p4 + 1..]), ArticleBody) && LineTail(TrimStart(s[p4 + 1..])[|ArticleBody|..])
    ensures FirstCrumb(s, 0) == p1 && CrumbTail(s, p1) == TrimStart(s[p4 + 1..])
  {
    CrumbTailAt(s, p1, p4);
    CrumbAtOf(s, p1, TrimStart(s[p4 + 1..]));
    FirstCrumbAt(s, 0, p1);
  }

  /** The crumb tail read from the first of four `<` is the text after the fourth. */
  lemma CrumbTailAt(s: string, p1: int, p4: int)
    requires 0 <= p1 < p4 < |s| && LtAfter(s, p1 + 1, 2) == p4
    ensures CrumbTail(s, p1) == TrimStart(s[p4 + 1..])
  {
    assert TailAfter(s, p4) == TrimStart(s[p4 + 1..]);
  }

  lemma CrumbAtOf(s: string, p1: int, t: string)
    requires 0 <= p1 < |s| && s[p1] == '<' && LtAfter(s, p1 + 1, 2) < |s| && CrumbTail(s, p1) == t
    requires StartsWith(t, ArticleBody) && LineTail(t[|ArticleBody|..])
    ensures CrumbAt(s, p1)
  {
  }

  /**
   * When the first four `<` of a line are followed by "기사본문", the first deletion takes off
   * everything from the first of them to the end of the line, and the three later deletions
   * find no `<` left.
   */
  lemma CutBreadcrumbsArticleAt(s: string, p1: int, p2: int, p3: int, p4: int)
    requires 0 <= p1 < p2 < p3 < p4 < |s|
    requires s[p1] == '<' && s[p2] == '<' && s[p3] == '<' && s[p4] == '<'
    requires forall k :: 0 <= k < p4 && k != p1 && k != p2 && k != p3 ==> s[k] != '<'
    requires StartsWith(TrimStart(s[p4 + 1..]), ArticleBody) && LineTail(TrimStart(s[p4 + 1..])[|ArticleBody|..])
    ensures CutBreadcrumbs(s) == TrimEnd(s[..p1]) + FinalNewline(TrimStart(s[p4 + 1..])[|ArticleBody|..])
  {
    LtAfterOfFour(s, p1, p2, p3, p4);
    FirstCrumbOfFour(s, p1, p4);
    CutAfterCrumb(s, p1, TrimStart(s[p4 + 1..]));
  }

  /** When "기사본문" ends the text after the fourth `<`, the deletions keep the trimmed text before the first. */
  lemma CutBreadcrumbsArticleEnd(s: string, p1: int, p2: int, p3: int, p4: int)
    requires 0 <= p1 < p2 < p3 < p4 < |s|
    requires s[p1] == '<' && s[p2] == '<' && s[p3] == '<' && s[p4] == '<'
    requires forall k :: 0 <= k < p4 && k != p1 && k != p2 && k != p3 ==> s[k] != '<'
    requires TrimStart(s[p4 + 1..]) == ArticleBody
    ensures CutBreadcrumbs(s) == TrimEnd(s[..p1])
  {
    BodyAlone(TrimStart(s[p4 + 1..]));
    CutBreadcrumbsArticleAt(s, p1, p2, p3, p4);
    assert TrimEnd(s[..p1]) + "" == TrimEnd(s[..p1]);
  }

  /** "기사본문" alone starts with itself and leaves an empty tail. */
  lemma BodyAlone(t: string)
    requires t == ArticleBody
    ensures StartsWith(t, ArticleBody) && LineTail(t[|ArticleBody|..]) && FinalNewline(t[|ArticleBody|..]) == ""
  {
    assert t[|ArticleBody|..] == [];
  }

  /** No `<` is left when the text before the first `<` is kept with a final newline at most. */
  lemma NoLtBeforeCrumb(s: string, p1: int, nl: string)
    requires 0 <= p1 <= |s| && forall k :: 0 <= k < p1 ==> s[k] != '<'
    requires nl == "" || nl == "\n"
    ensures CountLt(TrimEnd(s[..p1]) + nl) == 0
  {
    AbsentBeforeFind(s, '<', p1);
    CountLtAbsent(TrimEnd(s[..p1]) + nl);
  }

  /** Once the leftmost crumb is known, the three later deletions find no `<` in what is left. */
  lemma CutAfterCrumb(s: string, p1: int, t: string)
    requires 0 <= p1 < |s| && FirstCrumb(s, 0) == p1 && CrumbTail(s, p1) == t && |t| >= |ArticleBody|
    requires forall k :: 0 <= k < p1 ==> s[k] != '<'
    ensures CutBreadcrumbs(s) == TrimEnd(s[..p1]) + FinalNewline(t[|ArticleBody|..])
  {
    var nl := FinalNewline(t[|ArticleBody|..]);
    var r := TrimEnd(s[..p1]) + nl;
    assert CutArticleCrumb(s) == r by {
      assert FirstCrumb(s, 0) == p1;
    }
    NoLtBeforeCrumb(s, p1, nl);
    CutLastLtsNone(r);
  }

  /** Without any `<` left, the three later deletions change nothing. */
  lemma CutLastLtsNone(r: string)
    requires CountLt(r) == 0
    ensures CutLastLts(CutLastLts(CutLastLts(r, 3), 2), 1) == r
  {
    assert CutLastLts(r, 3) == r;
    assert CutLastLts(r, 2) == r;
  }

  lemma LtAfterOfFour(s: string, p1: int, p2: int, p3: int, p4: int)
    requires 0 <= p1 < p2 < p3 < p4 < |s|
    requires s[p2] == '<' && s[p3] == '<' && s[p4] == '<'
    requires forall k :: p1 < k < p4 && k != p2 && k != p3 ==> s[k] != '<'
    ensures LtAfter(s, p1 + 1, 2) == p4
  {
    assert Find(s, '<', p1 + 1) == p2;
    assert Find(s, '<', p2 + 1) == p3;
    assert Find(s, '<', p3 + 1) == p4;
  }
}
