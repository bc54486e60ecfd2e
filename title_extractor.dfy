/**
 * Finding an article's full headline on the publisher's page (`title_extractor.py`): the
 * suffix cleaner `_clean_title` and the order in which `extract_full_title_from_url` tries the
 * page's `<title>`, its `og:title`, seven CSS selectors and its first `<h1>`.
 *
 * The HTTP request and the HTML parser are not modelled: a fetch is an oracle from URL to
 * `Fetched`, and a page is the handful of texts the extractor asks BeautifulSoup for.
 */
module TitleExtractor {
  import opened Wrappers
  import opened Text
  import opened Patterns
  import opened Lists

  // ---------------------------------------------------------------------------
  // `_clean_title`
  // ---------------------------------------------------------------------------

  /** The breadcrumb deletions, then the `|` and `-` deletions, then `strip()`. */
  function CleanTitle(t: string): (r: string)
    ensures IsStripped(r)
  {
    Strip(CutAtMarker(CutAtMarker(CutBreadcrumbs(t), '|'), '-'))
  }

  /** Every step deletes a suffix, so the result is the stripped form of a prefix of the input. */
  lemma CleanTitlePrefix(t: string)
    ensures exists p :: 0 <= p <= |t| && CleanTitle(t) == Strip(t[..p])
  {
    var s1 := CutBreadcrumbs(t);
    var s2 := CutAtMarker(s1, '|');
    var s3 := CutAtMarker(s2, '-');
    CutBreadcrumbsPrefix(t);
    CutAtMarkerPrefix(s1, '|');
    CutAtMarkerPrefix(s2, '-');
    TrimmedPrefixTrans(s2, s1, t);
    TrimmedPrefixTrans(s3, s2, t);
    StripTrimmedPrefix(s3, t);
  }

  /** On a single line no `|` and no `-` survives. */
  lemma CleanTitleSingleLine(t: string)
    requires '\n' !in t
    ensures '|' !in CleanTitle(t) && '-' !in CleanTitle(t)
  {
    var s1 := CutBreadcrumbs(t);
    var s2 := CutAtMarker(s1, '|');
    var s3 := CutAtMarker(s2, '-');
    CutBreadcrumbsChars(t);
    CutAtMarkerChars(s1, '|');
    CutAtMarkerSingleLine(s1, '|');
    CutAtMarkerChars(s2, '-');
    CutAtMarkerSingleLine(s2, '-');
    StripChars(s3);
  }

  /** A title with none of `<`, `|` and `-` is only stripped. */
  lemma CleanTitlePlain(t: string)
    requires '<' !in t && '|' !in t && '-' !in t
    ensures CleanTitle(t) == Strip(t)
  {
    CutBreadcrumbsNoLt(t);
    CutAtMarkerAbsent(t, '|');
    CutAtMarkerAbsent(t, '-');
  }

  /** The deletions `<title>` text goes through before its length is judged. */
  function PreCleanTitleTag(t: string): (r: string)
    ensures exists p :: 0 <= p <= |t| && TrimEnd(r) == TrimEnd(t[..p])
  {
    var s1 := CutAtMarker(t, '|');
    var s2 := CutAtMarker(s1, '-');
    CutAtMarkerPrefix(t, '|');
    CutAtMarkerPrefix(s1, '-');
    TrimmedPrefixTrans(s2, s1, t);
    CutBreadcrumbsPrefix(s2);
    TrimmedPrefixTrans(CutBreadcrumbs(s2), s2, t);
    CutBreadcrumbs(s2)
  }

  // ---------------------------------------------------------------------------
  // `extract_full_title_from_url`
  // ---------------------------------------------------------------------------

  /**
   * What the extractor reads from a parsed page: the text of the first `<title>`, the `content`
   * attribute of the `og:title` meta tag, the text of the first element a selector matches, and
   * the text of the first `<h1>`; `None` where there is no such element or attribute.
   */
  datatype Page = Page(
    titleText: Option<string>,
    ogContent: Option<string>,
    select: string -> Option<string>,
    h1Text: Option<string>)

  /** A successful response (`raise_for_status` passed and the body parsed), or any failure. */
  datatype Fetched = Failed | Loaded(page: Page)

  const TitleSelectors: seq<string> := [
    "h1.article-title", "h1.title", ".article-title", ".title",
    "#articleTitle", ".article_headline", ".headline"]

  /** An element text that is long enough to be a headline once stripped. */
  predicate LongText(o: Option<string>) {
    o.Some? && |Strip(o.value)| > 10
  }

  /** The selector loop: the first selector, in list order, whose element text is long enough. */
  function FromSelectors(p: Page, sels: seq<string>): (r: Option<string>)
    ensures r.Some? ==> sels != [] && IsStripped(r.value)
    decreases |sels|
  {
    if sels == [] then None
    else if LongText(p.select(sels[0])) then Some(CleanTitle(Strip(p.select(sels[0]).value)))
    else FromSelectors(p, sels[1..])
  }

  /** Some selector's text is long enough exactly when the loop gives an answer (with `FromSelectorsFirst`). */
  lemma {:induction false} FromSelectorsAnswers(p: Page, sels: seq<string>, i: int)
    requires 0 <= i < |sels| && LongText(p.select(sels[i]))
    ensures FromSelectors(p, sels).Some?
    decreases i
  {
    var o := p.select(sels[0]);
    if !LongText(o) {
      assert i != 0;
      var rest := sels[1..];
      assert rest[i - 1] == sels[i];
      FromSelectorsAnswers(p, rest, i - 1);
    }
  }

  /** The answer comes from the first long enough selector text, and from no earlier selector. */
  lemma FromSelectorsFirst(p: Page, sels: seq<string>) returns (i: int)
    requires FromSelectors(p, sels).Some?
    ensures 0 <= i < |sels| && LongText(p.select(sels[i]))
    ensures forall j :: 0 <= j < i ==> !LongText(p.select(sels[j]))
    ensures FromSelectors(p, sels).value == CleanTitle(Strip(p.select(sels[i]).value))
  {
    var f := SelectorAnswer(p);
    FromSelectorsFirstSome(p, sels);
    i := FirstSomeIndex(sels, f);
    forall j | 0 <= j < i ensures !LongText(p.select(sels[j])) {
      assert f(sels[j]).None?;
    }
  }

  /** What a single selector gives: the cleaned text of its element, when that is long enough. */
  function SelectorAnswer(p: Page): string -> Option<string> {
    (sel: string) => if LongText(p.select(sel)) then Some(CleanTitle(Strip(p.select(sel).value))) else None
  }

  /** The selector loop keeps the first answer a selector gives. */
  lemma {:induction false} FromSelectorsFirstSome(p: Page, sels: seq<string>)
    ensures FromSelectors(p, sels) == FirstSome(sels, SelectorAnswer(p))
    decreases |sels|
  {
    if sels != [] {
      FromSelectorsFirstSome(p, sels[1..]);
    }
  }

  /** The answer the `<title>` tag gives, if any: pre-cleaned text longer than ten characters. */
  function TitleTagCandidate(p: Page): Option<string> {
    if p.titleText.Some? && |PreCleanTitleTag(Strip(p.titleText.value))| > 10 then
      Some(CleanTitle(PreCleanTitleTag(Strip(p.titleText.value))))
    else None
  }

  /** The answer `og:title` gives, if any: a non-empty content that is non-empty once stripped. */
  function OgCandidate(p: Page): Option<string> {
    if p.ogContent.Some? && p.ogContent.value != "" && Strip(p.ogContent.value) != "" then
      Some(CleanTitle(Strip(p.ogContent.value)))
    else None
  }

  function H1Candidate(p: Page): Option<string> {
    if LongText(p.h1Text) then Some(CleanTitle(Strip(p.h1Text.value))) else None
  }

  /** The fallback chain over a fetched page. */
  function FromPage(p: Page): (r: Option<string>)
    ensures r.Some? ==> IsStripped(r.value)
  {
    var t := TitleTagCandidate(p);
    if t.Some? then t
    else
      var og := OgCandidate(p);
      if og.Some? then og
      else
        var sel := FromSelectors(p, TitleSelectors);
        if sel.Some? then sel else H1Candidate(p)
  }

  /**
   * `extract_full_title_from_url(url)`: no fetch at all for an empty URL, `None` on any failure,
   * otherwise the fallback chain; every answer is a cleaned, stripped title.
   */
  function ExtractFullTitle(url: string, fetch: string -> Fetched): (r: Option<string>)
    ensures url == "" ==> r == None
    ensures url != "" && fetch(url).Failed? ==> r == None
    ensures r.Some? ==> url != "" && fetch(url).Loaded? && r == FromPage(fetch(url).page)
    ensures r.Some? ==> IsStripped(r.value)
  {
    if url == "" then None
    else match fetch(url)
      case Failed => None
      case Loaded(page) => FromPage(page)
  }

  // ---------------------------------------------------------------------------
  // The fallback chain against a reference: the first present candidate
  // ---------------------------------------------------------------------------

  function FirstPresent(cands: seq<Option<string>>): Option<string>
    decreases |cands|
  {
    if cands == [] then None else if cands[0].Some? then cands[0] else FirstPresent(cands[1..])
  }

  /** What each selector would give on its own, in selector order. */
  function SelectorCandidates(p: Page, sels: seq<string>): (cs: seq<Option<string>>)
    ensures |cs| == |sels|
    decreases |sels|
  {
    if sels == [] then []
    else
      var o := p.select(sels[0]);
      [if LongText(o) then Some(CleanTitle(Strip(o.value))) else None] + SelectorCandidates(p, sels[1..])
  }

  /** Every source the extractor consults, in the order it consults them. */
  function Candidates(p: Page): seq<Option<string>> {
    [TitleTagCandidate(p), OgCandidate(p)] + SelectorCandidates(p, TitleSelectors) + [H1Candidate(p)]
  }

  lemma {:induction false} FirstPresentAppend(a: seq<Option<string>>, b: seq<Option<string>>)
    ensures FirstPresent(a + b) == if FirstPresent(a).Some? then FirstPresent(a) else FirstPresent(b)
    decreases |a|
  {
    if a != [] {
      assert (a + b)[0] == a[0];
      assert (a + b)[1..] == a[1..] + b;
      FirstPresentAppend(a[1..], b);
    } else {
      assert a + b == b;
    }
  }

  lemma {:induction false} FromSelectorsFirstPresent(p: Page, sels: seq<string>)
    ensures FromSelectors(p, sels) == FirstPresent(SelectorCandidates(p, sels))
    decreases |sels|
  {
    if sels != [] {
      FromSelectorsFirstPresent(p, sels[1..]);
      assert SelectorCandidates(p, sels)[1..] == SelectorCandidates(p, sels[1..]);
    }
  }

  /** The first present of two candidates. */
  lemma FirstPresentPair(a: Option<string>, b: Option<string>)
    ensures FirstPresent([a, b]) == if a.Some? then a else b
  {
    assert [a, b][1..] == [b];
    FirstPresentSingle(b);
  }

  lemma FirstPresentSingle(a: Option<string>)
    ensures FirstPresent([a]) == a
  {
    assert [a][1..] == [];
  }

  /** The extractor answers with the first source, in its fixed order, that yields a title. */
  lemma FromPageFirstPresent(p: Page)
    ensures FromPage(p) == FirstPresent(Candidates(p))
  {
    var head := [TitleTagCandidate(p), OgCandidate(p)];
    var sc := SelectorCandidates(p, TitleSelectors);
    var last := [H1Candidate(p)];
    var fh := FirstPresent(head);
    var fs := FirstPresent(sc);
    var fhs := FirstPresent(head + sc);
    FirstPresentPair(TitleTagCandidate(p), OgCandidate(p));
    FirstPresentSingle(H1Candidate(p));
    FromSelectorsFirstPresent(p, TitleSelectors);
    FirstPresentAppend(head, sc);
    FirstPresentAppend(head + sc, last);
  }
}
