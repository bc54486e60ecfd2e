/**
 * `fetch_daily_recommendations` (`daily_fetch.py`) from the searches on: every search keyword is
 * looked up twice (newest first, then most similar first) and the results are concatenated; the
 * duplicates are removed; every article gets its relevance score, capped at 10; the list is sorted by
 * score, highest first, and cut to 50; and the first 20 articles get their full title from the
 * publisher's page when it can be read.
 *
 * The news search is the parameter `search`, the publisher's pages the parameter `fetch` of the
 * title extractor, the similarity ratio of the duplicate check the parameter `sim`, and the clock
 * the parameter `today`.
 */
module Pipeline {
  import opened Wrappers
  import opened Text
  import opened Calendar
  import opened Articles
  import opened StableSort
  import opened Scoring
  import opened Dedup
  import opened TitleExtractor

  /** The order the news search is asked for: `sort="date"` or `sort="sim"`. */
  datatype SearchSort = ByDate | BySim

  /** At most this many articles are recommended. */
  const TopCount: nat := 50

  /** Only this many of them have their full title looked up. */
  const EnrichCount: nat := 20

  /** The results of the searches for `keywords`, in call order: per keyword, the newest-first results, then the most-similar-first ones. */
  function Gathered(keywords: seq<string>, search: (string, SearchSort) -> seq<Article>): seq<Article>
    decreases |keywords|
  {
    if keywords == [] then []
    else
      var k := keywords[|keywords| - 1];
      Gathered(keywords[..|keywords| - 1], search) + search(k, ByDate) + search(k, BySim)
  }

  /** An article with the score the daily job gives it. */
  function Rescored(a: Article, keywords: seq<string>, today: Date): Article
    requires Valid(today)
  {
    a.(score := MinReal(RelevanceScore(a, keywords, today), 10.0))
  }

  /** The list after the scoring loop: each article with its score and with nothing else changed. */
  function Scored(l: seq<Article>, keywords: seq<string>, today: Date): (r: seq<Article>)
    requires Valid(today)
    ensures |r| == |l|
    ensures forall i :: 0 <= i < |l| ==> r[i] == Rescored(l[i], keywords, today)
    decreases |l|
  {
    if l == [] then []
    else Scored(l[..|l| - 1], keywords, today) + [Rescored(l[|l| - 1], keywords, today)]
  }

  /** `l[:n]` for a non-negative `n`: the whole list when it is shorter. */
  function Take<T>(l: seq<T>, n: nat): (r: seq<T>)
    ensures |r| == if |l| < n then |l| else n
    ensures r == l[..|r|]
  {
    if |l| < n then l else l[..n]
  }

  /** The scored articles sorted by score, highest first, and cut to the first 50. */
  function Ranked(unique: seq<Article>, keywords: seq<string>, today: Date): seq<Article>
    requires Valid(today)
  {
    Take(Sort(Scored(unique, keywords, today), ScoreBefore), TopCount)
  }

  /** `extract_full_title_from_url` over the pages `fetch` reads. */
  function Extractor(fetch: string -> Fetched): string -> Option<string> {
    (url: string) => ExtractFullTitle(url, fetch)
  }

  /**
   * One article of the enrichment loop: with a URL and a non-empty title from `extract`, the
   * stripped title becomes `full_title`; otherwise the article is left as it is.
   */
  function Enrich(a: Article, extract: string -> Option<string>): Article {
    var url := SourceUrl(a);
    if url == "" then a
    else match extract(url)
      case Some(t) => if t != "" then a.(fullTitle := Some(Strip(t))) else a
      case None => a
  }

  /** The list after the enrichment loop has handled its first `n` articles. */
  function Enriched(top: seq<Article>, n: nat, extract: string -> Option<string>): (r: seq<Article>)
    ensures |r| == |top|
  {
    seq(|top|, i requires 0 <= i < |top| => if i < n then Enrich(top[i], extract) else top[i])
  }

  /** What `fetch_daily_recommendations` returns for the search keywords `keywords`. */
  function Recommendations(keywords: seq<string>, search: (string, SearchSort) -> seq<Article>, today: Date,
                           fetch: string -> Fetched, sim: (string, string) -> real): seq<Article>
    requires Valid(today)
  {
    var unique := Dedup.Dedup(Gathered(keywords, search), DefaultThreshold, sim);
    Enriched(Ranked(unique, keywords, today), EnrichCount, Extractor(fetch))
  }

  // ---------------------------------------------------------------------------
  // The job
  // ---------------------------------------------------------------------------

  /** The search loop: both searches of every keyword, appended in call order. */
  method GatherArticles(keywords: seq<string>, search: (string, SearchSort) -> seq<Article>)
    returns (allArticles: seq<Article>)
    ensures allArticles == Gathered(keywords, search)
  {
    allArticles := [];
    var k := 0;
    while k < |keywords|
      invariant 0 <= k <= |keywords|
      invariant allArticles == Gathered(keywords[..k], search)
    {
      var keyword := keywords[k];
      var articlesDate := search(keyword, ByDate);
      allArticles := allArticles + articlesDate;
      var articlesSim := search(keyword, BySim);
      allArticles := allArticles + articlesSim;
      assert keywords[..k + 1][..k] == keywords[..k];
      k := k + 1;
    }
    assert keywords[..k] == keywords;
  }

  /** The scoring loop: every article gets its relevance score, capped at 10 once more. */
  method ScoreArticles(uniqueArticles: seq<Article>, keywords: seq<string>, today: Date)
    returns (scoredArticles: seq<Article>)
    requires Valid(today)
    ensures scoredArticles == Scored(uniqueArticles, keywords, today)
  {
    scoredArticles := [];
    var i := 0;
    while i < |uniqueArticles|
      invariant 0 <= i <= |uniqueArticles|
      invariant scoredArticles == Scored(uniqueArticles[..i], keywords, today)
    {
      var article := uniqueArticles[i];
      var score := CalculateRelevanceScore(article, keywords, today);
      score := MinReal(score, 10.0);
      assert uniqueArticles[..i + 1][..i] == uniqueArticles[..i];
      scoredArticles := scoredArticles + [article.(score := score)];
      i := i + 1;
    }
    assert uniqueArticles[..i] == uniqueArticles;
  }

  /** The enrichment loop over the first `min(20, len(top_articles))` articles. */
  method EnrichTop(topArticles: seq<Article>, extract: string -> Option<string>) returns (r: seq<Article>)
    ensures r == Enriched(topArticles, EnrichCount, extract)
  {
    r := topArticles;
    var n := if |topArticles| < EnrichCount then |topArticles| else EnrichCount;
    var idx := 0;
    while idx < n
      invariant 0 <= idx <= n
      invariant r == Enriched(topArticles, idx, extract)
    {
      var article := r[idx];
      assert article == topArticles[idx];
      var originalLink := SourceUrl(article);
      if originalLink != "" {
        var fullTitle := extract(originalLink);
        if fullTitle.Some? && fullTitle.value != "" {
          r := r[idx := article.(fullTitle := Some(Strip(fullTitle.value)))];
        }
      }
      EnrichedStep(topArticles, idx, extract);
      idx := idx + 1;
    }
    EnrichedAll(topArticles, n, EnrichCount, extract);
  }

  /** One more turn of the enrichment loop replaces one article by its enriched form. */
  lemma EnrichedStep(top: seq<Article>, idx: nat, extract: string -> Option<string>)
    requires idx < |top|
    ensures Enriched(top, idx + 1, extract) == Enriched(top, idx, extract)[idx := Enrich(top[idx], extract)]
  {
  }

  /** Past the end of the list, handling more articles changes nothing. */
  lemma EnrichedAll(top: seq<Article>, n: nat, m: nat, extract: string -> Option<string>)
    requires n == |top| <= m || n == m
    ensures Enriched(top, n, extract) == Enriched(top, m, extract)
  {
  }

  /** `fetch_daily_recommendations()` with the search keywords of the job. */
  method FetchDailyRecommendations(search: (string, SearchSort) -> seq<Article>, today: Date,
                                   fetch: string -> Fetched, sim: (string, string) -> real)
    returns (topArticles: seq<Article>)
    requires Valid(today)
    ensures topArticles == Recommendations(SearchKeywords, search, today, fetch, sim)
  {
    var keywords := SearchKeywords;
    var allArticles := GatherArticles(keywords, search);
    var uniqueArticles := RemoveDuplicateArticles(allArticles, DefaultThreshold, sim);
    var scoredArticles := ScoreArticles(uniqueArticles, keywords, today);
    var sorted := Sort(scoredArticles, ScoreBefore);
    topArticles := Take(sorted, TopCount);
    topArticles := EnrichTop(topArticles, Extractor(fetch));
  }

  // ---------------------------------------------------------------------------
  // What the job returns
  // ---------------------------------------------------------------------------

  /** An article is gathered exactly when one of the two searches of one keyword returned it. */
  lemma {:induction false} GatheredMembers(keywords: seq<string>, search: (string, SearchSort) -> seq<Article>, a: Article)
    ensures a in Gathered(keywords, search) <==> exists k, o :: k in keywords && a in search(k, o)
    decreases |keywords|
  {
    if keywords != [] {
      var init := keywords[..|keywords| - 1];
      var k := keywords[|keywords| - 1];
      GatheredMembers(init, search, a);
      assert keywords == init + [k];
      if a in search(k, ByDate) || a in search(k, BySim) {
        assert k in keywords;
      }
      if exists k', o :: k' in keywords && a in search(k', o) {
        var k', o :| k' in keywords && a in search(k', o);
        if k' in init {
        } else {
          assert k' == k;
          assert o == ByDate || o == BySim;
        }
      }
    }
  }

  /** The score order is a strict weak order, so the stable sort applies to it. */
  lemma ScoreBeforeOrder()
    ensures StrictWeakOrder(ScoreBefore)
  {
  }

  /**
   * The ranked list holds the first 50 of the scored articles, all of them in some order when
   * there are no more than 50.
   */
  lemma RankedLength(unique: seq<Article>, keywords: seq<string>, today: Date)
    requires Valid(today)
    ensures var r := Ranked(unique, keywords, today);
      && |r| == (if |unique| < TopCount then |unique| else TopCount)
      && (|unique| <= TopCount ==> multiset(r) == multiset(Scored(unique, keywords, today)))
  {
    var scored := Scored(unique, keywords, today);
    var sorted := Sort(scored, ScoreBefore);
    ScoreBeforeOrder();
    SortOrdered(scored, ScoreBefore);
    if |unique| <= TopCount {
      assert Ranked(unique, keywords, today) == sorted;
    }
  }

  /**
   * The ranked list is sorted by score with the highest first, every score lies in [0, 10], and
   * each article is one of the given articles with its new score.
   */
  lemma RankedOrder(unique: seq<Article>, keywords: seq<string>, today: Date)
    requires Valid(today)
    ensures var r := Ranked(unique, keywords, today);
      && (forall i, j :: 0 <= i < j < |r| ==> r[i].score >= r[j].score)
      && (forall i :: 0 <= i < |r| ==> 0.0 <= r[i].score <= 10.0)
      && (forall i :: 0 <= i < |r| ==> exists k :: 0 <= k < |unique| && r[i] == Rescored(unique[k], keywords, today))
  {
    var sorted := Sort(Scored(unique, keywords, today), ScoreBefore);
    var r := Ranked(unique, keywords, today);
    assert forall i, j :: 0 <= i < j < |r| ==> r[i].score >= r[j].score by {
      RankedSorted(unique, keywords, today);
    }
    assert r == sorted[..|r|];
    forall i | 0 <= i < |r|
      ensures 0.0 <= r[i].score <= 10.0
      ensures exists k :: 0 <= k < |unique| && r[i] == Rescored(unique[k], keywords, today)
    {
      assert r[i] == sorted[i];
      SortedMember(unique, keywords, today, i);
    }
  }

  /** The ranked list is sorted by score with the highest first. */
  lemma RankedSorted(unique: seq<Article>, keywords: seq<string>, today: Date)
    requires Valid(today)
    ensures var r := Ranked(unique, keywords, today);
      forall i, j :: 0 <= i < j < |r| ==> r[i].score >= r[j].score
  {
    var scored := Scored(unique, keywords, today);
    var sorted := Sort(scored, ScoreBefore);
    ScoreBeforeOrder();
    SortOrdered(scored, ScoreBefore);
    var r := Ranked(unique, keywords, today);
    assert r == sorted[..|r|];
  }

  /** Each sorted article is one of the given articles with its new score, which lies in [0, 10]. */
  lemma SortedMember(unique: seq<Article>, keywords: seq<string>, today: Date, i: int)
    requires Valid(today) && 0 <= i < |unique|
    ensures var x := Sort(Scored(unique, keywords, today), ScoreBefore)[i];
      && 0.0 <= x.score <= 10.0
      && exists k :: 0 <= k < |unique| && x == Rescored(unique[k], keywords, today)
  {
    var scored := Scored(unique, keywords, today);
    var x := Sort(scored, ScoreBefore)[i];
    ScoreBeforeOrder();
    SortOrdered(scored, ScoreBefore);
    assert x in multiset(Sort(scored, ScoreBefore));
    assert x in scored;
    var k :| 0 <= k < |scored| && scored[k] == x;
    ScoreBounds(unique[k], keywords, today);
  }

  /** Articles with the same score keep among themselves the order duplicate removal left them in. */
  lemma RankedStable(unique: seq<Article>, keywords: seq<string>, today: Date, z: Article)
    requires Valid(today)
    ensures TiedWith(Sort(Scored(unique, keywords, today), ScoreBefore), z, ScoreBefore)
            == TiedWith(Scored(unique, keywords, today), z, ScoreBefore)
  {
    ScoreBeforeOrder();
    SortStable(Scored(unique, keywords, today), z, ScoreBefore);
  }

  /**
   * The enrichment writes `full_title` and nothing else, only in the first `n` articles, and
   * exactly where the article has a URL and the extractor gives a non-empty title, which it
   * stores stripped.
   */
  lemma EnrichedSpec(top: seq<Article>, n: nat, extract: string -> Option<string>, i: int)
    requires 0 <= i < |top|
    ensures var r := Enriched(top, n, extract);
      && r[i] == top[i].(fullTitle := r[i].fullTitle)
      && (i >= n ==> r[i] == top[i])
      && (r[i].fullTitle != top[i].fullTitle ==> i < n && SourceUrl(top[i]) != "")
      && (i < n && SourceUrl(top[i]) != "" && extract(SourceUrl(top[i])).Some? && extract(SourceUrl(top[i])).value != ""
          ==> r[i].fullTitle == Some(Strip(extract(SourceUrl(top[i])).value)))
      && (i < n && (SourceUrl(top[i]) == "" || extract(SourceUrl(top[i])).None? || extract(SourceUrl(top[i])) == Some(""))
          ==> r[i] == top[i])
  {
  }

  /** The titles the extractor gives are already stripped, so `full_title` is the extracted title itself. */
  lemma ExtractorStripped(fetch: string -> Fetched, url: string)
    requires Extractor(fetch)(url).Some?
    ensures Strip(Extractor(fetch)(url).value) == Extractor(fetch)(url).value
    ensures url != "" && fetch(url).Loaded?
  {
    StripStripped(ExtractFullTitle(url, fetch).value);
  }

  /**
   * The recommendations: at most 50 articles, as many as duplicate removal kept up to 50, sorted
   * by score with the highest first, every score in [0, 10], and from the 21st on exactly the
   * ranked articles.
   */
  lemma RecommendationsSpec(keywords: seq<string>, search: (string, SearchSort) -> seq<Article>, today: Date,
                            fetch: string -> Fetched, sim: (string, string) -> real)
    requires Valid(today)
    ensures var r := Recommendations(keywords, search, today, fetch, sim);
      var unique := Dedup.Dedup(Gathered(keywords, search), DefaultThreshold, sim);
      && |r| <= TopCount
      && |r| == (if |unique| < TopCount then |unique| else TopCount)
      && (forall i, j :: 0 <= i < j < |r| ==> r[i].score >= r[j].score)
      && (forall i :: 0 <= i < |r| ==> 0.0 <= r[i].score <= 10.0)
      && (forall i :: EnrichCount <= i < |r| ==> r[i] == Ranked(unique, keywords, today)[i])
  {
    var unique := Dedup.Dedup(Gathered(keywords, search), DefaultThreshold, sim);
    var ranked := Ranked(unique, keywords, today);
    var r := Recommendations(keywords, search, today, fetch, sim);
    RankedLength(unique, keywords, today);
    RankedOrder(unique, keywords, today);
    forall i | 0 <= i < |r| ensures r[i].score == ranked[i].score {
      EnrichedSpec(ranked, EnrichCount, Extractor(fetch), i);
    }
  }

  /**
   * Every recommended article is a gathered article with only its score and possibly its full
   * title changed.
   */
  lemma RecommendationsGathered(keywords: seq<string>, search: (string, SearchSort) -> seq<Article>, today: Date,
                                fetch: string -> Fetched, sim: (string, string) -> real, i: int)
    requires Valid(today) && 0 <= i < |Recommendations(keywords, search, today, fetch, sim)|
    ensures var a := Recommendations(keywords, search, today, fetch, sim)[i];
      exists g :: g in Gathered(keywords, search) && a == g.(score := a.score, fullTitle := a.fullTitle)
  {
    var gathered := Gathered(keywords, search);
    var unique := Dedup.Dedup(gathered, DefaultThreshold, sim);
    var ranked := Ranked(unique, keywords, today);
    var a := Recommendations(keywords, search, today, fetch, sim)[i];
    RankedOrder(unique, keywords, today);
    EnrichedSpec(ranked, EnrichCount, Extractor(fetch), i);
    var k :| 0 <= k < |unique| && ranked[i] == Rescored(unique[k], keywords, today);
    DedupSubsequence(gathered, DefaultThreshold, sim);
    SubsequenceMembers(unique, gathered);
    assert unique[k] in gathered;
    assert a == unique[k].(score := a.score, fullTitle := a.fullTitle);
  }

  /** No two articles of the list share a link. */
  predicate DistinctLinks(s: seq<Article>) {
    forall i, j :: 0 <= i < j < |s| ==> s[i].link != s[j].link
  }

  /** Removing one article keeps the links distinct, and none of the others has its link. */
  lemma DistinctLinksRemove(b: seq<Article>, k: int, c: seq<Article>)
    requires 0 <= k < |b| && DistinctLinks(b) && c == b[..k] + b[k + 1..]
    ensures DistinctLinks(c)
    ensures forall m :: 0 <= m < |c| ==> c[m].link != b[k].link
    ensures multiset(c) == multiset(b) - multiset{b[k]}
  {
    assert forall m :: 0 <= m < |c| ==> c[m] == if m < k then b[m] else b[m + 1];
    assert b == b[..k] + [b[k]] + b[k + 1..];
  }

  /** An article whose link no article of the list has can be appended. */
  lemma DistinctLinksSnoc(s: seq<Article>, x: Article)
    requires DistinctLinks(s) && forall i :: 0 <= i < |s| ==> s[i].link != x.link
    ensures DistinctLinks(s + [x])
  {
    var t := s + [x];
    assert forall i :: 0 <= i < |s| ==> t[i] == s[i];
  }

  /** Reordering a list keeps its links distinct. */
  lemma {:induction false} PermutationDistinctLinks(a: seq<Article>, b: seq<Article>)
    requires multiset(a) == multiset(b) && DistinctLinks(b)
    ensures DistinctLinks(a)
    decreases |a|
  {
    if a != [] {
      var n := |a| - 1;
      var x := a[n];
      assert x in multiset(b);
      var k :| 0 <= k < |b| && b[k] == x;
      var b' := b[..k] + b[k + 1..];
      var a' := a[..n];
      DistinctLinksRemove(b, k, b');
      assert a == a' + [x];
      assert multiset(a') == multiset(b') by {
        assert multiset(a) == multiset(a') + multiset{x};
      }
      PermutationDistinctLinks(a', b');
      forall i | 0 <= i < n ensures a'[i].link != x.link {
        assert a'[i] in multiset(b');
      }
      DistinctLinksSnoc(a', x);
    }
  }

  /** No two recommended articles share a link: duplicate removal drops them, and nothing later adds any. */
  lemma RecommendationsDistinctLinks(keywords: seq<string>, search: (string, SearchSort) -> seq<Article>, today: Date,
                                     fetch: string -> Fetched, sim: (string, string) -> real)
    requires Valid(today)
    ensures DistinctLinks(Recommendations(keywords, search, today, fetch, sim))
  {
    var unique := Dedup.Dedup(Gathered(keywords, search), DefaultThreshold, sim);
    forall i, j | 0 <= i < j < |unique| ensures unique[i].link != unique[j].link {
      DedupPairwise(Gathered(keywords, search), DefaultThreshold, sim, i, j);
    }
    var ranked := Ranked(unique, keywords, today);
    assert DistinctLinks(ranked) by {
      RankedDistinctLinks(unique, keywords, today);
    }
    EnrichedDistinctLinks(ranked, EnrichCount, Extractor(fetch));
  }

  /** Scoring, sorting and keeping the first fifty keep the links distinct. */
  lemma RankedDistinctLinks(unique: seq<Article>, keywords: seq<string>, today: Date)
    requires Valid(today) && DistinctLinks(unique)
    ensures DistinctLinks(Ranked(unique, keywords, today))
  {
    var scored := Scored(unique, keywords, today);
    assert DistinctLinks(scored) by {
      assert forall i :: 0 <= i < |unique| ==> scored[i].link == unique[i].link;
    }
    var sorted := Sort(scored, ScoreBefore);
    assert multiset(sorted) == multiset(scored) by {
      ScoreBeforeOrder();
      SortOrdered(scored, ScoreBefore);
    }
    PermutationDistinctLinks(sorted, scored);
    var ranked := Ranked(unique, keywords, today);
    assert ranked == sorted[..|ranked|];
  }

  /** Looking up full titles changes no link. */
  lemma EnrichedDistinctLinks(top: seq<Article>, n: nat, extract: string -> Option<string>)
    requires DistinctLinks(top)
    ensures DistinctLinks(Enriched(top, n, extract))
  {
    var r := Enriched(top, n, extract);
    forall i, j | 0 <= i < j < |r| ensures r[i].link != r[j].link {
      EnrichedSpec(top, n, extract, i);
      EnrichedSpec(top, n, extract, j);
    }
  }
}
