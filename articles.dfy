/**
 * A news article as the Naver news search returns it and as the fetch and display code passes it
 * around (a Python dict). A key the dict lacks reads as "" for the text fields and as 0 for the score;
 * `full_title` is kept apart as `None` when the key is absent, because the title-refresh script
 * tells "no key" from an empty value when it counts updates.
 */
module Articles {
  import opened Wrappers

  datatype Article = Article(
    title: string,
    link: string,
    originallink: string,
    description: string,
    pubDate: string,
    fullTitle: Option<string>,
    score: real)

  /** `article.get("originallink") or article.get("link")`: the publisher's URL when there is one. */
  function SourceUrl(a: Article): (u: string)
    ensures u == "" <==> a.originallink == "" && a.link == ""
    ensures u == a.originallink || u == a.link
  {
    if a.originallink != "" then a.originallink else a.link
  }

  /** Python truthiness of `article.get("full_title")`. */
  predicate HasFullTitle(a: Article) {
    a.fullTitle.Some? && a.fullTitle.value != ""
  }

  /**
   * The order of `sort(key=lambda x: x.get("relevance_score", 0), reverse=True)`: a higher score
   * goes first, and equal scores are tied (the sort is stable, also when reversed).
   */
  const ScoreBefore: (Article, Article) -> bool := (a: Article, b: Article) => a.score > b.score
}
