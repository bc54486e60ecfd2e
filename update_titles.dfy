/**
 * The one-off title refresh script (`update_existing_titles.py`): it loads the saved
 * recommendations, re-cleans every `full_title` already present, looks one up on the publisher's
 * page for every article without one, counts what it set, and writes the list back.
 *
 * The JSON file is modelled by its article list: `None` when the file does not exist, and the
 * list under `"articles"` (empty when the key is absent) otherwise. What the script writes back is
 * an `Option` as well: `None` when it returns before writing. Logging is not modelled.
 */
module UpdateTitles {
  import opened Wrappers
  import opened Text
  import opened Articles
  import opened TitleExtractor
  import opened Lists
  import Pipeline

  /** What one turn of the loop leaves behind: the article, and whether it added to `updated_count`. */
  datatype Refresh = Refresh(article: Article, counted: bool)

  /**
   * One turn of the loop. A non-empty `full_title` is only cleaned, and counted when cleaning
   * changed it; otherwise the publisher's URL (`originallink`, else `link`) is handed to
   * `extract`, and a non-empty answer is cleaned, stored and counted.
   */
  function Refreshed(a: Article, extract: string -> Option<string>): (r: Refresh)
    ensures r.article == a.(fullTitle := r.article.fullTitle)
  {
    if HasFullTitle(a) then
      var cleaned := CleanTitle(a.fullTitle.value);
      if cleaned != a.fullTitle.value then Refresh(a.(fullTitle := Some(Strip(cleaned))), true)
      else Refresh(a, false)
    else
      var url := SourceUrl(a);
      if url == "" then Refresh(a, false)
      else match extract(url)
        case Some(t) =>
          if t != "" then Refresh(a.(fullTitle := Some(Strip(CleanTitle(t)))), true) else Refresh(a, false)
        case None => Refresh(a, false)
  }

  /** The article list once every article has had its turn. */
  function RefreshedList(xs: seq<Article>, extract: string -> Option<string>): (r: seq<Article>)
    ensures |r| == |xs|
    ensures forall i :: 0 <= i < |xs| ==> r[i] == Refreshed(xs[i], extract).article
  {
    seq(|xs|, i requires 0 <= i < |xs| => Refreshed(xs[i], extract).article)
  }

  /** For every article, whether its turn adds to `updated_count`. */
  function Verdicts(xs: seq<Article>, extract: string -> Option<string>): (r: seq<bool>)
    ensures |r| == |xs|
    ensures forall i :: 0 <= i < |xs| ==> r[i] == Refreshed(xs[i], extract).counted
  {
    seq(|xs|, i requires 0 <= i < |xs| => Refreshed(xs[i], extract).counted)
  }

  /** `updated_count` after the loop over `xs`: the turns that counted. */
  function Count(xs: seq<Article>, extract: string -> Option<string>): nat {
    Trues(Verdicts(xs, extract))
  }

  /** What the script writes back to the file, if anything. */
  function Saved(file: Option<seq<Article>>, extract: string -> Option<string>): Option<seq<Article>> {
    if file.None? || file.value == [] then None else Some(RefreshedList(file.value, extract))
  }

  /** The count the script reports. */
  function Reported(file: Option<seq<Article>>, extract: string -> Option<string>): nat {
    if file.None? || file.value == [] then 0 else Count(file.value, extract)
  }

  // ---------------------------------------------------------------------------
  // The script
  // ---------------------------------------------------------------------------

  /** The loop of `update_existing_titles`, updating the list in place. */
  method RefreshArticles(articles: seq<Article>, extract: string -> Option<string>)
    returns (r: seq<Article>, updatedCount: nat)
    ensures r == RefreshedList(articles, extract)
    ensures updatedCount == Count(articles, extract)
  {
    r := articles;
    updatedCount := 0;
    ghost var verdicts: seq<bool> := [];
    var i := 0;
    while i < |articles|
      invariant 0 <= i <= |articles|
      invariant |r| == |articles| && |verdicts| == i
      invariant forall k :: 0 <= k < i ==> Refresh(r[k], verdicts[k]) == Refreshed(articles[k], extract)
      invariant forall k :: i <= k < |articles| ==> r[k] == articles[k]
      invariant updatedCount == Trues(verdicts)
    {
      // `r[i]` is still `articles[i]`: only turns already taken have written to the list.
      var article, counted := RefreshArticle(articles[i], extract);
      TruesSnoc(verdicts, counted);
      verdicts := verdicts + [counted];
      r := r[i := article];
      if counted {
        updatedCount := updatedCount + 1;
      }
      i := i + 1;
    }
    assert verdicts == Verdicts(articles, extract);
  }

  /** The body of the loop for one article, with whether it adds to `updated_count`. */
  method RefreshArticle(article: Article, extract: string -> Option<string>)
    returns (updated: Article, counted: bool)
    ensures Refresh(updated, counted) == Refreshed(article, extract)
  {
    updated, counted := article, false;
    if article.fullTitle.Some? && article.fullTitle.value != "" {
      var originalFullTitle := article.fullTitle.value;
      var cleanedTitle := CleanTitle(originalFullTitle);
      if cleanedTitle != originalFullTitle {
        updated, counted := article.(fullTitle := Some(Strip(cleanedTitle))), true;
      }
      return;
    }
    var originalLink := SourceUrl(article);
    if originalLink == "" {
      return;
    }
    var fullTitle := extract(originalLink);
    if fullTitle.Some? && fullTitle.value != "" {
      var cleanedTitle := CleanTitle(fullTitle.value);
      updated, counted := article.(fullTitle := Some(Strip(cleanedTitle))), true;
    }
  }

  /**
   * `update_existing_titles()`: nothing is written when the file is missing or holds no
   * articles; otherwise the refreshed list is written back, with the count of updates.
   */
  method UpdateExistingTitles(file: Option<seq<Article>>, fetch: string -> Fetched)
    returns (written: Option<seq<Article>>, updatedCount: nat)
    ensures written == Saved(file, Pipeline.Extractor(fetch))
    ensures updatedCount == Reported(file, Pipeline.Extractor(fetch))
  {
    if file.None? {
      return None, 0;
    }
    var articles := file.value;
    if articles == [] {
      return None, 0;
    }
    var r;
    r, updatedCount := RefreshArticles(articles, Pipeline.Extractor(fetch));
    written := Some(r);
  }

  // ---------------------------------------------------------------------------
  // One article
  // ---------------------------------------------------------------------------

  /**
   * An article that already has a title is never looked up: the outcome is the same for every
   * extractor, the title becomes its cleaned form, and the turn counts exactly when cleaning
   * changed it.
   */
  lemma ExistingTitle(a: Article, extract: string -> Option<string>, other: string -> Option<string>)
    requires HasFullTitle(a)
    ensures Refreshed(a, extract) == Refreshed(a, other)
    ensures Refreshed(a, extract).article == a.(fullTitle := Some(CleanTitle(a.fullTitle.value)))
    ensures Refreshed(a, extract).counted <==> CleanTitle(a.fullTitle.value) != a.fullTitle.value
  {
    StripStripped(CleanTitle(a.fullTitle.value));
  }

  /**
   * An article without a title is left alone and not counted when it has no link at all;
   * otherwise it is looked up at `originallink`, or at `link` when `originallink` is empty, and a
   * non-empty answer is stored cleaned and counted while any other answer leaves it as it was.
   */
  lemma WithoutTitle(a: Article, extract: string -> Option<string>)
    requires !HasFullTitle(a)
    ensures a.originallink == "" && a.link == "" ==> Refreshed(a, extract) == Refresh(a, false)
    ensures a.originallink != "" || a.link != "" ==>
              && (Refreshed(a, extract).counted <==> Answered(extract(SourceUrl(a))))
              && (Refreshed(a, extract).counted ==>
                    Refreshed(a, extract).article == a.(fullTitle := Some(CleanTitle(extract(SourceUrl(a)).value))))
              && (!Refreshed(a, extract).counted ==> Refreshed(a, extract).article == a)
  {
    if a.originallink != "" || a.link != "" {
      if Answered(extract(SourceUrl(a))) {
        StripStripped(CleanTitle(extract(SourceUrl(a)).value));
      }
    }
  }

  /** A truthy answer from the extractor: a title, and not an empty one. */
  predicate Answered(t: Option<string>) {
    t.Some? && t.value != ""
  }

  /**
   * Every change is counted, and a counted turn that changed nothing is the one corner where an
   * empty `full_title` is looked up and the cleaned answer is empty again.
   */
  lemma CountedChanges(a: Article, extract: string -> Option<string>)
    ensures Refreshed(a, extract).article != a ==> Refreshed(a, extract).counted
    ensures Refreshed(a, extract).counted && Refreshed(a, extract).article == a ==>
              a.fullTitle == Some("") && Refreshed(a, extract).article.fullTitle == Some("")
  {
    if HasFullTitle(a) {
      ExistingTitle(a, extract, extract);
    }
  }

  /** After a counted turn the article's `full_title` is cleaned: stripped, and a `Some`. */
  lemma CountedCleaned(a: Article, extract: string -> Option<string>)
    requires Refreshed(a, extract).counted
    ensures Refreshed(a, extract).article.fullTitle.Some?
    ensures IsStripped(Refreshed(a, extract).article.fullTitle.value)
  {
    if HasFullTitle(a) {
      ExistingTitle(a, extract, extract);
    } else {
      WithoutTitle(a, extract);
    }
  }

  // ---------------------------------------------------------------------------
  // The count
  // ---------------------------------------------------------------------------

  /**
   * `updated_count` is at most the number of articles; it is zero exactly when no turn counted,
   * and it is the number of articles exactly when every turn counted.
   */
  lemma CountBounds(xs: seq<Article>, extract: string -> Option<string>)
    ensures Count(xs, extract) <= |xs|
    ensures Count(xs, extract) == 0 <==> forall i :: 0 <= i < |xs| ==> !Refreshed(xs[i], extract).counted
    ensures Count(xs, extract) == |xs| <==> forall i :: 0 <= i < |xs| ==> Refreshed(xs[i], extract).counted
  {
    TruesBounds(Verdicts(xs, extract));
  }

  /** Every article the script changed adds to the count: the count covers all changed articles. */
  lemma ChangedAreCounted(xs: seq<Article>, extract: string -> Option<string>, i: int)
    requires 0 <= i < |xs|
    requires RefreshedList(xs, extract)[i] != xs[i]
    ensures Refreshed(xs[i], extract).counted
    ensures Count(xs, extract) >= 1
  {
    CountedChanges(xs[i], extract);
    TruesBounds(Verdicts(xs, extract));
  }

  // ---------------------------------------------------------------------------
  // The file
  // ---------------------------------------------------------------------------

  /**
   * A missing file or an empty article list returns before anything is written; otherwise the
   * same articles are written back in the same order, each differing at most in `full_title`,
   * and the reported count is at most the number of articles.
   */
  lemma SavedSpec(file: Option<seq<Article>>, extract: string -> Option<string>)
    ensures file.None? ==> Saved(file, extract) == None && Reported(file, extract) == 0
    ensures file == Some([]) ==> Saved(file, extract) == None && Reported(file, extract) == 0
    ensures file.Some? && file.value != [] ==>
              && Saved(file, extract).Some?
              && |Saved(file, extract).value| == |file.value|
              && (forall i :: 0 <= i < |file.value| ==>
                    Saved(file, extract).value[i] == file.value[i].(fullTitle := Saved(file, extract).value[i].fullTitle))
              && Reported(file, extract) <= |file.value|
  {
    if file.Some? && file.value != [] {
      CountBounds(file.value, extract);
    }
  }
}
