/**
 * `remove_duplicate_articles` (`daily_fetch.py`): one pass over the search results that keeps an
 * article unless an article kept before it has the same link or original link, or a title that is
 * equal, equal once normalised, or similar enough by the similarity ratio. A title shorter than ten
 * characters once stripped is dropped as invalid.
 *
 * The similarity ratio (`difflib.SequenceMatcher(None, a, b).ratio()`) is the parameter `sim`;
 * nothing is assumed about it, not even symmetry.
 */
module Dedup {
  import opened Text
  import opened Articles
  import opened DailyFetch

  /** The default `similarity_threshold`. */
  const DefaultThreshold: real := 0.85

  /** The links of the kept articles: what `seen_links` holds. */
  function Links(kept: seq<Article>): set<string> {
    set i | 0 <= i < |kept| :: kept[i].link
  }

  /** The non-empty original links of the kept articles: what `seen_originallinks` holds. */
  function OrigLinks(kept: seq<Article>): set<string> {
    set i | 0 <= i < |kept| && kept[i].originallink != "" :: kept[i].originallink
  }

  /**
   * Whether the kept article `e` makes the stripped title `t` a duplicate: `e`'s stripped title is
   * non-empty and is `t`, or normalises like `t`, or its normalised form is similar enough.
   */
  predicate TitleClash(t: string, e: Article, threshold: real, sim: (string, string) -> real) {
    var et := Strip(e.title);
    et != "" && (t == et || NormalizeTitle(t) == NormalizeTitle(et) || sim(NormalizeTitle(t), NormalizeTitle(et)) >= threshold)
  }

  /** Some kept article makes `t` a duplicate (scanned up to the last kept article). */
  predicate TitleDuplicate(t: string, kept: seq<Article>, threshold: real, sim: (string, string) -> real)
    decreases |kept|
  {
    kept != [] && (TitleDuplicate(t, kept[..|kept| - 1], threshold, sim) || TitleClash(t, kept[|kept| - 1], threshold, sim))
  }

  /** The closing check on the original link, against every kept article. */
  predicate OrigDuplicate(o: string, kept: seq<Article>) {
    exists k :: 0 <= k < |kept| && kept[k].originallink != "" && o == kept[k].originallink
  }

  /** Every test an article must pass to be kept, in the order the loop body makes them. */
  predicate Accepts(kept: seq<Article>, a: Article, threshold: real, sim: (string, string) -> real) {
    && a.link !in Links(kept)
    && !(a.originallink != "" && a.originallink in OrigLinks(kept))
    && |Strip(a.title)| >= 10
    && !TitleDuplicate(Strip(a.title), kept, threshold, sim)
    && !(a.originallink != "" && OrigDuplicate(a.originallink, kept))
  }

  /**
   * A single pass that appends each element for which `accept` holds against what was appended
   * before it: the shape of the loop, apart from the tests it makes.
   */
  function Keep<T>(l: seq<T>, accept: (seq<T>, T) -> bool): seq<T>
    decreases |l|
  {
    if l == [] then []
    else
      var kept := Keep(l[..|l| - 1], accept);
      if accept(kept, l[|l| - 1]) then kept + [l[|l| - 1]] else kept
  }

  function AcceptFn(threshold: real, sim: (string, string) -> real): (seq<Article>, Article) -> bool {
    (kept: seq<Article>, a: Article) => Accepts(kept, a, threshold, sim)
  }

  /** The list the loop has built after the articles of `l`. */
  function Dedup(l: seq<Article>, threshold: real, sim: (string, string) -> real): seq<Article> {
    Keep(l, AcceptFn(threshold, sim))
  }

  method RemoveDuplicateArticles(articles: seq<Article>, threshold: real, sim: (string, string) -> real)
    returns (unique: seq<Article>)
    ensures unique == Dedup(articles, threshold, sim)
  {
    if |articles| == 0 {
      return [];
    }
    var seenLinks: set<string> := {};
    var seenOriginallinks: set<string> := {};
    unique := [];
    var n := 0;
    while n < |articles|
      invariant 0 <= n <= |articles|
      invariant unique == Dedup(articles[..n], threshold, sim)
      invariant seenLinks == Links(unique)
      invariant seenOriginallinks == OrigLinks(unique)
    {
      var article := articles[n];
      DedupStep(articles, n + 1, threshold, sim);
      n := n + 1;
      var link := article.link;
      var originallink := article.originallink;
      var title := Strip(article.title);
      if link in seenLinks {
        continue;
      }
      if originallink != "" && originallink in seenOriginallinks {
        continue;
      }
      if |title| < 10 {
        continue;
      }
      var isDuplicate := IsTitleDuplicate(title, unique, threshold, sim);
      if isDuplicate {
        continue;
      }
      if originallink != "" {
        isDuplicate := IsOrigDuplicate(originallink, unique);
      }
      if !isDuplicate {
        seenLinks := seenLinks + {link};
        if originallink != "" {
          seenOriginallinks := seenOriginallinks + {originallink};
        }
        assert Links(unique + [article]) == Links(unique) + {link} by {
          LinksAppend(unique, article);
        }
        assert OrigLinks(unique + [article]) == OrigLinks(unique) + (if originallink != "" then {originallink} else {}) by {
          OrigLinksAppend(unique, article);
        }
        unique := unique + [article];
      }
    }
    assert articles[..n] == articles;
  }

  /** The loop over the kept articles that compares titles, stopping at the first duplicate. */
  method IsTitleDuplicate(title: string, unique: seq<Article>, threshold: real, sim: (string, string) -> real)
    returns (isDuplicate: bool)
    ensures isDuplicate == TitleDuplicate(title, unique, threshold, sim)
  {
    var normalizedTitle := NormalizeTitle(title);
    isDuplicate := false;
    var j := 0;
    while j < |unique|
      invariant 0 <= j <= |unique|
      invariant !TitleDuplicate(title, unique[..j], threshold, sim)
    {
      TitleDuplicateSnoc(title, unique, j, threshold, sim);
      var clash := CompareTitle(title, normalizedTitle, unique[j], threshold, sim);
      if clash {
        isDuplicate := true;
        break;
      }
      j := j + 1;
    }
    if !isDuplicate {
      assert unique[..j] == unique;
    } else {
      TitleDuplicateExtend(title, unique, j + 1, threshold, sim);
    }
  }

  /** One turn of the title loop: the comparisons against one kept article, in the loop's order. */
  method CompareTitle(title: string, normalizedTitle: string, existing: Article, threshold: real, sim: (string, string) -> real)
    returns (clash: bool)
    requires normalizedTitle == NormalizeTitle(title)
    ensures clash == TitleClash(title, existing, threshold, sim)
  {
    var existingTitle := Strip(existing.title);
    if existingTitle == "" {
      return false;
    }
    if title == existingTitle {
      return true;
    }
    var existingNormalized := NormalizeTitle(existingTitle);
    if normalizedTitle == existingNormalized {
      return true;
    }
    clash := sim(normalizedTitle, existingNormalized) >= threshold;
  }

  /** One more kept article: the scan so far finds a duplicate, or the new article clashes. */
  lemma TitleDuplicateSnoc(t: string, kept: seq<Article>, j: int, threshold: real, sim: (string, string) -> real)
    requires 0 <= j < |kept|
    ensures TitleDuplicate(t, kept[..j + 1], threshold, sim)
      == (TitleDuplicate(t, kept[..j], threshold, sim) || TitleClash(t, kept[j], threshold, sim))
  {
    assert kept[..j + 1][..j] == kept[..j];
  }

  /** A duplicate among the first `n` kept articles is a duplicate among all of them. */
  lemma {:induction false} TitleDuplicateExtend(t: string, kept: seq<Article>, n: int, threshold: real, sim: (string, string) -> real)
    requires 0 <= n <= |kept| && TitleDuplicate(t, kept[..n], threshold, sim)
    ensures TitleDuplicate(t, kept, threshold, sim)
    decreases |kept| - n
  {
    if n < |kept| {
      assert kept[..n + 1][..n] == kept[..n];
      TitleDuplicateExtend(t, kept, n + 1, threshold, sim);
    } else {
      assert kept[..n] == kept;
    }
  }

  /** The scan finds a duplicate exactly when one of the kept articles clashes with the title. */
  lemma TitleDuplicateIff(t: string, kept: seq<Article>, threshold: real, sim: (string, string) -> real)
    ensures TitleDuplicate(t, kept, threshold, sim) <==> exists k :: 0 <= k < |kept| && TitleClash(t, kept[k], threshold, sim)
  {
    if TitleDuplicate(t, kept, threshold, sim) {
      var k := TitleDuplicateWitness(t, kept, threshold, sim);
    }
    if exists k :: 0 <= k < |kept| && TitleClash(t, kept[k], threshold, sim) {
      var k :| 0 <= k < |kept| && TitleClash(t, kept[k], threshold, sim);
      TitleDuplicateAt(t, kept, k, threshold, sim);
    }
  }

  /** A duplicate found by the scan is a clash with some kept article. */
  lemma {:induction false} TitleDuplicateWitness(t: string, kept: seq<Article>, threshold: real, sim: (string, string) -> real)
    returns (k: int)
    requires TitleDuplicate(t, kept, threshold, sim)
    ensures 0 <= k < |kept| && TitleClash(t, kept[k], threshold, sim)
    decreases |kept|
  {
    var n := |kept| - 1;
    if TitleClash(t, kept[n], threshold, sim) {
      k := n;
    } else {
      var init := kept[..n];
      k := TitleDuplicateWitness(t, init, threshold, sim);
      assert init[k] == kept[k];
    }
  }

  /** A clash with any kept article is a duplicate the scan finds. */
  lemma TitleDuplicateAt(t: string, kept: seq<Article>, k: int, threshold: real, sim: (string, string) -> real)
    requires 0 <= k < |kept| && TitleClash(t, kept[k], threshold, sim)
    ensures TitleDuplicate(t, kept, threshold, sim)
  {
    var pre := kept[..k + 1];
    assert pre[..k] == kept[..k] && pre[k] == kept[k];
    TitleDuplicateExtend(t, kept, k + 1, threshold, sim);
  }

  /** The loop over the kept articles that compares non-empty original links. */
  method IsOrigDuplicate(originallink: string, unique: seq<Article>) returns (isDuplicate: bool)
    ensures isDuplicate == OrigDuplicate(originallink, unique)
  {
    isDuplicate := false;
    var j := 0;
    while j < |unique|
      invariant 0 <= j <= |unique|
      invariant forall k :: 0 <= k < j ==> !(unique[k].originallink != "" && originallink == unique[k].originallink)
    {
      var existingOriginallink := unique[j].originallink;
      if existingOriginallink != "" && originallink == existingOriginallink {
        isDuplicate := true;
        break;
      }
      j := j + 1;
    }
  }

  lemma DedupStep(l: seq<Article>, n: int, threshold: real, sim: (string, string) -> real)
    requires 0 < n <= |l|
    ensures var kept := Dedup(l[..n - 1], threshold, sim);
      Dedup(l[..n], threshold, sim) == if Accepts(kept, l[n - 1], threshold, sim) then kept + [l[n - 1]] else kept
  {
    assert l[..n][..n - 1] == l[..n - 1];
  }

  lemma LinksAppend(kept: seq<Article>, a: Article)
    ensures Links(kept + [a]) == Links(kept) + {a.link}
  {
    var k := kept + [a];
    forall x | x in Links(k) ensures x in Links(kept) + {a.link} {
      var i :| 0 <= i < |k| && k[i].link == x;
      if i < |kept| {
        assert kept[i] == k[i];
      }
    }
    forall x | x in Links(kept) ensures x in Links(k) {
      var i :| 0 <= i < |kept| && kept[i].link == x;
      assert k[i] == kept[i];
    }
    assert k[|kept|] == a;
  }

  lemma OrigLinksAppend(kept: seq<Article>, a: Article)
    ensures OrigLinks(kept + [a]) == OrigLinks(kept) + (if a.originallink != "" then {a.originallink} else {})
  {
    var k := kept + [a];
    forall x | x in OrigLinks(k) ensures x in OrigLinks(kept) + (if a.originallink != "" then {a.originallink} else {}) {
      var i :| 0 <= i < |k| && k[i].originallink != "" && k[i].originallink == x;
      if i < |kept| {
        assert kept[i] == k[i];
      }
    }
    forall x | x in OrigLinks(kept) ensures x in OrigLinks(k) {
      var i :| 0 <= i < |kept| && kept[i].originallink != "" && kept[i].originallink == x;
      assert k[i] == kept[i];
    }
    assert k[|kept|] == a;
  }

  // ---------------------------------------------------------------------------
  // What the result is
  // ---------------------------------------------------------------------------

  /** `xs` is `ys` with some elements left out and the rest in their order. */
  predicate Subsequence<T(==)>(xs: seq<T>, ys: seq<T>)
    decreases |ys|
  {
    if ys == [] then xs == []
    else if xs != [] && xs[|xs| - 1] == ys[|ys| - 1] then Subsequence(xs[..|xs| - 1], ys[..|ys| - 1])
    else Subsequence(xs, ys[..|ys| - 1])
  }

  /** The pass keeps elements in their order. */
  lemma {:induction false} KeepSubsequence<T>(l: seq<T>, accept: (seq<T>, T) -> bool)
    ensures Subsequence(Keep(l, accept), l)
    decreases |l|
  {
    if l != [] {
      var init := l[..|l| - 1];
      var kept := Keep(init, accept);
      KeepSubsequence(init, accept);
      if accept(kept, l[|l| - 1]) {
        assert (kept + [l[|l| - 1]])[..|kept|] == kept;
      } else {
        SubsequenceDrop(kept, l);
      }
    }
  }

  /** The result keeps input articles in input order, and an empty input gives an empty list. */
  lemma DedupSubsequence(l: seq<Article>, threshold: real, sim: (string, string) -> real)
    ensures Subsequence(Dedup(l, threshold, sim), l)
    ensures l == [] ==> Dedup(l, threshold, sim) == []
  {
    KeepSubsequence(l, AcceptFn(threshold, sim));
  }

  /** Every element of a subsequence is an element of the whole. */
  lemma {:induction false} SubsequenceMembers<T>(xs: seq<T>, ys: seq<T>)
    requires Subsequence(xs, ys)
    ensures forall x :: x in xs ==> x in ys
    decreases |ys|
  {
    if ys != [] {
      var init := ys[..|ys| - 1];
      if xs != [] && xs[|xs| - 1] == ys[|ys| - 1] {
        SubsequenceMembers(xs[..|xs| - 1], init);
        assert xs == xs[..|xs| - 1] + [ys[|ys| - 1]];
      } else {
        SubsequenceMembers(xs, init);
      }
    }
  }

  /** Whatever is a subsequence of `ys` without its last element is one of `ys`. */
  lemma SubsequenceDrop<T>(xs: seq<T>, ys: seq<T>)
    requires ys != [] && Subsequence(xs, ys[..|ys| - 1])
    ensures Subsequence(xs, ys)
    decreases |ys|, |xs|
  {
    if xs != [] && xs[|xs| - 1] == ys[|ys| - 1] {
      SubsequenceInit(xs, ys[..|ys| - 1]);
    }
  }

  /** Removing the last element keeps a subsequence a subsequence. */
  lemma {:induction false} SubsequenceInit<T>(xs: seq<T>, ys: seq<T>)
    requires xs != [] && Subsequence(xs, ys)
    ensures Subsequence(xs[..|xs| - 1], ys)
    decreases |ys|, |xs|
  {
    if ys == [] {
    } else if xs[|xs| - 1] == ys[|ys| - 1] {
      SubsequenceDrop(xs[..|xs| - 1], ys);
    } else {
      SubsequenceInit(xs, ys[..|ys| - 1]);
      SubsequenceDrop(xs[..|xs| - 1], ys);
    }
  }

  /** A decision once taken stands: what was kept from a prefix begins what is kept from the whole. */
  lemma {:induction false} KeepPrefix<T>(l: seq<T>, n: nat, accept: (seq<T>, T) -> bool)
    requires n <= |l|
    ensures Keep(l[..n], accept) <= Keep(l, accept)
    decreases |l| - n
  {
    if n < |l| {
      KeepPrefix(l, n + 1, accept);
      assert l[..n + 1][..n] == l[..n];
    } else {
      assert l[..n] == l;
    }
  }

  lemma DedupPrefix(l: seq<Article>, n: nat, threshold: real, sim: (string, string) -> real)
    requires n <= |l|
    ensures Dedup(l[..n], threshold, sim) <= Dedup(l, threshold, sim)
  {
    KeepPrefix(l, n, AcceptFn(threshold, sim));
  }

  /** Every element passes `accept` against the elements before it. */
  predicate AllAccepted<T>(r: seq<T>, accept: (seq<T>, T) -> bool)
    decreases |r|
  {
    r == [] || (AllAccepted(r[..|r| - 1], accept) && accept(r[..|r| - 1], r[|r| - 1]))
  }

  lemma {:induction false} AllAcceptedAt<T>(r: seq<T>, j: int, accept: (seq<T>, T) -> bool)
    requires AllAccepted(r, accept) && 0 <= j < |r|
    ensures accept(r[..j], r[j])
    decreases |r|
  {
    if j < |r| - 1 {
      var init := r[..|r| - 1];
      AllAcceptedAt(init, j, accept);
      assert init[..j] == r[..j] && init[j] == r[j];
    }
  }

  /** Every kept element passed `accept` against the elements kept before it. */
  lemma {:induction false} KeepAccepted<T>(l: seq<T>, accept: (seq<T>, T) -> bool)
    ensures AllAccepted(Keep(l, accept), accept)
    decreases |l|
  {
    if l != [] {
      var init := l[..|l| - 1];
      var kept := Keep(init, accept);
      KeepAccepted(init, accept);
      if accept(kept, l[|l| - 1]) {
        assert (kept + [l[|l| - 1]])[..|kept|] == kept;
      }
    }
  }

  /** A list every element of which passes `accept` against the ones before it is its own result. */
  lemma {:induction false} KeepOfAccepted<T>(r: seq<T>, accept: (seq<T>, T) -> bool)
    requires AllAccepted(r, accept)
    ensures Keep(r, accept) == r
    decreases |r|
  {
    if r != [] {
      var init := r[..|r| - 1];
      KeepOfAccepted(init, accept);
      assert init + [r[|r| - 1]] == r;
    }
  }

  /** The originallink test after the title loop rejects nothing the tests before it let through. */
  lemma SecondOrigCheckRedundant(kept: seq<Article>, a: Article)
    requires !(a.originallink != "" && a.originallink in OrigLinks(kept))
    ensures !(a.originallink != "" && OrigDuplicate(a.originallink, kept))
  {
  }

  /**
   * Any two kept articles, the earlier `i` and the later `j`: different links, no shared non-empty
   * original link, titles of at least ten characters that differ stripped and normalised, and a
   * similarity ratio of the later title against the earlier one below the threshold.
   */
  lemma DedupPairwise(l: seq<Article>, threshold: real, sim: (string, string) -> real, i: int, j: int)
    requires 0 <= i < j < |Dedup(l, threshold, sim)|
    ensures var r := Dedup(l, threshold, sim);
      && r[i].link != r[j].link
      && (r[i].originallink == r[j].originallink ==> r[i].originallink == "")
      && |Strip(r[i].title)| >= 10 && |Strip(r[j].title)| >= 10
      && Strip(r[i].title) != Strip(r[j].title)
      && NormalizeTitle(Strip(r[i].title)) != NormalizeTitle(Strip(r[j].title))
      && sim(NormalizeTitle(Strip(r[j].title)), NormalizeTitle(Strip(r[i].title))) < threshold
  {
    var r := Dedup(l, threshold, sim);
    var accept := AcceptFn(threshold, sim);
    KeepAccepted(l, accept);
    var p := r[..j];
    assert Accepts(p, r[j], threshold, sim) by {
      AllAcceptedAt(r, j, accept);
    }
    assert |Strip(r[i].title)| >= 10 by {
      AllAcceptedAt(r, i, accept);
      assert Accepts(r[..i], r[i], threshold, sim);
    }
    assert p[i] == r[i];
    assert r[i].link in Links(p);
    if r[i].originallink != "" {
      assert r[i].originallink in OrigLinks(p);
    }
    assert !TitleClash(Strip(r[j].title), r[i], threshold, sim) by {
      TitleDuplicateIff(Strip(r[j].title), p, threshold, sim);
    }
    NoClash(Strip(r[j].title), r[i], threshold, sim);
  }

  /** What it means for a kept article with a non-empty title not to clash with `t`. */
  lemma NoClash(t: string, e: Article, threshold: real, sim: (string, string) -> real)
    requires Strip(e.title) != "" && !TitleClash(t, e, threshold, sim)
    ensures t != Strip(e.title) && NormalizeTitle(t) != NormalizeTitle(Strip(e.title))
    ensures sim(NormalizeTitle(t), NormalizeTitle(Strip(e.title))) < threshold
  {
  }

  /** Removing duplicates twice removes nothing more. */
  lemma DedupIdempotent(l: seq<Article>, threshold: real, sim: (string, string) -> real)
    ensures Dedup(Dedup(l, threshold, sim), threshold, sim) == Dedup(l, threshold, sim)
  {
    KeepAccepted(l, AcceptFn(threshold, sim));
    KeepOfAccepted(Dedup(l, threshold, sim), AcceptFn(threshold, sim));
  }
}
