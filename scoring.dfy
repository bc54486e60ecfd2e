/**
 * The relevance score out of ten (`calculate_relevance_score` in `daily_fetch.py`): keyword hits in
 * the title (2.5 points for each main keyword, 0.3 for each other keyword, at most 5) and in the
 * description (1.5 and 0.2, at most 3), a recency bonus of `2.0 - 0.375 * days` for an article at
 * most four days old, and a final cap at 10.
 *
 * Scores are exact reals; the floating-point rounding of the source is not modelled. The clock
 * is the parameter `today`.
 */
module Scoring {
  import opened Wrappers
  import opened Text
  import opened Calendar
  import opened Articles

  /** `SEARCH_KEYWORDS`: the queries sent to the news search, in order. */
  const SearchKeywords: seq<string> := [
    "충남콘텐츠진흥원", "충콘진", "천안그린스타트업타운", "김곡미", "충남콘텐츠코리아랩",
    "충남콘텐츠기업지원센터", "충남글로벌게임센터", "충남음악창작소", "충남 e스포츠"]

  /** The names of the agency itself, weighted highest. */
  const MainKeywords: seq<string> := ["충남콘텐츠진흥원", "충콘진"]

  /** Python's `min(a, b)`: `b` only when it is strictly smaller. */
  function MinReal(a: real, b: real): (r: real)
    ensures r <= a && r <= b && (r == a || r == b)
  {
    if b < a then b else a
  }

  /** `[k for k in keywords if k not in main_keywords]`. */
  function Others(keywords: seq<string>): (r: seq<string>)
    ensures forall k :: k in r ==> k in keywords && k !in MainKeywords
    decreases |keywords|
  {
    if keywords == [] then []
    else
      var init := keywords[..|keywords| - 1];
      var k := keywords[|keywords| - 1];
      assert forall x :: x in init ==> x in keywords;
      Others(init) + (if k in MainKeywords then [] else [k])
  }

  /** The number of keywords whose lower-cased form occurs in `text`. */
  function Hits(text: string, keywords: seq<string>): (n: nat)
    ensures n <= |keywords|
    decreases |keywords|
  {
    if keywords == [] then 0
    else Hits(text, keywords[..|keywords| - 1]) + (if Contains(text, Lower(keywords[|keywords| - 1])) then 1 else 0)
  }

  /**
   * One keyword part of the score: `mainWeight` for each main keyword and `otherWeight` for each
   * other keyword found in the lower-cased `text`, capped at `cap`.
   */
  function KeywordScore(text: string, mainKeywords: seq<string>, otherKeywords: seq<string>,
                        mainWeight: real, otherWeight: real, cap: real): real {
    MinReal(mainWeight * Hits(text, mainKeywords) as real + otherWeight * Hits(text, otherKeywords) as real, cap)
  }

  /** The title part: 2.5 per main keyword and 0.3 per other keyword found, capped at 5. */
  function TitlePart(title: string, keywords: seq<string>): real {
    KeywordScore(Lower(title), MainKeywords, Others(keywords), 2.5, 0.3, 5.0)
  }

  /** The description part: 1.5 per main keyword and 0.2 per other keyword found, capped at 3. */
  function DescPart(description: string, keywords: seq<string>): real {
    KeywordScore(Lower(description), MainKeywords, Others(keywords), 1.5, 0.2, 3.0)
  }

  /** The bonus for an article `days` old: from 2.0 on the day itself down to 0.5 at four days. */
  function RecencyBonus(days: int): real {
    if days <= 4 then 2.0 - days as real * 0.375 else 0.0
  }

  /** The bonus the daily job gives: only for a valid `YYYY-MM-DD` before the first `T`. */
  function DailyBonus(pubDate: string, today: Date): real
    requires Valid(today)
  {
    if pubDate == "" then 0.0
    else match ParseYmd(Split(pubDate, 'T')[0])
      case None => 0.0
      case Some(d) => RecencyBonus(DaysSince(today, d))
  }

  /** The score `calculate_relevance_score` returns. */
  function RelevanceScore(a: Article, keywords: seq<string>, today: Date): real
    requires Valid(today)
  {
    MinReal(TitlePart(a.title, keywords) + DescPart(a.description, keywords) + DailyBonus(a.pubDate, today), 10.0)
  }

  /** One keyword loop: `weight` is added for every keyword found in `text`. */
  method AddMatches(total: real, keywords: seq<string>, text: string, weight: real) returns (r: real)
    ensures r == total + weight * Hits(text, keywords) as real
  {
    r := total;
    var i := 0;
    while i < |keywords|
      invariant 0 <= i <= |keywords|
      invariant r == total + weight * Hits(text, keywords[..i]) as real
    {
      assert keywords[..i + 1][..i] == keywords[..i];
      if Contains(text, Lower(keywords[i])) {
        r := r + weight;
      }
      i := i + 1;
    }
    assert keywords[..i] == keywords;
  }

  /** The two keyword loops over one lower-cased text, then the cap of that part. */
  method KeywordPart(text: string, mainKeywords: seq<string>, otherKeywords: seq<string>,
                     mainWeight: real, otherWeight: real, cap: real)
    returns (r: real)
    ensures r == KeywordScore(text, mainKeywords, otherKeywords, mainWeight, otherWeight, cap)
  {
    var mainScore := AddMatches(0.0, mainKeywords, text, mainWeight);
    r := AddMatches(mainScore, otherKeywords, text, otherWeight);
    AddParts(mainScore, r, mainWeight * Hits(text, mainKeywords) as real, otherWeight * Hits(text, otherKeywords) as real);
    r := MinReal(r, cap);
  }

  /** Two loops, the second starting where the first stopped, add up their two gains. */
  lemma AddParts(first: real, second: real, x: real, y: real)
    requires first == 0.0 + x && second == first + y
    ensures second == x + y
  {
  }

  /** The date step: the bonus is added only when the text before the first `T` parses. */
  method AddDailyBonus(score: real, pubDate: string, today: Date) returns (r: real)
    requires Valid(today)
    ensures r == score + DailyBonus(pubDate, today)
  {
    r := score;
    if pubDate != "" {
      var dateStr := Split(pubDate, 'T')[0];
      match ParseYmd(dateStr)
      case None =>
      case Some(articleDate) =>
        var daysDiff := DaysSince(today, articleDate);
        if daysDiff <= 4 {
          r := r + (2.0 - daysDiff as real * 0.375);
        }
    }
  }

  /** `calculate_relevance_score(article, keywords)` with the clock reading `today`. */
  method CalculateRelevanceScore(article: Article, keywords: seq<string>, today: Date) returns (score: real)
    requires Valid(today)
    ensures score == RelevanceScore(article, keywords, today)
  {
    score := 0.0;
    var title := Lower(article.title);
    var description := Lower(article.description);
    var otherKeywords := Others(keywords);

    var titleScore := KeywordPart(title, MainKeywords, otherKeywords, 2.5, 0.3, 5.0);
    score := score + titleScore;
    var descScore := KeywordPart(description, MainKeywords, otherKeywords, 1.5, 0.2, 3.0);
    score := score + descScore;
    score := AddDailyBonus(score, article.pubDate, today);
    score := MinReal(score, 10.0);
  }

  // ---------------------------------------------------------------------------
  // Properties of the score
  // ---------------------------------------------------------------------------

  /** The bonus is never negative; it rises as the article gets newer and is 0 after four days. */
  lemma RecencyBonusValues(days: int)
    ensures RecencyBonus(0) == 2.0 && RecencyBonus(4) == 0.5
    ensures days <= 4 ==> RecencyBonus(days) >= 0.5
    ensures days > 4 ==> RecencyBonus(days) == 0.0
    ensures days < 0 ==> RecencyBonus(days) > 2.0
    ensures RecencyBonus(days) >= 0.0
  {
  }

  /** Each part stays in its range and the total in [0, 10]. */
  lemma ScoreBounds(a: Article, keywords: seq<string>, today: Date)
    requires Valid(today)
    ensures 0.0 <= TitlePart(a.title, keywords) <= 5.0
    ensures 0.0 <= DescPart(a.description, keywords) <= 3.0
    ensures 0.0 <= DailyBonus(a.pubDate, today)
    ensures 0.0 <= RelevanceScore(a, keywords, today) <= 10.0
  {
    if a.pubDate != "" && ParseYmd(Split(a.pubDate, 'T')[0]).Some? {
      RecencyBonusValues(DaysSince(today, ParseYmd(Split(a.pubDate, 'T')[0]).value));
    }
  }

  /** An ISO timestamp earns the bonus of its date, whatever follows the `T`. */
  lemma DailyBonusIso(d: Date, rest: string, today: Date)
    requires Valid(d) && Valid(today)
    ensures DailyBonus(FormatYmd(d) + "T" + rest, today) == RecencyBonus(DaysSince(today, d))
  {
    FormatYmdHasNoT(d);
    SplitAtFirst(FormatYmd(d), 'T', rest);
    ParseFormatYmd(d);
  }

  /**
   * A date that does not start with a digit earns no bonus and raises nothing: the RFC 822 form
   * the search API uses ("Tue, 24 Dec 2024 09:00:00 +0900") is one.
   */
  lemma NonDigitDateNoBonus(pubDate: string, today: Date)
    requires Valid(today) && pubDate != "" && !IsDigit(pubDate[0])
    ensures DailyBonus(pubDate, today) == 0.0
  {
    var p := Split(pubDate, 'T')[0];
    SplitFirstPiece(pubDate, 'T');
    if |p| >= 4 {
      assert p[0] == pubDate[0];
      assert !AllDigits(p[..4]) by {
        assert p[..4][0] == p[0];
      }
    }
  }

  /**
   * The example of the source's comments: a title naming the agency once and nothing else,
   * an empty description and a date without a bonus score exactly 2.5.
   */
  lemma SingleMainKeywordScore(a: Article, keywords: seq<string>, today: Date)
    requires Valid(today)
    requires Hits(Lower(a.title), MainKeywords) == 1 && Hits(Lower(a.title), Others(keywords)) == 0
    requires Hits(Lower(a.description), MainKeywords) == 0 && Hits(Lower(a.description), Others(keywords)) == 0
    requires DailyBonus(a.pubDate, today) == 0.0
    ensures RelevanceScore(a, keywords, today) == 2.5
  {
  }

  /** A list that starts with the two main keywords and has none after them keeps the rest. */
  lemma {:induction false} OthersAfterMain(keywords: seq<string>)
    requires |keywords| >= 2 && keywords[0] in MainKeywords && keywords[1] in MainKeywords
    requires forall i :: 2 <= i < |keywords| ==> keywords[i] !in MainKeywords
    ensures Others(keywords) == keywords[2..]
    decreases |keywords|
  {
    var n := |keywords| - 1;
    var init := keywords[..n];
    if |keywords| == 2 {
      assert init[..0] == [];
      assert Others(init) == Others(init[..0]) + [];
      assert Others(keywords) == Others(init) + [];
    } else {
      OthersAfterMain(init);
      assert keywords[2..] == init[2..] + [keywords[n]];
    }
  }

  /** Only the first two search keywords are main keywords; the others differ from both in length or first letter. */
  lemma SearchKeywordsMain()
    ensures SearchKeywords[0] in MainKeywords && SearchKeywords[1] in MainKeywords
    ensures forall i :: 2 <= i < 9 ==> SearchKeywords[i] !in MainKeywords
  {
    var k := SearchKeywords;
    assert |k[0]| == 8 && |k[1]| == 3;
    assert |k[2]| == 10 && |k[4]| == 9 && |k[5]| == 11 && |k[6]| == 9 && |k[7]| == 7 && |k[8]| == 7;
    assert |k[3]| == 3 && k[3][0] != k[1][0];
  }

  /** With the daily job's keyword list, the other keywords are the last seven. */
  lemma OthersOfSearchKeywords()
    ensures Others(SearchKeywords) == SearchKeywords[2..]
  {
    SearchKeywordsMain();
    OthersAfterMain(SearchKeywords);
  }
}
