# Chungnam content agency news recommender — a Dafny model

The repository is a small news-monitoring tool for 충남콘텐츠진흥원 (the Chungnam content
agency). Once a day it searches a news API for nine agency keywords, removes duplicate
articles, scores each article from 0 to 10, keeps the best fifty and looks up the full headline
of the first twenty on the publisher's page (`daily_fetch.py`, `title_extractor.py`). A Streamlit
page (`app.py`) shows the saved list. It can be sorted by score or date, it is cut to the last
four days, and the score is recomputed for display. A card-news script (numbered
`TYPE=… | HEAD=…` lines or a JSON array) is parsed into cards (`card_parser.py`). Each card gets
an illustration prompt, icon searches and downloads, and a zip of the icons (`image_prep.py`).
A one-off script re-cleans or looks up the `full_title` of every saved article
(`update_existing_titles.py`).

The model is written in the source's own form:

- Loops that build lists become methods with loop invariants. Each method is proved equal to a
  specification function: `RemoveDuplicateArticles`, `CalculateRelevanceScore`,
  `FetchDailyRecommendations`, `ParseCardScript`, `FilterRecent`, `RefreshArticles`, the icon
  loops.
- Expression-level helpers (tag cleaning, title suffix cleaning, date handling, prompt text)
  become functions.
- Lemmas relate these to the properties the code and its comments promise.

Python's own operations are modelled in small modules:

- `Text`: `str.strip`, `split`, `replace`, `lower`, `int()`.
- `Patterns`: the handful of regular expressions the source uses.
- `Calendar`: `strptime("%Y-%m-%d")` and `weekday()`.
- `StableSort`: the stable `list.sort`.

Everything outside the program becomes a parameter, never an assumption:

- the current day (`today: Date`);
- the news search (`search`);
- the publisher page fetch (`fetch`);
- `difflib.SequenceMatcher(...).ratio()` (`sim`);
- `json.loads` (`json`);
- the icon search and the SVG download.

Scores are exact real numbers.

## Model

| member | source | states |
|---|---|---|
| Dedup.RemoveDuplicateArticles | daily_fetch.py:60-139 | the loop returns exactly the one-pass list `Dedup`: an article is kept iff its link is unseen, its non-empty originallink is unseen, its stripped title has at least 10 characters, no kept title clashes with it and no kept originallink equals it |
| Dedup.IsTitleDuplicate | daily_fetch.py:97-120 | the inner title loop answers true exactly when some kept article's title clashes with the candidate; it stops at the first clash |
| Dedup.CompareTitle | daily_fetch.py:98-120 | one turn of the title loop: a kept article with an empty stripped title never clashes; otherwise the titles clash when they are equal, or normalise equally, or the similarity of the normalised forms reaches the threshold |
| Dedup.IsOrigDuplicate | daily_fetch.py:126-131 | the originallink loop answers true exactly when some kept article has that same non-empty originallink |
| Dedup.TitleDuplicateIff | daily_fetch.py:97-120 | in both directions, the title scan reports a duplicate iff some kept article clashes with the title |
| Dedup.DedupSubsequence | daily_fetch.py:71-139 | the kept list is a subsequence of the input, in input order; an empty input gives an empty list |
| Dedup.DedupPrefix | daily_fetch.py:78-137 | deduplicating a prefix of the input gives a prefix of the full result, so a later article never removes an earlier one |
| Dedup.DedupPairwise | daily_fetch.py:84-137 | any two kept articles have different links and no shared non-empty originallink; both stripped titles have at least 10 characters and differ; their normalised forms differ, and the later one's similarity to the earlier is below the threshold |
| Dedup.DedupIdempotent | daily_fetch.py:60-139 | deduplicating an already deduplicated list changes nothing |
| Dedup.SecondOrigCheckRedundant | daily_fetch.py:125-131 | an article that passed the `seen_originallinks` test is never rejected by the later loop over kept originallinks |
| DailyFetch.RemoveSeparators | daily_fetch.py:48 | the result keeps only input characters, and none of them is a separator (`·`, whitespace, `-`, `,`, `，`) |
| DailyFetch.NormalizeTitleSeparatorFree | daily_fetch.py:34-57 | a normalised title holds no separator character, because no synonym replacement brings one in |
| DailyFetch.LastRulesInert | daily_fetch.py:55-56 | the last two replacements in the synonym list never change anything: "융·복합" can no longer occur once the separator class has removed the middle dot, and "콘텐츠" is replaced by itself; so normalisation equals applying only the first eight |
| DailyFetch.CompletedSynonym | daily_fetch.py:50 | a title ending in " 성료" normalises like the same title ending in " 완료", for every title |
| DailyFetch.CompletedExample | daily_fetch.py:50 | a concrete agency headline ending in 성료 normalises like its 완료 twin, so it is deduplicated against it |
| DailyFetch.CleanHtmlText | daily_fetch.py:278-290 | an empty text stays empty; every result is stripped, has no two consecutive whitespace characters, and the only whitespace left is the plain space |
| DailyFetch.FormatDate | daily_fetch.py:293-311 | an empty date gives "날짜 정보 없음"; a date whose part before the first `T` parses as `YYYY-MM-DD` gives `YYYY.MM.DD (요일)`; any other text is returned unchanged |
| DailyFetch.FormatDateIso | daily_fetch.py:299-309 | for every valid date and every time suffix, the ISO form `YYYY-MM-DDT…` formats as that date's Korean long form |
| DailyFetch.KoreanLongDateExample | daily_fetch.py:306-309 | 2025-12-30 formats as "2025.12.30 (화)", the example the code's comment gives |
| DailyFetch.FormatDateExample | daily_fetch.py:299-309 | the documented input "2025-12-30T10:30:00+09:00" gives "2025.12.30 (화)" |
| Scoring.MinReal | daily_fetch.py:173 | `min` is at most both arguments and is one of them |
| Scoring.Others | daily_fetch.py:159 | the other keywords are the search keywords that are not main keywords |
| Scoring.AddMatches | daily_fetch.py:163-166 | the keyword loop adds the weight once per keyword found in the text |
| Scoring.KeywordPart | daily_fetch.py:162-174 | the title (or description) loops give the main and other keyword hits, weighted and capped |
| Scoring.AddDailyBonus | daily_fetch.py:192-206 | the date block adds exactly the recency bonus of a valid `YYYY-MM-DD` prefix, and nothing when parsing fails |
| Scoring.CalculateRelevanceScore | daily_fetch.py:142-209 | the method computes the relevance score: capped title part + capped description part + date bonus, capped at 10 |
| Scoring.RecencyBonusValues | daily_fetch.py:201-204 | the recency bonus is 2.0 on the day itself and 0.5 at four days; it is at least 0.5 up to four days and 0 after; a future date gets more than 2.0 |
| Scoring.ScoreBounds | daily_fetch.py:142-209 | the title part lies in [0, 5], the description part in [0, 3], the date bonus is non-negative and the score lies in [0, 10], the range the docstring promises |
| Scoring.DailyBonusIso | daily_fetch.py:195-204 | an ISO date `YYYY-MM-DDT…` earns the recency bonus of its day count from today |
| Scoring.NonDigitDateNoBonus | daily_fetch.py:192-206 | a date string that does not start with a digit, such as an RFC 822 date, earns no bonus |
| Scoring.SingleMainKeywordScore | daily_fetch.py:162-174 | an article whose title holds exactly one main keyword and nothing else scores exactly 2.5 |
| Scoring.OthersOfSearchKeywords | daily_fetch.py:158-159 | on the nine search keywords the other keywords are exactly the last seven |
| Pipeline.Take | daily_fetch.py:257 | `[:n]` gives the first `min(n, len)` elements |
| Pipeline.Scored | daily_fetch.py:246-251 | scoring keeps the list's length and order and sets each article's score to its relevance score |
| Pipeline.GatherArticles | daily_fetch.py:224-237 | the search loop concatenates, keyword by keyword, the newest-first and then the relevance-ordered results |
| Pipeline.GatheredMembers | daily_fetch.py:224-237 | an article is gathered iff some search keyword's search, in some order, returned it |
| Pipeline.ScoreArticles | daily_fetch.py:246-251 | the scoring loop gives the rescored list |
| Pipeline.EnrichTop | daily_fetch.py:262-271 | the enrichment loop gives the list with the first twenty articles looked up |
| Pipeline.EnrichedSpec | daily_fetch.py:262-271 | enrichment changes at most `full_title`, and only on the first twenty articles with a URL; a non-empty answer is stored stripped; without a URL or an answer the article is left as it was |
| Pipeline.ExtractorStripped | daily_fetch.py:266-268 | the headline lookup answers only for a non-empty URL whose page loaded, and its answer is already stripped |
| Pipeline.FetchDailyRecommendations | daily_fetch.py:212-275 | the daily job returns gather, deduplicate, score, stable sort by score descending, take 50, enrich 20 |
| Pipeline.RankedLength | daily_fetch.py:254-257 | the ranked list has `min(50, unique)` entries, and when nothing is cut it is a permutation of the scored list |
| Pipeline.RankedOrder | daily_fetch.py:246-257 | ranked scores are non-increasing and within [0, 10], and each entry is a rescored deduplicated article |
| Pipeline.RankedSorted | daily_fetch.py:254 | the sort by score with `reverse=True` leaves scores non-increasing |
| Pipeline.RankedStable | daily_fetch.py:254 | articles with equal scores keep their relative order from the deduplicated list |
| Pipeline.RecommendationsSpec | daily_fetch.py:212-275 | the result has `min(50, unique)` entries, non-increasing scores in [0, 10], and from the 21st on it equals the ranked list |
| Pipeline.RecommendationsGathered | daily_fetch.py:212-275 | every recommendation is a gathered article, differing at most in score and `full_title` |
| Pipeline.RecommendationsDistinctLinks | daily_fetch.py:240-271 | no two recommendations share a link |
| Pipeline.RankedDistinctLinks | daily_fetch.py:246-257 | scoring, sorting and cutting keep links distinct |
| Pipeline.EnrichedDistinctLinks | daily_fetch.py:262-271 | enrichment keeps links distinct |
| Articles.SourceUrl | daily_fetch.py:263 | the publisher's URL is `originallink` or else `link`, and it is empty iff both are |
| StableSort.SortOrdered | daily_fetch.py:254 | the stable sort orders its input and is a permutation of it |
| StableSort.SortStable | daily_fetch.py:254 | for each element, the elements tied with it appear in the same relative order as in the input |
| Calendar.ParseFormatYmd | daily_fetch.py:197 | every valid date written `YYYY-MM-DD` parses back to itself |
| Calendar.FormatParseYmd | daily_fetch.py:197 | every string that parses as a date is that date's `YYYY-MM-DD` form |
| CardParser.ParseCardScript | card_parser.py:7-85 | the parser returns `ParseScript`: the JSON branch for a stripped script that starts with `[` or `{` and decodes to an array, the line grammar otherwise |
| CardParser.ParseScriptCases | card_parser.py:25-85 | the JSON branch runs exactly when the stripped script opens with `[`/`{` and decodes to an array; the parser raises iff that array has a non-object element; every card has a non-empty head |
| CardParser.ParseJsonItems | card_parser.py:34-42 | the JSON loop gives `JsonCards` of the array's items |
| CardParser.JsonCardsSpec | card_parser.py:32-43 | the JSON branch raises iff some array element is not an object; otherwise each card has an empty type and a non-empty head and comes from some object element |
| CardParser.JsonCardsSingle | card_parser.py:35-42 | one element: a non-object raises, an object with a headline gives its card, and an object without one gives nothing |
| CardParser.JsonCardsRaisesAfter | card_parser.py:34-40 | a non-object element anywhere makes the JSON branch raise, whatever came before it |
| CardParser.ParseLines | card_parser.py:49-84 | the line loop gives `LineCards`, one optional card per line, in order |
| CardParser.LineCardsAppend | card_parser.py:52-83 | the cards of concatenated line lists are the concatenated cards |
| CardParser.LineCardsMembers | card_parser.py:52-83 | a card is produced iff some line yields it; every produced card has non-empty type and head |
| CardParser.LineCard | card_parser.py:53-83 | a line yields at most one card, and only with a non-empty type and head |
| CardParser.LineCardSpec | card_parser.py:53-83 | a line yields a card iff it is a numbered line whose parts give a non-empty type and head; the card's fields are what the last part with each key gives |
| CardParser.ValueDropsEveryKey | card_parser.py:75 | a part holding the key twice loses both copies: the value of `HEAD=a HEAD=b` is `a b` |
| CardParser.Parts | card_parser.py:69 | the parts are the stripped `\|`-separated pieces of the line, one per piece |
| CardParser.ReadParts | card_parser.py:71-79 | the key loop builds the card the parts describe |
| CardParser.ApplyPartsFields | card_parser.py:71-79 | the key loop sets each field from the last part carrying its key, and leaves a field without such a part empty |
| CardParser.FieldFromLast | card_parser.py:71-79 | a later part with the same key overrides an earlier one |
| CardParser.UnnumberedScript | card_parser.py:54-55 | a single-line script that is not numbered and not a JSON array gives no cards |
| CardParser.EmptyScript | card_parser.py:25-85 | an empty script gives no cards |
| CardParser.ProseScript | card_parser.py:54-55 | a sentence of prose in place of the grammar gives no cards |
| CardParser.ThreeFieldLine | card_parser.py:16 | the documented line `N. TYPE=… \| HEAD=… \| IMAGE_KEY=…` yields the card with those values and an empty body |
| CardParser.FourFieldLine | card_parser.py:53-83 | a line with TYPE, HEAD, BODY and IMAGE_KEY yields exactly those four values |
| CardParser.DocumentedScript | card_parser.py:7-85 | a two-line script of one three-field and one four-field line gives those two cards in order |
| App.CleanHtmlTags | app.py:42-48 | an empty text stays empty; every result is stripped and holds no complete `<…>` tag |
| App.CleanHtmlTagsIdempotent | app.py:42-48 | cleaning twice equals cleaning once, and a text without `<` is only stripped |
| App.CleanTitleSuffix | app.py:51-60 | an empty text stays empty, and every result is stripped |
| App.CleanTitleSuffixPrefix | app.py:51-60 | the result is always the stripped form of a prefix of the input, so the cleaner only deletes a suffix |
| App.CleanTitleSuffixCases | app.py:55-59 | a title without `<` is only stripped; with one to six `<` and no `기사본문` crumb, everything from the first `<` goes |
| App.CleanTitleSuffixArticle | app.py:56 | a title followed by four breadcrumb `<` with `기사본문` after the last is cut at the first `<` |
| App.CleanTitleSuffixExample | app.py:52-56 | the comment's example "제목 < 문화 < 충남 < 전국 < 기사본문" cleans to "제목" |
| App.MonthNumber | app.py:1194-1201 | the month lookup always gives a month from 1 to 12 |
| App.MonthTable | app.py:1194-1201 | the twelve English abbreviations map to 1..12; the extra keys "No" and "De" map to 11 and 12; every other name gives 11 |
| App.WeekdayDate | app.py:1193-1205 | the weekday-form parse gives only valid dates |
| App.WeekdayDateYear | app.py:1197-1205 | with three words the year is the current year; with four or more it is the fourth word's integer |
| App.AppDateRfc | app.py:1193-1203 | an RFC 822 date `Wkd, DD Mon YYYY …` whose weekday has no `T` reads as its date |
| App.AppDate | app.py:1187-1209 | the date the page reads from `pubDate` is always a valid date |
| App.AppDateIso | app.py:1187-1189 | an ISO date `YYYY-MM-DDT…` reads as its date |
| App.AppDateBare | app.py:1206-1207 | a bare `YYYY-MM-DD` followed by text without `T` reads as its date |
| App.LeadingTNoDate | app.py:1187-1189 | a `pubDate` starting with `T` gives no date, because the `T` branch takes it and its empty date part does not parse |
| App.RecalculateScore | app.py:1152-1218 | the page's rescoring computes the same keyword parts as the daily job plus its own date bonus, capped at 10 |
| App.AppScoreBounds | app.py:1152-1218 | the page's score lies in [0, 10] with parts in [0, 5] and [0, 3] |
| App.AppBonusAgrees | app.py:1187-1189 | for any `pubDate` containing `T` the page gives the same date bonus as the daily job |
| App.AppKeywords | app.py:1139-1159 | the page's keyword lists equal the daily job's: two main keywords and the seven others |
| App.FilterRecent | app.py:1220-1256 | the filter loop keeps, in order, each article whose date is at most four days old, with its score recomputed |
| App.KeepRecent | app.py:1221-1253 | one turn keeps the rescored article iff it is recent |
| App.RecentSpecMembers | app.py:1220-1256 | every recent article appears rescored, and everything kept comes from a recent article |
| App.RecentSpecScores | app.py:1250-1253 | every kept article's score lies in [0.5, 10], since a recent article earns at least the four-day bonus |
| App.RecentScore | app.py:1211-1214 | a recent article's score lies in [0.5, 10] |
| App.RecentSpecAppend | app.py:1220-1256 | the filter distributes over concatenation, so it keeps the input's order |
| App.RecentSpecSingle | app.py:1221-1256 | one article gives itself rescored when recent, and nothing otherwise |
| App.RecentSpecLength | app.py:1220-1256 | the filter never lengthens the list |
| App.LexLessOrder | app.py:1129-1131 | string comparison of `pubDate` is irreflexive, transitive and total on distinct strings |
| App.SortBeforeOrder | app.py:1126-1131 | each of the three sort keys is a strict weak order |
| App.SortArticlesSpec | app.py:1125-1131 | each sort option gives a permutation, ordered by its key, that keeps tied articles in their original order |
| App.SortArticlesKeys | app.py:1126-1129 | the score option gives non-increasing scores; the newest option never puts an earlier `pubDate` string before a later one |
| App.RoundHalfEven | app.py:1329 | rounding lands within one half of the value, and a tie goes to the even integer, as Python's `f"{x:.1f}"` does |
| App.DisplayScoreValue | app.py:1274-1329 | a non-positive score shows "-"; otherwise the score capped at 10, rounded to one decimal, is shown as `N.D/10점` |
| App.IsoDate | app.py:1286-1289 | the display's ISO reading gives only valid dates |
| App.DisplayedDateAgrees | app.py:1284-1315 | whenever the scoring code reads a date, the display code reads the same date |
| App.DisplayDateIso | app.py:1284-1323 | an ISO date is shown as `YY.MM.DD.(요일)` |
| App.DisplayDateLeadingT | app.py:1286-1328 | a `pubDate` starting with `T` is shown as "-" |
| App.YearSuffixFourDigits | app.py:1320 | `str(year)[2:]` of a four-digit year is its last two digits |
| App.DisplayTitleClean | app.py:1265-1267 | the shown title (full title if truthy, else title) is tag-free, stripped, and a prefix of the tag-cleaned text |
| TitleExtractor.CleanTitle | title_extractor.py:9-27 | every cleaned title is stripped |
| TitleExtractor.CleanTitlePrefix | title_extractor.py:19-27 | the cleaned title is the stripped form of a prefix of the input: only suffixes are deleted |
| TitleExtractor.CleanTitleSingleLine | title_extractor.py:25-26 | on a single line no `\|` and no `-` survives cleaning |
| TitleExtractor.CleanTitlePlain | title_extractor.py:19-27 | a title with no `<`, `\|` or `-` is only stripped |
| TitleExtractor.PreCleanTitleTag | title_extractor.py:59-65 | the `<title>` pre-cleaning keeps a prefix of the text, up to trailing whitespace |
| TitleExtractor.FromSelectors | title_extractor.py:87-92 | the selector loop answers only when there are selectors, and its answer is stripped |
| TitleExtractor.FromSelectorsAnswers | title_extractor.py:87-92 | if any selector's text is longer than 10 once stripped, the loop answers |
| TitleExtractor.FromSelectorsFirst | title_extractor.py:87-92 | the answer is the cleaned text of the first selector whose text is long enough, and no earlier selector's text is |
| TitleExtractor.FromPage | title_extractor.py:55-101 | every answer from a page is stripped |
| TitleExtractor.FromPageFirstPresent | title_extractor.py:55-101 | the page answers with the first candidate that yields a title, in the fixed order `<title>`, og:title, the seven selectors, `<h1>` |
| TitleExtractor.ExtractFullTitle | title_extractor.py:30-105 | an empty URL or a failed request gives `None`; any answer comes from the loaded page and is stripped |
| ImagePrep.SlicePrefix | image_prep.py:37 | `icons[:limit]` is a prefix with `min(limit, len)` elements for a non-negative limit |
| ImagePrep.CollectIcons | image_prep.py:37-40 | the icon loop collects, in order, the icons the name filter accepts |
| ImagePrep.SearchIconifyIcons | image_prep.py:12-45 | the Iconify search returns its icon list for the query |
| ImagePrep.IconifyResultsSpec | image_prep.py:29-42 | a failed or non-200 response gives nothing; otherwise the first `limit` names, each with its SVG URL |
| ImagePrep.SearchMaterialIcons | image_prep.py:48-83 | the Material search asks for `material-symbols:` + query and returns its filtered list |
| ImagePrep.MaterialResultsSpec | image_prep.py:66-80 | a failed search gives nothing; an icon is returned iff its name is offered within the limit and starts with `material-symbols:`; at most `limit` icons |
| ImagePrep.PromptShape | image_prep.py:120-163 | the prompt depends on the card type only through its lower-case form, holds the upper-cased `[카드 타입: …]` line and the quoted `제목: "…"` line, opens with the fixed brand text and ends with the IMAGE_KEY line |
| ImagePrep.PromptNamesCard | image_prep.py:145-156 | the prompt contains the line `[카드 타입: TYPE]` with the upper-cased card type and the line `제목: "HEAD"` quoting the card's head |
| ImagePrep.PromptBody | image_prep.py:158-159 | the body line is present iff the body is non-empty, and it quotes the body |
| ImagePrep.KeywordsAreTokens | image_prep.py:233 | the keywords are the whitespace words of the key with commas read as spaces |
| ImagePrep.QuerySpec | image_prep.py:233-236 | the query is empty iff the key is blank, and it never holds whitespace |
| ImagePrep.CommaOnlyQuery | image_prep.py:233-234 | the key ",," has no keywords and falls back to the query ",," |
| ImagePrep.DownloadIcons | image_prep.py:252-262 | the download loops keep, in order, the icons whose download gave non-empty data |
| ImagePrep.DownloadedSpec | image_prep.py:252-262 | a file is downloaded iff some icon's download was non-empty; never more files than icons |
| ImagePrep.PrepareCardImages | image_prep.py:205-270 | preparation returns the prompt, both searches and both downloads for the card |
| ImagePrep.PreparedSpec | image_prep.py:205-270 | the prompt is always built; a blank key gives no icons; at most three icons per search and at most one file per icon |
| ImagePrep.CreateImagesZip | image_prep.py:166-202 | the zip loops give the entries of both icon lists |
| ImagePrep.ZipEntriesSpec | image_prep.py:184-199 | an entry is written iff some icon has data, and there are never more entries than icons |
| ImagePrep.MaterialEntryName | image_prep.py:198 | a Material icon `material-symbols:X` is stored as `material-icons/X.svg` |
| UpdateTitles.Refreshed | update_existing_titles.py:31-56 | one turn changes at most `full_title` |
| UpdateTitles.RefreshedList | update_existing_titles.py:30-56 | the loop keeps the list's length and order, each article refreshed on its own |
| UpdateTitles.RefreshArticle | update_existing_titles.py:31-56 | the loop body gives the refreshed article and whether it counted |
| UpdateTitles.RefreshArticles | update_existing_titles.py:30-56 | the loop gives the refreshed list and the number of counted turns |
| UpdateTitles.UpdateExistingTitles | update_existing_titles.py:12-62 | the script writes back the refreshed list and reports the count, or writes nothing for a missing or empty file |
| UpdateTitles.ExistingTitle | update_existing_titles.py:32-39 | an article with a title is never looked up; its title becomes the cleaned form, counted iff cleaning changed it |
| UpdateTitles.WithoutTitle | update_existing_titles.py:41-56 | an article without a title and without links is untouched; otherwise it is looked up at originallink, else link; a non-empty answer is stored cleaned and counted |
| UpdateTitles.CountedChanges | update_existing_titles.py:32-53 | every change is counted; a counted turn that changes nothing happens only for an empty `full_title` whose cleaned answer is empty |
| UpdateTitles.CountedCleaned | update_existing_titles.py:36-52 | after a counted turn `full_title` is present and stripped |
| UpdateTitles.CountBounds | update_existing_titles.py:30-53 | the count is at most the number of articles; it is 0 iff no turn counted and the full length iff every turn counted |
| UpdateTitles.ChangedAreCounted | update_existing_titles.py:30-53 | an article the script changed makes the count at least one |
| UpdateTitles.SavedSpec | update_existing_titles.py:14-60 | a missing file or an empty list writes nothing and reports 0; otherwise the same articles are written back in order, differing at most in `full_title` |

## Behaviour worth knowing

These follow from the code as written, and the model keeps them:

- `app.py` tests for `T` in `pubDate` before trying the weekday form. An RFC 822 date on a
  Tuesday or Thursday ("Tue, …", "Thu, …") takes the `T` branch, does not parse, and gets no
  date. On the page such an article is filtered out. `App.AppDateRfc` therefore requires a
  weekday without `T`.
- In `card_parser.py` the key text is removed with `str.replace`, so every occurrence of the
  key inside the part goes, not only the leading one (`CardParser.ValueDropsEveryKey`).
- `update_existing_titles.py` counts an update when an empty `full_title` is looked up and the
  answer cleans to empty (`UpdateTitles.CountedChanges`).
- An `image_key` made only of commas has no keywords, and the query is the key itself
  (`ImagePrep.CommaOnlyQuery`).
- A JSON array with a non-object element makes `item.get` raise an `AttributeError`, which the
  `except json.JSONDecodeError` does not catch. The model's `Raises` outcome stands for that
  exception.
- In the `<title>` branch the length test is made after the `|`/`-` cuts and before the final
  strip (`TitleExtractor.PreCleanTitleTag`).
- The second originallink loop in `remove_duplicate_articles` can never reject anything
  (`Dedup.SecondOrigCheckRedundant`).

## Left out

- Calendar.ParseYmd: accepts only the zero-padded `YYYY-MM-DD` form. `strptime("%Y-%m-%d")` also
  accepts one-digit months and days (and a day written with a leading space). Dates of that
  shape get no bonus and no display date in the model.
- Scoring.CalculateRelevanceScore, App.RecalculateScore: scores are exact reals. Binary
  floating-point rounding of the weights (0.375, 0.3, 0.2) is not modelled. A comparison with
  the cap of 10 or a display rounding tie may therefore differ in the last bit.
- App.RoundHalfEven: rounds the exact value. Python formats the nearest binary double.
- Text.Lower, Text.Upper: ASCII case mapping only. The keywords and titles are Korean and
  unaffected.
- Text.ParseInt: accepts surrounding whitespace, an optional sign and ASCII digits. `int()` also
  accepts underscores between digits and non-ASCII decimal digits.
- Python dictionaries are modelled as values. The source mutates article dicts in place
  (`article["relevance_score"] = …`, `article["full_title"] = …`). The lists share article dicts
  (`articles.copy()` in `app.py`, the lists built from `all_articles` in `daily_fetch.py`), but only
  the last list is used afterwards, so aliasing has no visible effect.
- App.WeekdayPrefix, App.YmdPrefix, CardParser.NumberedLine: `\d` is read as the ASCII digits
  `0`..`9`. Python's `\d` on `str` also matches every other Unicode decimal digit.
- I/O and the outside world are parameters, as listed above: the clock, the news search, page
  fetching and HTML parsing, and the icon search.
- TitleExtractor.Page: a page is only the texts the extractor reads. BeautifulSoup's parsing and
  `get_text()` are not modelled.
- The JSON decoder: `json.loads` is the parameter `json`. An object's members are modelled as
  strings only, so a JSON value that is not a string is not modelled.
- `download_svg`: its retries, delay, timeouts and status handling are the `download` parameter.
- A non-string icon name in a search response is not modelled. In the source it makes
  `startswith` raise, and the search returns an empty list.
- `create_images_zip`: the archive's compression and bytes are not modelled. It is modelled as
  its list of (path, data) entries, in writing order.
- `update_existing_titles.py`: the JSON file is modelled as its article list. Other keys are
  written back unchanged. A file that is not valid JSON makes `json.load` raise, and that case is
  not modelled.
- Logging, `print`, the Streamlit widgets and layout, `load_env`, and `send_slack_notification`
  and `main` in `daily_fetch.py` are not part of this model. The same goes for the crawl-time
  caption and `_render_article_details`.
- `slack_app.py`, `gemini_api.py`, `naver_api.py`, `cache_manager.py`, `history_manager.py`,
  `daily_recommendations.py` and the scheduler are not part of this model.
- `difflib.SequenceMatcher.ratio()` is the parameter `sim`. Its value range and symmetry are not
  assumed.
