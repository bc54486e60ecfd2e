/**
 * The helpers of the Streamlit page (`app.py`) that decide what the daily-recommendation list
 * shows: the two title and description cleaners, the score the page recomputes for every stored
 * article (`recalculate_score`, which reads three date forms), the four-day filter, the three sort
 * options, and the text of a row's date and score.
 *
 * The clock is the parameter `today`; `datetime.now().year`, which the weekday form falls back to,
 * is `today.year`.
 */
module App {
  import opened Wrappers
  import opened Text
  import opened Calendar
  import opened Articles
  import opened Patterns
  import opened Scoring
  import opened StableSort
  import opened Lists

  // ---------------------------------------------------------------------------
  // `clean_html_tags` and `clean_title_suffix`
  // ---------------------------------------------------------------------------

  /** `clean_html_tags(text)`: "" for empty text; otherwise the tags are removed and the ends stripped. */
  function CleanHtmlTags(text: string): (r: string)
    ensures text == "" ==> r == ""
    ensures IsStripped(r) && TagFree(r)
  {
    if text == "" then ""
    else
      var c := RemoveTags(text);
      RemoveTagsTagFree(text);
      StripTagFree(c);
      Strip(c)
  }

  lemma StripTagFree(c: string)
    requires TagFree(c)
    ensures TagFree(Strip(c))
  {
    var i := StripAt(c);
    TagFreePiece(c, Strip(c), i);
  }

  lemma TagFreePiece(s: string, r: string, i: int)
    requires TagFree(s) && PieceAt(s, r, i)
    ensures TagFree(r)
  {
    TagFreeSlice(s, i, i + |r|);
  }

  /** A text without tags comes out of the tag removal unchanged. */
  lemma {:induction false} RemoveTagsOfTagFree(s: string)
    requires TagFree(s)
    ensures RemoveTags(s) == s
    decreases |s|
  {
    if s != [] {
      assert !TagAt(s, 0);
      TagFreeSlice(s, 1, |s|);
      assert s[1..|s|] == s[1..];
      RemoveTagsOfTagFree(s[1..]);
    }
  }

  /** Cleaning twice cleans nothing more; a text holding no `<` is only stripped. */
  lemma CleanHtmlTagsIdempotent(text: string)
    ensures CleanHtmlTags(CleanHtmlTags(text)) == CleanHtmlTags(text)
    ensures '<' !in text ==> CleanHtmlTags(text) == Strip(text)
  {
    var r := CleanHtmlTags(text);
    if r != "" {
      RemoveTagsOfTagFree(r);
      StripStripped(r);
    }
    if '<' !in text && text != "" {
      assert TagFree(text) by {
        forall i | 0 <= i < |text| ensures !TagAt(text, i) {
          assert text[i] in text;
        }
      }
      RemoveTagsOfTagFree(text);
    }
  }

  /** `clean_title_suffix(text)`: "" for empty text; otherwise the four breadcrumb deletions, then `strip()`. */
  function CleanTitleSuffix(text: string): (r: string)
    ensures text == "" ==> r == ""
    ensures IsStripped(r)
  {
    if text == "" then "" else Strip(CutBreadcrumbs(text))
  }

  /** Every deletion takes off a suffix, so the result is the stripped form of a prefix of the input. */
  lemma CleanTitleSuffixPrefix(text: string)
    ensures exists p :: 0 <= p <= |text| && CleanTitleSuffix(text) == Strip(text[..p])
  {
    if text == "" {
      assert CleanTitleSuffix(text) == Strip(text[..0]);
    } else {
      CutBreadcrumbsPrefix(text);
      StripTrimmedPrefix(CutBreadcrumbs(text), text);
    }
  }

  /**
   * A text without `<` is only stripped; one with between one and six `<` and no "기사본문" loses
   * everything from its first `<` on.
   */
  lemma CleanTitleSuffixCases(text: string)
    ensures '<' !in text ==> CleanTitleSuffix(text) == Strip(text)
    ensures 1 <= CountLt(text) <= 6 && !Contains(text, ArticleBody) ==>
      CleanTitleSuffix(text) == Strip(text[..NthLt(text, 0)])
  {
    if '<' !in text {
      CutBreadcrumbsNoLt(text);
    }
    if 1 <= CountLt(text) <= 6 && !Contains(text, ArticleBody) {
      CutBreadcrumbsFew(text);
      StripTrimEnd(text[..NthLt(text, 0)]);
    }
  }

  /** The breadcrumb of the code's own comment: a title, three sections, then "기사본문". */
  const BreadcrumbTitle: string := "제목 < 문화 < 충남 < 전국 < 기사본문"

  lemma BreadcrumbTitleFacts()
    ensures |BreadcrumbTitle| == 24
    ensures BreadcrumbTitle[3] == '<' && BreadcrumbTitle[8] == '<' && BreadcrumbTitle[13] == '<' && BreadcrumbTitle[18] == '<'
    ensures forall k :: 0 <= k < 18 && k != 3 && k != 8 && k != 13 ==> BreadcrumbTitle[k] != '<'
    ensures BreadcrumbTitle[..3] == "제목 " && BreadcrumbTitle[19] == ' ' && BreadcrumbTitle[20..] == ArticleBody
  {
  }

  lemma BreadcrumbTitleTail()
    ensures TrimStart(BreadcrumbTitle[19..]) == ArticleBody
  {
    BreadcrumbTitleFacts();
    var u := BreadcrumbTitle[19..];
    assert u[0] == ' ' && u[1..] == ArticleBody;
    TrimStartOfStripped(ArticleBody);
  }

  lemma BreadcrumbTitleCut(s: string)
    requires s == BreadcrumbTitle
    ensures CutBreadcrumbs(s) == TrimEnd("제목 ")
  {
    BreadcrumbTitleFacts();
    BreadcrumbTitleTail();
    assert StartsWith(ArticleBody, ArticleBody);
    assert ArticleBody[|ArticleBody|..] == [];
    CutBreadcrumbsArticleAt(s, 3, 8, 13, 18);
  }

  /** The breadcrumb title of the code's comment is cleaned down to "제목". */
  lemma CleanTitleSuffixExample(s: string)
    requires s == BreadcrumbTitle
    ensures CleanTitleSuffix(s) == "제목"
  {
    BreadcrumbTitleCut(s);
    BreadcrumbTitleStrip();
  }

  lemma BreadcrumbTitleStrip()
    ensures Strip(TrimEnd("제목 ")) == "제목"
  {
    assert TrimEnd("제목 ") == "제목";
    StripStripped("제목");
  }

  /**
   * A title followed by a breadcrumb whose first four `<` lead to "기사본문" at the end of the
   * line is cleaned down to the stripped text before the first `<`.
   */
  lemma CleanTitleSuffixArticle(s: string, p1: int, p2: int, p3: int, p4: int)
    requires 0 <= p1 < p2 < p3 < p4 < |s|
    requires s[p1] == '<' && s[p2] == '<' && s[p3] == '<' && s[p4] == '<'
    requires forall k :: 0 <= k < p4 && k != p1 && k != p2 && k != p3 ==> s[k] != '<'
    requires TrimStart(s[p4 + 1..]) == ArticleBody
    ensures CleanTitleSuffix(s) == Strip(s[..p1])
  {
    CutBreadcrumbsArticleEnd(s, p1, p2, p3, p4);
    CleanTitleSuffixOfCut(s, p1);
  }

  /** When the deletions cut before `q`, the cleaned title is the stripped text before `q`. */
  lemma CleanTitleSuffixOfCut(s: string, q: int)
    requires 0 <= q <= |s| && s != "" && CutBreadcrumbs(s) == TrimEnd(s[..q])
    ensures CleanTitleSuffix(s) == Strip(s[..q])
  {
    StripTrimEnd(s[..q]);
  }

  // ---------------------------------------------------------------------------
  // The three date forms of `recalculate_score` and of the filter loop
  // ---------------------------------------------------------------------------

  predicate IsAsciiLetter(c: char) {
    ('A' <= c <= 'Z') || ('a' <= c <= 'z')
  }

  /**
   * `re.match(r"^[A-Za-z]{3},\s*\d{1,2}\s+[A-Za-z]{2,3}", s)`: three letters and a comma, optional
   * whitespace, a run of one or two digits, whitespace, then two letters. A run of three digits
   * can not match, because the whitespace must follow at most two of them.
   */
  predicate WeekdayPrefix(s: string) {
    && |s| >= 4 && IsAsciiLetter(s[0]) && IsAsciiLetter(s[1]) && IsAsciiLetter(s[2]) && s[3] == ','
    && var t := TrimStart(s[4..]);
       var n := LeadingDigits(t);
       && 1 <= n <= 2 && n < |t| && IsSpace(t[n])
       && var u := TrimStart(t[n..]);
          |u| >= 2 && IsAsciiLetter(u[0]) && IsAsciiLetter(u[1])
  }

  /** `month_map.get(name, 11)`: English abbreviations, the cut forms "No" and "De", and 11 otherwise. */
  function MonthNumber(name: string): (m: int)
    ensures 1 <= m <= 12
  {
    if name == "Jan" then 1 else if name == "Feb" then 2 else if name == "Mar" then 3
    else if name == "Apr" then 4 else if name == "May" then 5 else if name == "Jun" then 6
    else if name == "Jul" then 7 else if name == "Aug" then 8 else if name == "Sep" then 9
    else if name == "Oct" then 10 else if name == "Dec" || name == "De" then 12
    else 11
  }

  /** `s.rstrip(c)`. */
  function TrimEndChar(s: string, c: char): (r: string)
    ensures |r| <= |s| && r == s[..|r|]
    ensures r == [] || r[|r| - 1] != c
    decreases |s|
  {
    if s != [] && s[|s| - 1] == c then TrimEndChar(s[..|s| - 1], c) else s
  }

  /**
   * The weekday form: day from the second word without its trailing commas, month from the
   * third, year from the fourth or else the current year. Fewer than three words, a word `int()`
   * rejects, or a date `datetime` rejects gives no date.
   */
  function WeekdayDate(pub: string, currentYear: int): (r: Option<Date>)
    ensures r.Some? ==> Valid(r.value)
  {
    var parts := Tokens(pub);
    if |parts| < 3 then None
    else
      match ParseInt(TrimEndChar(parts[1], ','))
      case None => None
      case Some(day) =>
        var year := if |parts| >= 4 then ParseInt(parts[3]) else Some(currentYear);
        match year
        case None => None
        case Some(y) =>
          var d := Date(y, MonthNumber(parts[2]), day);
          if Valid(d) then Some(d) else None
  }

  /** `re.match(r"^\d{4}-\d{2}-\d{2}", s)`. */
  predicate YmdPrefix(s: string) {
    |s| >= 10 && AllDigits(s[..4]) && s[4] == '-' && AllDigits(s[5..7]) && s[7] == '-' && AllDigits(s[8..10])
  }

  /**
   * The date the page reads from a `pubDate`, tried in the code's order: any text holding a `T`
   * is read as `YYYY-MM-DD` before its first `T`; otherwise the weekday form; otherwise a
   * `YYYY-MM-DD` prefix. Every failure, raised or not, gives no date.
   */
  function AppDate(pub: string, currentYear: int): (r: Option<Date>)
    ensures r.Some? ==> Valid(r.value)
  {
    if 'T' in pub then ParseYmd(Split(pub, 'T')[0])
    else if WeekdayPrefix(pub) then WeekdayDate(pub, currentYear)
    else if YmdPrefix(pub) then ParseYmd(pub[..10])
    else None
  }

  /** The names of the month table, January first; "No" and "De" are the cut forms of the last two. */
  const MonthNames: seq<string> := ["Jan", "Feb", "Mar", "Apr", "May", "Jun", "Jul", "Aug", "Sep", "Oct", "Nov", "Dec"]

  /** The month table: every name maps to its month, the cut forms to November and December, anything else to 11. */
  lemma MonthTable(name: string)
    ensures forall i :: 0 <= i < 12 ==> MonthNumber(MonthNames[i]) == i + 1
    ensures MonthNumber("No") == 11 && MonthNumber("De") == 12
    ensures name !in MonthNames && name != "De" ==> MonthNumber(name) == 11
  {
  }

  /**
   * A `pubDate` that starts with `T` (as "Tue, ..." and "Thu, ..." do) is read by the `T` branch
   * from the empty text before that `T`, which `strptime` rejects: it has no date at all.
   */
  lemma LeadingTNoDate(pub: string, currentYear: int)
    requires pub != [] && pub[0] == 'T'
    ensures AppDate(pub, currentYear) == None
  {
    assert pub == [] + ['T'] + pub[1..];
    SplitAtFirst([], 'T', pub[1..]);
  }

  /** An ISO timestamp is read as the date before its `T`. */
  lemma AppDateIso(d: Date, rest: string, currentYear: int)
    requires Valid(d)
    ensures AppDate(FormatYmd(d) + "T" + rest, currentYear) == Some(d)
  {
    FormatYmdHasNoT(d);
    SplitAtFirst(FormatYmd(d), 'T', rest);
    ParseFormatYmd(d);
    assert 'T' in FormatYmd(d) + "T" + rest by {
      assert (FormatYmd(d) + "T" + rest)[10] == 'T';
    }
  }

  /** A bare `YYYY-MM-DD` date, with anything after it that holds no `T`, is read from its first ten characters. */
  lemma AppDateBare(d: Date, rest: string, currentYear: int)
    requires Valid(d) && 'T' !in rest
    ensures AppDate(FormatYmd(d) + rest, currentYear) == Some(d)
  {
    var y := FormatYmd(d);
    var s := y + rest;
    assert 'T' !in s by {
      FormatYmdHasNoT(d);
    }
    assert !WeekdayPrefix(s) by {
      assert s[0] == Pad4(d.year)[0];
    }
    assert YmdPrefix(s) && s[..10] == y by {
      YmdPrefixOfFormat(d, rest);
    }
    ParseFormatYmd(d);
  }

  /** A formatted date followed by anything has the `YYYY-MM-DD` shape in its first ten characters. */
  lemma YmdPrefixOfFormat(d: Date, rest: string)
    requires Valid(d)
    ensures var s := FormatYmd(d) + rest; YmdPrefix(s) && s[..10] == FormatYmd(d)
  {
    var s := FormatYmd(d) + rest;
    assert s[..10] == FormatYmd(d);
    assert s[..4] == Pad4(d.year) && s[5..7] == Pad2(d.month) && s[8..10] == Pad2(d.day);
  }

  /** In the weekday form a missing fourth word means the current year. */
  lemma WeekdayDateYear(pub: string, currentYear: int)
    requires WeekdayDate(pub, currentYear).Some?
    ensures |Tokens(pub)| == 3 ==> WeekdayDate(pub, currentYear).value.year == currentYear
    ensures |Tokens(pub)| >= 4 ==> Some(WeekdayDate(pub, currentYear).value.year) == ParseInt(Tokens(pub)[3])
    ensures 1 <= currentYear <= 9999 || |Tokens(pub)| >= 4
  {
  }

  /**
   * The date as the news search writes it: weekday, comma, day, month and year separated by
   * single spaces, followed by `rest` (the time and the zone). Built from the right, so that each
   * word is followed by the rest of the text.
   */
  function RfcDate(wd: string, dd: string, mon: string, yyyy: string, rest: string): string {
    (wd + ",") + (" " + (dd + (" " + (mon + (" " + (yyyy + rest))))))
  }

  /** A word and a space come off the front of the words. */
  lemma TokensWordSpace(w: string, x: string)
    requires w != [] && NoSpace(w)
    ensures Tokens(w + (" " + x)) == [w] + Tokens(x)
  {
    assert IsSpace((" " + x)[0]);
    TokensCons(w, " " + x);
    assert (" " + x)[1..] == x;
    assert TrimStart(" " + x) == TrimStart(x);
  }

  lemma MonthNamesShape(m: int)
    requires 1 <= m <= 12
    ensures |MonthNames[m - 1]| == 3 && 'T' !in MonthNames[m - 1] && NoSpace(MonthNames[m - 1])
    ensures IsAsciiLetter(MonthNames[m - 1][0]) && IsAsciiLetter(MonthNames[m - 1][1])
    ensures MonthNumber(MonthNames[m - 1]) == m
  {
    MonthTable("");
  }

  /** Four words joined by single spaces, then `rest`, split into those four words and the words of `rest`. */
  lemma FourWords(w1: string, w2: string, w3: string, w4: string, rest: string)
    requires w1 != [] && NoSpace(w1) && w2 != [] && NoSpace(w2)
    requires w3 != [] && NoSpace(w3) && w4 != [] && NoSpace(w4)
    requires rest == [] || IsSpace(rest[0])
    ensures Tokens(w1 + (" " + (w2 + (" " + (w3 + (" " + (w4 + rest))))))) == [w1] + ([w2] + ([w3] + ([w4] + Tokens(rest))))
  {
    var x3 := w4 + rest;
    var x2 := w3 + (" " + x3);
    var x1 := w2 + (" " + x2);
    TokensCons(w4, rest);
    TokensWordSpace(w3, x3);
    TokensWordSpace(w2, x2);
    TokensWordSpace(w1, x1);
  }

  /** A space before a word is skipped: the word is what `TrimStart` leaves. */
  lemma TrimStartSpaceWord(x: string)
    requires x != [] && !IsSpace(x[0])
    ensures TrimStart(" " + x) == x
  {
    assert (" " + x)[1..] == x;
  }

  /** A weekday, a comma, a two-digit day and a word of at least two letters match the weekday pattern. */
  lemma WeekdayPrefixOf(wd: string, dd: string, mon: string, tail: string)
    requires |wd| == 3 && IsAsciiLetter(wd[0]) && IsAsciiLetter(wd[1]) && IsAsciiLetter(wd[2])
    requires |dd| == 2 && AllDigits(dd)
    requires |mon| >= 2 && IsAsciiLetter(mon[0]) && IsAsciiLetter(mon[1])
    ensures WeekdayPrefix((wd + ",") + (" " + (dd + (" " + (mon + tail)))))
  {
    var x2 := mon + tail;
    var t := dd + (" " + x2);
    var s := (wd + ",") + (" " + t);
    assert s[4..] == " " + t;
    assert s[0] == wd[0] && s[1] == wd[1] && s[2] == wd[2] && s[3] == ',';
    assert t[0] == dd[0] && IsDigit(dd[0]);
    TrimStartSpaceWord(t);
    TwoDigitsThenSpace(dd, x2);
    assert t[2..] == " " + x2;
    assert x2[0] == mon[0] && x2[1] == mon[1];
    TrimStartSpaceWord(x2);
    WeekdayPrefixParts(s, t, x2);
  }

  /** Two digits and a space: the leading digits are the two. */
  lemma TwoDigitsThenSpace(dd: string, x: string)
    requires |dd| == 2 && AllDigits(dd)
    ensures LeadingDigits(dd + (" " + x)) == 2
  {
    var t := dd + (" " + x);
    assert t[0] == dd[0] && IsDigit(dd[0]);
    assert t[1] == dd[1] && IsDigit(dd[1]) && t[2] == ' ';
    assert t[1..][0] == dd[1] && t[1..][1..] == t[2..];
  }

  /** The weekday pattern from its pieces: the weekday and comma, the day, and the month word. */
  lemma WeekdayPrefixParts(s: string, t: string, x: string)
    requires |s| >= 4 && IsAsciiLetter(s[0]) && IsAsciiLetter(s[1]) && IsAsciiLetter(s[2]) && s[3] == ','
    requires TrimStart(s[4..]) == t && LeadingDigits(t) == 2 && 2 < |t| && IsSpace(t[2])
    requires TrimStart(t[2..]) == x && |x| >= 2 && IsAsciiLetter(x[0]) && IsAsciiLetter(x[1])
    ensures WeekdayPrefix(s)
  {
  }

  /** A text of the search API's form holds a `T` only where its weekday or its `rest` does. */
  lemma RfcDateNoT(wd: string, dd: string, mon: string, yyyy: string, rest: string)
    requires 'T' !in wd && 'T' !in dd && 'T' !in mon && 'T' !in yyyy && 'T' !in rest
    ensures 'T' !in RfcDate(wd, dd, mon, yyyy, rest)
  {
  }

  /** The comma after a weekday of letters keeps it one word. */
  lemma WeekdayWord(wd: string)
    requires |wd| == 3 && IsAsciiLetter(wd[0]) && IsAsciiLetter(wd[1]) && IsAsciiLetter(wd[2])
    ensures NoSpace(wd + ",")
  {
    var w := wd + ",";
    assert w[0] == wd[0] && w[1] == wd[1] && w[2] == wd[2] && w[3] == ',';
  }

  /**
   * A text of the search API's shape, with a two-digit day, a month word and a four-digit year,
   * is read as the date those three words name, when that date exists, and as no date otherwise.
   */
  lemma AppDateRfcWords(wd: string, dd: string, mon: string, yyyy: string, rest: string, currentYear: int)
    requires |wd| == 3 && IsAsciiLetter(wd[0]) && IsAsciiLetter(wd[1]) && IsAsciiLetter(wd[2]) && 'T' !in wd
    requires |dd| == 2 && AllDigits(dd) && |yyyy| == 4 && AllDigits(yyyy)
    requires |mon| >= 2 && IsAsciiLetter(mon[0]) && IsAsciiLetter(mon[1]) && NoSpace(mon) && 'T' !in mon
    requires 'T' !in rest && (rest == [] || IsSpace(rest[0]))
    ensures AppDate(RfcDate(wd, dd, mon, yyyy, rest), currentYear)
            == (var d := Date(DigitsValue(yyyy), MonthNumber(mon), DigitsValue(dd)); if Valid(d) then Some(d) else None)
  {
    var s := RfcDate(wd, dd, mon, yyyy, rest);
    assert 'T' !in dd && NoSpace(dd) by {
      assert forall i :: 0 <= i < |dd| ==> IsDigit(dd[i]);
    }
    assert 'T' !in yyyy && NoSpace(yyyy) by {
      assert forall i :: 0 <= i < |yyyy| ==> IsDigit(yyyy[i]);
    }
    RfcDateNoT(wd, dd, mon, yyyy, rest);
    WeekdayPrefixOf(wd, dd, mon, " " + (yyyy + rest));
    WeekdayWord(wd);
    FourWords(wd + ",", dd, mon, yyyy, rest);
    WeekdayDateWords(s, wd + ",", dd, mon, yyyy, Tokens(rest), currentYear);
  }

  /** The weekday form read from its words: the day and the year are the digits of the second and fourth word. */
  lemma WeekdayDateWords(pub: string, w: string, dd: string, mon: string, yyyy: string, tail: seq<string>, currentYear: int)
    requires Tokens(pub) == [w] + ([dd] + ([mon] + ([yyyy] + tail)))
    requires |dd| == 2 && AllDigits(dd) && |yyyy| == 4 && AllDigits(yyyy)
    ensures WeekdayDate(pub, currentYear)
            == (var d := Date(DigitsValue(yyyy), MonthNumber(mon), DigitsValue(dd)); if Valid(d) then Some(d) else None)
  {
    var p3 := [yyyy] + tail;
    var p2 := [mon] + p3;
    var p1 := [dd] + p2;
    assert p1[1..] == p2 && p2[1..] == p3;
    assert |Tokens(pub)| >= 4 && Tokens(pub)[1] == dd && Tokens(pub)[2] == mon && Tokens(pub)[3] == yyyy;
    TrimEndCharDigits(dd);
    ParseIntDigits(dd);
    ParseIntDigits(yyyy);
    WeekdayDateOf(pub, currentYear, DigitsValue(dd), DigitsValue(yyyy));
  }

  /** A comma cut off the end of a two-digit day leaves it as it is. */
  lemma TrimEndCharDigits(dd: string)
    requires |dd| == 2 && AllDigits(dd)
    ensures TrimEndChar(dd, ',') == dd
  {
    assert IsDigit(dd[1]);
  }

  /** The weekday form once its day and its year are read. */
  lemma WeekdayDateOf(pub: string, currentYear: int, day: int, year: int)
    requires |Tokens(pub)| >= 4
    requires ParseInt(TrimEndChar(Tokens(pub)[1], ',')) == Some(day) && ParseInt(Tokens(pub)[3]) == Some(year)
    ensures WeekdayDate(pub, currentYear)
            == (var d := Date(year, MonthNumber(Tokens(pub)[2]), day); if Valid(d) then Some(d) else None)
  {
  }

  /**
   * The search API's date "Mon, 23 Dec 2024 09:00:00 +0900" is read as its own date, as long as
   * the weekday holds no `T` (for "Tue" and "Thu" the `T` branch wins, as `LeadingTNoDate` shows).
   */
  lemma AppDateRfc(wd: string, d: Date, rest: string, currentYear: int)
    requires Valid(d) && |wd| == 3 && IsAsciiLetter(wd[0]) && IsAsciiLetter(wd[1]) && IsAsciiLetter(wd[2])
    requires 'T' !in wd && 'T' !in rest && (rest == [] || IsSpace(rest[0]))
    ensures AppDate(RfcDate(wd, Pad2(d.day), MonthNames[d.month - 1], Pad4(d.year), rest), currentYear) == Some(d)
  {
    MonthNamesShape(d.month);
    AppDateRfcWords(wd, Pad2(d.day), MonthNames[d.month - 1], Pad4(d.year), rest, currentYear);
  }

  // ---------------------------------------------------------------------------
  // `recalculate_score`
  // ---------------------------------------------------------------------------

  /** The recency bonus of the date the page reads; no date, or one raising, gives none. */
  function AppBonus(pub: string, today: Date): real
    requires Valid(today)
  {
    if pub == "" then 0.0
    else match AppDate(pub, today.year)
      case None => 0.0
      case Some(d) => RecencyBonus(DaysSince(today, d))
  }

  /** The score `recalculate_score` gives, always over the nine search keywords. */
  function AppScore(a: Article, today: Date): real
    requires Valid(today)
  {
    MinReal(TitlePart(a.title, SearchKeywords) + DescPart(a.description, SearchKeywords) + AppBonus(a.pubDate, today), 10.0)
  }

  /** `recalculate_score(article)` with the clock reading `today`. */
  method RecalculateScore(article: Article, today: Date) returns (score: real)
    requires Valid(today)
    ensures score == AppScore(article, today)
  {
    score := 0.0;
    var title := Lower(article.title);
    var description := Lower(article.description);
    var otherKeywords := Others(SearchKeywords);

    var titleScore := KeywordPart(title, MainKeywords, otherKeywords, 2.5, 0.3, 5.0);
    score := score + titleScore;
    var descScore := KeywordPart(description, MainKeywords, otherKeywords, 1.5, 0.2, 3.0);
    score := score + descScore;

    var pubDate := article.pubDate;
    if pubDate != "" {
      match AppDate(pubDate, today.year)
      case None =>
      case Some(articleDate) =>
        var daysDiff := DaysSince(today, articleDate);
        if daysDiff <= 4 {
          score := score + (2.0 - daysDiff as real * 0.375);
        }
    }
    score := MinReal(score, 10.0);
  }

  /** The score lies in [0, 10]; the two keyword parts are at most 5 and 3. */
  lemma AppScoreBounds(a: Article, today: Date)
    requires Valid(today)
    ensures 0.0 <= TitlePart(a.title, SearchKeywords) <= 5.0
    ensures 0.0 <= DescPart(a.description, SearchKeywords) <= 3.0
    ensures 0.0 <= AppBonus(a.pubDate, today)
    ensures 0.0 <= AppScore(a, today) <= 10.0
  {
    var keywords := SearchKeywords;
    ScoreBounds(a, keywords, today);
    if a.pubDate != "" && AppDate(a.pubDate, today.year).Some? {
      RecencyBonusValues(DaysSince(today, AppDate(a.pubDate, today.year).value));
    }
  }

  /**
   * The page and the daily job agree on every `pubDate` holding a `T`, and so on every ISO
   * timestamp; the page alone also gives a bonus to the weekday and bare forms.
   */
  lemma AppBonusAgrees(pub: string, today: Date)
    requires Valid(today) && 'T' in pub
    ensures AppBonus(pub, today) == DailyBonus(pub, today)
  {
  }

  /** The main keywords are the first two search keywords, the other keywords the remaining seven. */
  lemma AppKeywords()
    ensures MainKeywords == SearchKeywords[..2]
    ensures Others(SearchKeywords) == SearchKeywords[2..] && |Others(SearchKeywords)| == 7
  {
    OthersOfSearchKeywords();
  }

  // ---------------------------------------------------------------------------
  // The four-day filter
  // ---------------------------------------------------------------------------

  /** The filter keeps an article whose non-empty `pubDate` the page reads as a date at most four days old. */
  predicate Recent(a: Article, today: Date)
    requires Valid(today)
  {
    a.pubDate != "" && AppDate(a.pubDate, today.year).Some? && DaysSince(today, AppDate(a.pubDate, today.year).value) <= 4
  }

  /** The list the filter builds: the recent articles in order, each carrying its recomputed score. */
  function RecentSpec(articles: seq<Article>, today: Date): seq<Article>
    requires Valid(today)
  {
    FilterMap(articles, Rescore(today))
  }

  /** What the filter makes of one article: the article with its recomputed score, when it is recent. */
  function Rescore(today: Date): Article -> Option<Article> {
    (a: Article) => if Valid(today) && Recent(a, today) then Some(a.(score := AppScore(a, today))) else None
  }

  /** The filter loop over the sorted list, writing the recomputed score of every article it keeps. */
  method FilterRecent(sortedArticles: seq<Article>, today: Date) returns (filtered: seq<Article>)
    requires Valid(today)
    ensures filtered == RecentSpec(sortedArticles, today)
  {
    filtered := [];
    var i := 0;
    while i < |sortedArticles|
      invariant 0 <= i <= |sortedArticles|
      invariant filtered == RecentSpec(sortedArticles[..i], today)
    {
      var article := sortedArticles[i];
      FilterMapStep(sortedArticles, i, Rescore(today));
      var kept := KeepRecent(article, today);
      filtered := filtered + kept;
      i := i + 1;
    }
    assert sortedArticles[..i] == sortedArticles;
  }

  /** The body of the filter loop for one article: the article, rescored, when it is recent. */
  method KeepRecent(article: Article, today: Date) returns (kept: seq<Article>)
    requires Valid(today)
    ensures kept == if Recent(article, today) then [article.(score := AppScore(article, today))] else []
    ensures kept == Kept(Rescore(today)(article))
  {
    kept := [];
    var pubDate := article.pubDate;
    if pubDate != "" {
      match AppDate(pubDate, today.year)
      case None =>
      case Some(articleDate) =>
        var daysDiff := DaysSince(today, articleDate);
        if daysDiff <= 4 {
          var score := RecalculateScore(article, today);
          kept := [article.(score := score)];
        }
    }
  }

  /** Exactly the recent articles are kept, with their recomputed score and every other field as it was. */
  lemma RecentSpecMembers(articles: seq<Article>, today: Date)
    requires Valid(today)
    ensures forall a :: a in articles && Recent(a, today) ==> a.(score := AppScore(a, today)) in RecentSpec(articles, today)
    ensures forall x :: x in RecentSpec(articles, today) ==>
      exists a :: a in articles && Recent(a, today) && x == a.(score := AppScore(a, today))
  {
    var f := Rescore(today);
    forall a | a in articles && Recent(a, today) ensures a.(score := AppScore(a, today)) in RecentSpec(articles, today) {
      var i :| 0 <= i < |articles| && articles[i] == a;
      FilterMapMembers(articles, f, a.(score := AppScore(a, today)));
      assert f(articles[i]) == Some(a.(score := AppScore(a, today)));
    }
    forall x | x in RecentSpec(articles, today) ensures exists a :: a in articles && Recent(a, today) && x == a.(score := AppScore(a, today)) {
      FilterMapMembers(articles, f, x);
      var i :| 0 <= i < |articles| && f(articles[i]) == Some(x);
      var a := articles[i];
      assert a in articles && Recent(a, today) && x == a.(score := AppScore(a, today));
    }
  }

  /** A kept article's score is at least the four-day bonus of 0.5 and at most the cap of 10. */
  lemma RecentSpecScores(articles: seq<Article>, today: Date)
    requires Valid(today)
    ensures forall x :: x in RecentSpec(articles, today) ==> 0.5 <= x.score <= 10.0
  {
    RecentSpecMembers(articles, today);
    forall x | x in RecentSpec(articles, today) ensures 0.5 <= x.score <= 10.0 {
      var a :| a in articles && Recent(a, today) && x == a.(score := AppScore(a, today));
      RecentScore(a, today);
    }
  }

  /** A recent article earns at least half a point of bonus, so its score is at least 0.5. */
  lemma RecentScore(a: Article, today: Date)
    requires Valid(today) && Recent(a, today)
    ensures 0.5 <= AppScore(a, today) <= 10.0
  {
    AppScoreBounds(a, today);
    RecencyBonusValues(DaysSince(today, AppDate(a.pubDate, today.year).value));
  }

  /** The filter works article by article and keeps their order: filtering a concatenation filters each part. */
  lemma RecentSpecAppend(xs: seq<Article>, ys: seq<Article>, today: Date)
    requires Valid(today)
    ensures RecentSpec(xs + ys, today) == RecentSpec(xs, today) + RecentSpec(ys, today)
  {
    FilterMapAppend(xs, ys, Rescore(today));
  }

  /** A single article is kept, rescored, exactly when it is recent; nothing is added to the list. */
  lemma RecentSpecSingle(a: Article, today: Date)
    requires Valid(today)
    ensures RecentSpec([a], today) == (if Recent(a, today) then [a.(score := AppScore(a, today))] else [])
  {
    FilterMapStep([a], 0, Rescore(today));
    assert [a][..1] == [a] && [a][..0] == [];
  }

  /** The filter keeps at most as many articles as it is given. */
  lemma RecentSpecLength(articles: seq<Article>, today: Date)
    requires Valid(today)
    ensures |RecentSpec(articles, today)| <= |articles|
  {
    FilterMapLength(articles, Rescore(today));
  }

  // ---------------------------------------------------------------------------
  // The three sort options
  // ---------------------------------------------------------------------------

  /** Python's `<` on strings: the first differing character decides, and a proper prefix is smaller. */
  predicate LexLess(a: string, b: string)
    decreases |a|
  {
    if a == [] then b != []
    else b != [] && (a[0] < b[0] || (a[0] == b[0] && LexLess(a[1..], b[1..])))
  }

  /** `LexLess` is a strict total order on strings. */
  lemma {:induction false} LexLessOrder(a: string, b: string, c: string)
    ensures !LexLess(a, a)
    ensures LexLess(a, b) && LexLess(b, c) ==> LexLess(a, c)
    ensures a != b ==> LexLess(a, b) || LexLess(b, a)
    decreases |a|
  {
    if a != [] {
      if b != [] && c != [] {
        LexLessOrder(a[1..], b[1..], c[1..]);
      } else if b != [] {
        LexLessOrder(a[1..], b[1..], b[1..]);
      } else {
        LexLessOrder(a[1..], a[1..], a[1..]);
      }
      if b != [] && a[0] == b[0] && a != b {
        assert a == [a[0]] + a[1..] && b == [b[0]] + b[1..];
      }
    }
  }

  /** The three entries of the sort box. */
  datatype SortOption = ByScore | Newest | Oldest

  /** When `a` goes before `b`: higher score first, later `pubDate` text first, or earlier `pubDate` text first. */
  function SortBefore(option: SortOption): (Article, Article) -> bool {
    match option
    case ByScore => ScoreBefore
    case Newest => (a: Article, b: Article) => LexLess(b.pubDate, a.pubDate)
    case Oldest => (a: Article, b: Article) => LexLess(a.pubDate, b.pubDate)
  }

  /** Each sort option orders articles by a strict weak order, so the stable sort applies to it. */
  lemma SortBeforeOrder(option: SortOption)
    ensures StrictWeakOrder(SortBefore(option))
  {
    var before := SortBefore(option);
    if option != ByScore {
      forall x: Article, y: Article, z: Article
        ensures !before(x, x)
        ensures before(x, y) && before(y, z) ==> before(x, z)
        ensures before(x, z) ==> before(x, y) || before(y, z)
      {
        LexLessOrder(x.pubDate, y.pubDate, z.pubDate);
        LexLessOrder(z.pubDate, y.pubDate, x.pubDate);
        LexLessOrder(y.pubDate, x.pubDate, z.pubDate);
        LexLessOrder(x.pubDate, z.pubDate, y.pubDate);
        LexLessOrder(y.pubDate, z.pubDate, x.pubDate);
        LexLessOrder(z.pubDate, x.pubDate, y.pubDate);
      }
    }
  }

  /** `sorted_articles.sort(...)` for the chosen option. */
  function SortArticles(articles: seq<Article>, option: SortOption): seq<Article> {
    Sort(articles, SortBefore(option))
  }

  /**
   * The sorted list is a permutation of the articles in the order the option asks for, and
   * articles the option can not tell apart keep their stored order.
   */
  lemma SortArticlesSpec(articles: seq<Article>, option: SortOption, z: Article)
    ensures multiset(SortArticles(articles, option)) == multiset(articles)
    ensures Ordered(SortArticles(articles, option), SortBefore(option))
    ensures TiedWith(SortArticles(articles, option), z, SortBefore(option)) == TiedWith(articles, z, SortBefore(option))
  {
    SortBeforeOrder(option);
    SortOrdered(articles, SortBefore(option));
    SortStable(articles, z, SortBefore(option));
  }

  /** Sorting by score leaves the scores non-increasing, and the newest-first sort the `pubDate` texts non-increasing. */
  lemma SortArticlesKeys(articles: seq<Article>)
    ensures forall i, j :: 0 <= i < j < |articles| ==>
      SortArticles(articles, ByScore)[i].score >= SortArticles(articles, ByScore)[j].score
    ensures forall i, j :: 0 <= i < j < |articles| ==>
      !LexLess(SortArticles(articles, Newest)[i].pubDate, SortArticles(articles, Newest)[j].pubDate)
  {
    SortBeforeOrder(ByScore);
    SortOrdered(articles, SortBefore(ByScore));
    SortBeforeOrder(Newest);
    SortOrdered(articles, SortBefore(Newest));
  }

  // ---------------------------------------------------------------------------
  // The text of one row
  // ---------------------------------------------------------------------------

  /**
   * `x` rounded to a whole number, a tie going to the even neighbour, as `format` rounds the
   * exact value it is given.
   */
  function RoundHalfEven(x: real): (n: int)
    ensures -0.5 <= n as real - x <= 0.5
    ensures (n as real - x == 0.5 || n as real - x == -0.5) ==> n % 2 == 0
  {
    var f := x.Floor;
    var frac := x - f as real;
    if frac < 0.5 then f
    else if frac > 0.5 then f + 1
    else if f % 2 == 0 then f else f + 1
  }

  /** `f"{x:.1f}"` for a positive `x`: the tenths rounded half to even, written as units, a point and one digit. */
  function Fixed1(x: real): (r: string)
    requires x > 0.0
  {
    var n := RoundHalfEven(10.0 * x);
    assert n >= 0;
    NatToString(n / 10) + "." + [DigitChar(n % 10)]
  }

  /** The score column: a stored score above 10 is shown as 10, and a score that is not positive as "-". */
  function DisplayScore(score: real): string {
    var s := if score > 10.0 then 10.0 else score;
    if s > 0.0 then Fixed1(s) + "/10점" else "-"
  }

  /**
   * A positive score is shown as the numeral of a number of tenths within half a tenth of the
   * score capped at 10; any other score as "-".
   */
  lemma DisplayScoreValue(score: real)
    ensures score <= 0.0 <==> DisplayScore(score) == "-"
    ensures score > 0.0 ==> exists n: nat ::
      && -0.5 <= n as real - 10.0 * MinReal(score, 10.0) <= 0.5
      && DisplayScore(score) == NatToString(n / 10) + "." + [DigitChar(n % 10)] + "/10점"
  {
    if score > 0.0 {
      var s := if score > 10.0 then 10.0 else score;
      assert s == MinReal(score, 10.0);
      var n := RoundHalfEven(10.0 * s);
      assert n >= 0;
      var m: nat := n;
      assert DisplayScore(score) == NatToString(m / 10) + "." + [DigitChar(m % 10)] + "/10점";
    } else {
      assert DisplayScore(score) == "-";
    }
  }

  /** The `T` branch of the date column: the text before the first `T` must be exactly three `-`-separated integers of a valid date. */
  function IsoDate(datePart: string): (r: Option<Date>)
    ensures r.Some? ==> Valid(r.value)
  {
    var parts := Split(datePart, '-');
    if |parts| != 3 then None
    else match (ParseInt(parts[0]), ParseInt(parts[1]), ParseInt(parts[2]))
      case (Some(y), Some(m), Some(d)) => if Valid(Date(y, m, d)) then Some(Date(y, m, d)) else None
      case _ => None
  }

  /** The date the column shows: the same three forms as the filter, but the `T` branch reads integers rather than `strptime`. */
  function DisplayedDate(pub: string, currentYear: int): (r: Option<Date>)
    ensures r.Some? ==> Valid(r.value)
  {
    if pub == "" then None
    else if 'T' in pub then IsoDate(Split(pub, 'T')[0])
    else if WeekdayPrefix(pub) then WeekdayDate(pub, currentYear)
    else if YmdPrefix(pub) then ParseYmd(pub[..10])
    else None
  }

  /** `str(year)[2:]`. */
  function YearSuffix(year: nat): string {
    var y := NatToString(year);
    if |y| >= 2 then y[2..] else ""
  }

  /** The date column: `YY.MM.DD.(요일)` for a date it reads, "-" otherwise. */
  function DisplayDate(pub: string, currentYear: int): string {
    match DisplayedDate(pub, currentYear)
    case None => "-"
    case Some(d) => YearSuffix(d.year) + "." + Pad2(d.month) + "." + Pad2(d.day) + ".(" + KoreanWeekday(d) + ")"
  }

  /** A number from 1000 to 9999 is written with four digits. */
  lemma NatToStringFourDigits(n: nat)
    requires 1000 <= n <= 9999
    ensures |NatToString(n)| == 4
  {
    var a, b, c := n / 10, n / 100, n / 1000;
    assert 100 <= a < 1000 && a / 10 == b && 10 <= b < 100 && b / 10 == c && 1 <= c < 10;
    assert |NatToString(c)| == 1;
    assert |NatToString(b)| == |NatToString(c)| + 1;
    assert |NatToString(a)| == |NatToString(b)| + 1;
  }

  /** A four-digit year loses its century: `str(year)[2:]` is the last two digits. */
  lemma YearSuffixFourDigits(year: nat)
    requires 1000 <= year <= 9999
    ensures YearSuffix(year) == Pad2(year % 100)
  {
    var y := NatToString(year);
    NatToStringFourDigits(year);
    DigitsValueInjective(y, Pad4(year));
    assert Pad4(year) == Pad2(year / 100) + Pad2(year % 100);
  }

  /** The integers of a formatted date, read back by the `T` branch of the date column, are that date. */
  lemma IsoDateOfFormat(d: Date)
    requires Valid(d)
    ensures IsoDate(FormatYmd(d)) == Some(d)
  {
    var f := FormatYmd(d);
    var y, m, dd := Pad4(d.year), Pad2(d.month), Pad2(d.day);
    assert f == y + ['-'] + (m + ['-'] + dd);
    DigitsLack(y, '-');
    DigitsLack(m, '-');
    DigitsLack(dd, '-');
    SplitThree(y, m, dd, '-');
    ParseIntDigits(y);
    ParseIntDigits(m);
    ParseIntDigits(dd);
    IsoDateOfParts(f, y, m, dd, d);
  }

  /** The `T` branch's reading once the three parts are known to be digits. */
  lemma IsoDateOfParts(f: string, y: string, m: string, dd: string, date: Date)
    requires Split(f, '-') == [y, m, dd] && Valid(date)
    requires ParseInt(y) == Some(date.year) && ParseInt(m) == Some(date.month) && ParseInt(dd) == Some(date.day)
    ensures IsoDate(f) == Some(date)
  {
    var parts := Split(f, '-');
    assert parts[0] == y && parts[1] == m && parts[2] == dd;
  }

  /**
   * Whenever the filter reads a date, the column shows that same date: where the filter's
   * `strptime` accepts the text before the first `T`, the display's integer reading agrees.
   */
  lemma DisplayedDateAgrees(pub: string, currentYear: int)
    requires AppDate(pub, currentYear).Some?
    ensures DisplayedDate(pub, currentYear) == AppDate(pub, currentYear)
  {
    if 'T' in pub {
      var x := Split(pub, 'T')[0];
      FormatParseYmd(x);
      IsoDateOfFormat(ParseYmd(x).value);
    }
  }

  /** An ISO timestamp of a date with a four-digit year shows as `YY.MM.DD.(요일)` of that date. */
  lemma DisplayDateIso(d: Date, rest: string, currentYear: int)
    requires Valid(d) && d.year >= 1000
    ensures DisplayDate(FormatYmd(d) + "T" + rest, currentYear) ==
      Pad2(d.year % 100) + "." + Pad2(d.month) + "." + Pad2(d.day) + ".(" + KoreanWeekday(d) + ")"
  {
    var f := FormatYmd(d);
    FormatYmdHasNoT(d);
    SplitAtFirst(f, 'T', rest);
    assert 'T' in f + "T" + rest by {
      assert (f + "T" + rest)[10] == 'T';
    }
    IsoDateOfFormat(d);
    assert DisplayedDate(f + "T" + rest, currentYear) == Some(d);
    YearSuffixFourDigits(d.year);
  }

  /** A `pubDate` starting with `T` ("Tue, ...", "Thu, ...") shows no date. */
  lemma DisplayDateLeadingT(pub: string, currentYear: int)
    requires pub != [] && pub[0] == 'T'
    ensures DisplayDate(pub, currentYear) == "-"
  {
    assert pub == [] + ['T'] + pub[1..];
    SplitAtFirst([], 'T', pub[1..]);
    assert Split("", '-') == [""];
  }

  /** `full_title` when it is present and non-empty, the search title otherwise. */
  function ShownTitle(a: Article): string {
    if a.fullTitle.Some? && a.fullTitle.value != "" then a.fullTitle.value else a.title
  }

  /** The title column: tags removed, breadcrumbs removed, stripped. */
  function DisplayTitle(a: Article): string {
    CleanTitleSuffix(CleanHtmlTags(ShownTitle(a)))
  }

  /** The title shown is stripped, holds no tag, and is a stripped prefix of the tag-free title. */
  lemma DisplayTitleClean(a: Article)
    ensures IsStripped(DisplayTitle(a)) && TagFree(DisplayTitle(a))
    ensures exists p ::
      && 0 <= p <= |CleanHtmlTags(ShownTitle(a))|
      && DisplayTitle(a) == Strip(CleanHtmlTags(ShownTitle(a))[..p])
  {
    var c := CleanHtmlTags(ShownTitle(a));
    CleanTitleSuffixPrefix(c);
    var p :| 0 <= p <= |c| && CleanTitleSuffix(c) == Strip(c[..p]);
    TagFreeSlice(c, 0, p);
    StripTagFree(c[..p]);
  }
}
