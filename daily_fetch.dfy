/**
 * The pure text helpers of the daily fetch job (`daily_fetch.py`): the title normaliser used by
 * duplicate detection, the HTML cleaner and the Korean date format of the notification message.
 */
module DailyFetch {
  import opened Wrappers
  import opened Text
  import opened Calendar
  import opened Patterns

  // ---------------------------------------------------------------------------
  // `_normalize_title`
  // ---------------------------------------------------------------------------

  /** The character class `[·\s\-·,，]`: middle dot, whitespace, hyphen, ASCII and full-width comma. */
  predicate IsSeparator(c: char) {
    c == '·' || IsSpace(c) || c == '-' || c == ',' || c == '，'
  }

  /** `re.sub(r'[·\s\-·,，]', '', s)`. */
  function RemoveSeparators(s: string): (r: string)
    ensures forall c :: c in r ==> c in s && !IsSeparator(c)
    decreases |s|
  {
    if s == [] then []
    else
      assert forall c :: c in s[1..] ==> c in s;
      if IsSeparator(s[0]) then RemoveSeparators(s[1..]) else [s[0]] + RemoveSeparators(s[1..])
  }

  /** The substitutions after the separators are gone, in the order the source applies them. */
  const Synonyms: seq<(string, string)> := [
    ("성료", "완료"), ("마무리", "완료"), ("성공적", ""), ("성공", ""),
    ("한국청소년육성회", "청소년육성회"), ("지역인프라연계", ""), ("인프라연계", ""),
    ("융복합", "융합"), ("융·복합", "융합"), ("콘텐츠", "콘텐츠")]

  predicate NonEmptyPatterns(rules: seq<(string, string)>) {
    forall i :: 0 <= i < |rules| ==> rules[i].0 != []
  }

  /** `s.replace(p0, r0).replace(p1, r1)...` for the rules in order. */
  function ReplaceEach(s: string, rules: seq<(string, string)>): string
    requires NonEmptyPatterns(rules)
    decreases |rules|
  {
    if rules == [] then s
    else
      var last := rules[|rules| - 1];
      ReplaceAll(ReplaceEach(s, rules[..|rules| - 1]), last.0, last.1)
  }

  /** `_normalize_title`: lower-case, drop separators, unify a few phrasings. */
  function NormalizeTitle(title: string): string {
    ReplaceEach(RemoveSeparators(Lower(title)), Synonyms)
  }

  /** A replacement whose text holds no separator brings none in. */
  lemma ReplaceKeepsSeparatorFree(s: string, pat: string, rep: string)
    requires pat != [] && (forall c :: c in s ==> !IsSeparator(c)) && (forall c :: c in rep ==> !IsSeparator(c))
    ensures forall c :: c in ReplaceAll(s, pat, rep) ==> !IsSeparator(c)
  {
    ReplaceAllChars(s, pat, rep);
  }

  predicate SeparatorFree(s: string) {
    forall c :: c in s ==> !IsSeparator(c)
  }

  lemma {:induction false} ReplaceEachSeparatorFree(s: string, rules: seq<(string, string)>)
    requires NonEmptyPatterns(rules) && SeparatorFree(s)
    requires forall i :: 0 <= i < |rules| ==> SeparatorFree(rules[i].1)
    ensures SeparatorFree(ReplaceEach(s, rules))
    decreases |rules|
  {
    if rules != [] {
      var init := rules[..|rules| - 1];
      ReplaceEachSeparatorFree(s, init);
      ReplaceKeepsSeparatorFree(ReplaceEach(s, init), rules[|rules| - 1].0, rules[|rules| - 1].1);
    }
  }

  lemma SynonymsSeparatorFree()
    ensures NonEmptyPatterns(Synonyms)
    ensures forall i :: 0 <= i < |Synonyms| ==> SeparatorFree(Synonyms[i].1)
  {
  }

  /** The normalised title holds no whitespace, hyphen, comma or middle dot: no later replacement brings one back. */
  lemma NormalizeTitleSeparatorFree(title: string)
    ensures SeparatorFree(NormalizeTitle(title))
  {
    SynonymsSeparatorFree();
    ReplaceEachSeparatorFree(RemoveSeparators(Lower(title)), Synonyms);
  }

  lemma ContainsChar(s: string, sub: string, c: char)
    requires Contains(s, sub) && c in sub
    ensures c in s
  {
    ContainsIff(s, sub);
    var i :| OccursAt(s, sub, i);
    var k :| 0 <= k < |sub| && sub[k] == c;
    assert s[i + k] == sub[k];
  }

  /** Replacing a text by itself changes nothing (the last rule of the normaliser). */
  lemma {:induction false} ReplaceAllSelf(s: string, pat: string)
    requires pat != []
    ensures ReplaceAll(s, pat, pat) == s
    decreases |s|
  {
    if |s| >= |pat| {
      if s[..|pat|] == pat {
        ReplaceAllSelf(s[|pat|..], pat);
        assert s == s[..|pat|] + s[|pat|..];
      } else {
        ReplaceAllSelf(s[1..], pat);
        assert s == [s[0]] + s[1..];
      }
    }
  }

  /**
   * The last two rules never change anything: "융·복합" can no longer occur once the middle dot
   * is gone with the other separators, and "콘텐츠" is replaced by itself.
   */
  lemma LastRulesInert(title: string)
    ensures NormalizeTitle(title) == ReplaceEach(RemoveSeparators(Lower(title)), Synonyms[..8])
  {
    var n0 := RemoveSeparators(Lower(title));
    SynonymsSeparatorFree();
    assert Synonyms[..10][..9] == Synonyms[..9] && Synonyms[..9][..8] == Synonyms[..8] && Synonyms[..10] == Synonyms;
    var n8 := ReplaceEach(n0, Synonyms[..8]);
    assert SeparatorFree(n8) by {
      ReplaceEachSeparatorFree(n0, Synonyms[..8]);
    }
    assert ReplaceAll(n8, "융·복합", "융합") == n8 by {
      if Contains(n8, "융·복합") {
        assert '·' in "융·복합";
        ContainsChar(n8, "융·복합", '·');
        assert false;
      }
      ReplaceAllAbsent(n8, "융·복합", "융합");
    }
    assert ReplaceEach(n0, Synonyms[..9]) == n8;
    ReplaceAllSelf(n8, "콘텐츠");
  }

  // ---------------------------------------------------------------------------
  // "성료" and "완료" normalise alike
  // ---------------------------------------------------------------------------

  lemma LowerAppend(a: string, b: string)
    ensures Lower(a + b) == Lower(a) + Lower(b)
  {
    var l := Lower(a + b);
    var r := Lower(a) + Lower(b);
    forall i | 0 <= i < |l| ensures l[i] == r[i] {
      if i < |a| {
        assert (a + b)[i] == a[i];
      } else {
        assert (a + b)[i] == b[i - |a|];
      }
    }
  }

  lemma {:induction false} RemoveSeparatorsAppend(a: string, b: string)
    ensures RemoveSeparators(a + b) == RemoveSeparators(a) + RemoveSeparators(b)
    decreases |a|
  {
    if a == [] {
      assert a + b == b;
    } else {
      assert (a + b)[0] == a[0] && (a + b)[1..] == a[1..] + b;
      RemoveSeparatorsAppend(a[1..], b);
    }
  }

  /**
   * Appending to `u` something that starts with neither half of a two-character pattern can not
   * create an occurrence across the seam, so the replacement works on both parts separately.
   */
  lemma {:induction false} ReplaceAllAppend2(u: string, w: string, pat: string, rep: string)
    requires |pat| == 2
    requires !(u != [] && u[|u| - 1] == pat[0] && w != [] && w[0] == pat[1])
    ensures ReplaceAll(u + w, pat, rep) == ReplaceAll(u, pat, rep) + ReplaceAll(w, pat, rep)
    decreases |u|
  {
    if u == [] {
      assert u + w == w;
    } else if |u| == 1 {
      SeamOne(u, w, pat, rep);
    } else if u[..2] == pat {
      var v := u[2..];
      assert v == [] || v[|v| - 1] == u[|u| - 1];
      ReplaceAllAppend2(v, w, pat, rep);
      SeamMatch(u, w, pat, rep);
    } else {
      var v := u[1..];
      assert v[|v| - 1] == u[|u| - 1];
      ReplaceAllAppend2(v, w, pat, rep);
      SeamSkip(u, w, pat, rep);
    }
  }

  lemma SeamOne(u: string, w: string, pat: string, rep: string)
    requires |pat| == 2 && |u| == 1
    requires !(u[0] == pat[0] && w != [] && w[0] == pat[1])
    ensures ReplaceAll(u + w, pat, rep) == ReplaceAll(u, pat, rep) + ReplaceAll(w, pat, rep)
  {
    var s := u + w;
    assert ReplaceAll(u, pat, rep) == u;
    if w == [] {
      assert s == u;
    } else {
      assert s[..2] == [u[0], w[0]];
      assert s[1..] == w;
      assert ReplaceAll(s, pat, rep) == [u[0]] + ReplaceAll(w, pat, rep);
    }
  }

  lemma SeamMatch(u: string, w: string, pat: string, rep: string)
    requires |pat| == 2 && |u| >= 2 && u[..2] == pat
    requires ReplaceAll(u[2..] + w, pat, rep) == ReplaceAll(u[2..], pat, rep) + ReplaceAll(w, pat, rep)
    ensures ReplaceAll(u + w, pat, rep) == ReplaceAll(u, pat, rep) + ReplaceAll(w, pat, rep)
  {
    var s := u + w;
    assert s[..2] == pat by {
      assert u[..2] == s[..2];
    }
    assert s[2..] == u[2..] + w;
    ReplaceAtMatch(s, pat, rep);
    ReplaceAtMatch(u, pat, rep);
    ConcatAssoc(rep, ReplaceAll(u[2..], pat, rep), ReplaceAll(w, pat, rep));
  }

  lemma SeamSkip(u: string, w: string, pat: string, rep: string)
    requires |pat| == 2 && |u| >= 2 && u[..2] != pat
    requires ReplaceAll(u[1..] + w, pat, rep) == ReplaceAll(u[1..], pat, rep) + ReplaceAll(w, pat, rep)
    ensures ReplaceAll(u + w, pat, rep) == ReplaceAll(u, pat, rep) + ReplaceAll(w, pat, rep)
  {
    var s := u + w;
    assert u[..2] == s[..2];
    assert s[0] == u[0] && s[1..] == u[1..] + w;
    ReplaceAtSkip(s, pat, rep);
    ReplaceAtSkip(u, pat, rep);
    ConcatAssoc([u[0]], ReplaceAll(u[1..], pat, rep), ReplaceAll(w, pat, rep));
  }

  /** One turn of the replacement at an occurrence of the pattern. */
  lemma ReplaceAtMatch(s: string, pat: string, rep: string)
    requires pat != [] && |s| >= |pat| && s[..|pat|] == pat
    ensures ReplaceAll(s, pat, rep) == rep + ReplaceAll(s[|pat|..], pat, rep)
  {
  }

  /** One turn of the replacement where the pattern does not start. */
  lemma ReplaceAtSkip(s: string, pat: string, rep: string)
    requires pat != [] && |s| >= |pat| && s[..|pat|] != pat
    ensures ReplaceAll(s, pat, rep) == [s[0]] + ReplaceAll(s[1..], pat, rep)
  {
  }

  lemma ConcatAssoc(a: string, b: string, c: string)
    ensures a + (b + c) == (a + b) + c
  {
  }

  /** Only the first substitution sees the difference between two texts it maps alike. */
  lemma {:induction false} ReplaceEachFirstStep(x: string, y: string, rules: seq<(string, string)>)
    requires NonEmptyPatterns(rules) && rules != []
    requires ReplaceAll(x, rules[0].0, rules[0].1) == ReplaceAll(y, rules[0].0, rules[0].1)
    ensures ReplaceEach(x, rules) == ReplaceEach(y, rules)
    decreases |rules|
  {
    var init := rules[..|rules| - 1];
    if init != [] {
      assert init[0] == rules[0];
      ReplaceEachFirstStep(x, y, init);
    } else {
      assert ReplaceEach(x, init) == x && ReplaceEach(y, init) == y;
    }
  }

  lemma LowerLiterals()
    ensures Lower(" 성료") == " 성료" && Lower(" 완료") == " 완료"
  {
  }

  lemma SeparatorLiterals()
    ensures RemoveSeparators(" 성료") == "성료" && RemoveSeparators(" 완료") == "완료"
  {
    assert RemoveSeparators(" 성료") == "성료" by {
      SpaceThenPair(" 성료");
    }
    assert RemoveSeparators(" 완료") == "완료" by {
      SpaceThenPair(" 완료");
    }
  }

  /** A space and then two characters that are not separators: only the space goes. */
  lemma SpaceThenPair(s: string)
    requires |s| == 3 && s[0] == ' ' && !IsSeparator(s[1]) && !IsSeparator(s[2])
    ensures RemoveSeparators(s) == s[1..]
  {
    var t := s[1..];
    assert t[1..][1..] == [];
    assert RemoveSeparators(t[1..]) == [t[1]] + RemoveSeparators([]);
    assert [t[0]] + [t[1]] == t;
  }

  lemma ReplaceLiterals()
    ensures ReplaceAll("성료", "성료", "완료") == "완료" && ReplaceAll("완료", "성료", "완료") == "완료"
  {
    assert "성료"[..2] == "성료" && "성료"[2..] == [];
    assert "완료"[..2][0] != "성료"[0];
    assert "완료"[1..] == "료";
  }

  /** A finished event reads the same whether it is reported as "성료" or as "완료". */
  lemma CompletedSynonym(t: string)
    ensures NormalizeTitle(t + " 성료") == NormalizeTitle(t + " 완료")
  {
    LowerLiterals();
    SeparatorLiterals();
    ReplaceLiterals();
    var u := RemoveSeparators(Lower(t));
    assert RemoveSeparators(Lower(t + " 성료")) == u + "성료" by {
      LowerAppend(t, " 성료");
      RemoveSeparatorsAppend(Lower(t), " 성료");
    }
    assert RemoveSeparators(Lower(t + " 완료")) == u + "완료" by {
      LowerAppend(t, " 완료");
      RemoveSeparatorsAppend(Lower(t), " 완료");
    }
    assert ReplaceAll(u + "성료", "성료", "완료") == ReplaceAll(u, "성료", "완료") + "완료" by {
      ReplaceAllAppend2(u, "성료", "성료", "완료");
    }
    assert ReplaceAll(u + "완료", "성료", "완료") == ReplaceAll(u, "성료", "완료") + "완료" by {
      ReplaceAllAppend2(u, "완료", "성료", "완료");
    }
    SynonymsSeparatorFree();
    ReplaceEachFirstStep(u + "성료", u + "완료", Synonyms);
  }

  /** The example of a title that a press release reports twice. */
  lemma CompletedExample()
    ensures NormalizeTitle("충남콘텐츠진흥원 행사 성료") == NormalizeTitle("충남콘텐츠진흥원 행사 완료")
  {
    CompletedSynonym("충남콘텐츠진흥원 행사");
    assert "충남콘텐츠진흥원 행사" + " 성료" == "충남콘텐츠진흥원 행사 성료";
    assert "충남콘텐츠진흥원 행사" + " 완료" == "충남콘텐츠진흥원 행사 완료";
  }

  // ---------------------------------------------------------------------------
  // `_clean_html_tags`
  // ---------------------------------------------------------------------------

  /** The entity replacements, in the order the source applies them. */
  function DecodeEntities(t: string): string {
    var t1 := ReplaceAll(ReplaceAll(ReplaceAll(ReplaceAll(t, "&quot;", "\""), "&amp;", "&"), "&lt;", "<"), "&gt;", ">");
    ReplaceAll(ReplaceAll(ReplaceAll(t1, "&nbsp;", " "), "&#39;", "'"), "&apos;", "'")
  }

  lemma StripSingleSpaced(c: string)
    requires SingleSpaced(c) && forall ch :: ch in c && IsSpace(ch) ==> ch == ' '
    ensures SingleSpaced(Strip(c))
    ensures forall ch :: ch in Strip(c) && IsSpace(ch) ==> ch == ' '
  {
    var i := StripAt(c);
    SingleSpacedPiece(c, Strip(c), i);
  }

  lemma SingleSpacedPiece(s: string, r: string, i: int)
    requires SingleSpaced(s) && forall ch :: ch in s && IsSpace(ch) ==> ch == ' '
    requires PieceAt(s, r, i)
    ensures SingleSpaced(r)
    ensures forall ch :: ch in r && IsSpace(ch) ==> ch == ' '
  {
    SingleSpacedSlice(s, i, i + |r|);
    PieceChars(s, r, i);
  }

  /**
   * `_clean_html_tags(text)`: "" for empty text; otherwise tags are removed, seven entities
   * decoded, every run of whitespace made one space, and the ends stripped.
   */
  function CleanHtmlText(text: string): (r: string)
    ensures text == "" ==> r == ""
    ensures IsStripped(r) && SingleSpaced(r)
    ensures forall ch :: ch in r && IsSpace(ch) ==> ch == ' '
  {
    if text == "" then ""
    else
      var c := CollapseSpaces(DecodeEntities(RemoveTags(text)));
      StripSingleSpaced(c);
      Strip(c)
  }

  // ---------------------------------------------------------------------------
  // `_format_date`
  // ---------------------------------------------------------------------------

  /** `f"{dt.strftime('%Y.%m.%d')} ({weekday})"`. */
  function KoreanLongDate(d: Date): string
    requires Valid(d)
  {
    NatToString(d.year) + "." + Pad2(d.month) + "." + Pad2(d.day) + " (" + KoreanWeekday(d) + ")"
  }

  /**
   * `_format_date(pub_date)`: a fixed text for an empty date, the Korean form of the date before
   * the first `T` when that parses, and the input itself when it does not.
   */
  function FormatDate(pub: string): (r: string)
    ensures pub == "" ==> r == "날짜 정보 없음"
    ensures pub != "" && ParseYmd(Split(pub, 'T')[0]).None? ==> r == pub
    ensures pub != "" && ParseYmd(Split(pub, 'T')[0]).Some? ==> r == KoreanLongDate(ParseYmd(Split(pub, 'T')[0]).value)
  {
    if pub == "" then "날짜 정보 없음"
    else
      var d := if 'T' in pub then ParseYmd(Split(pub, 'T')[0]) else ParseYmd(pub);
      match d
      case None => pub
      case Some(dt) => KoreanLongDate(dt)
  }

  /** An ISO timestamp is shown as the Korean form of its date, whatever follows the `T`. */
  lemma FormatDateIso(d: Date, rest: string)
    requires Valid(d)
    ensures FormatDate(FormatYmd(d) + "T" + rest) == KoreanLongDate(d)
  {
    FormatYmdHasNoT(d);
    SplitAtFirst(FormatYmd(d), 'T', rest);
    ParseFormatYmd(d);
  }

  lemma FormatYmdExample()
    ensures Valid(Date(2025, 12, 30)) && FormatYmd(Date(2025, 12, 30)) == "2025-12-30"
  {
    assert Pad4(2025) == "2025";
    assert Pad2(12) == "12" && Pad2(30) == "30";
  }

  lemma KoreanLongDateExample()
    ensures Valid(Date(2025, 12, 30)) && KoreanLongDate(Date(2025, 12, 30)) == "2025.12.30 (화)"
  {
    var d := Date(2025, 12, 30);
    TuesdayExample(d);
    YearExample();
    Pad2Example();
    assert KoreanLongDate(d) == "2025" + "." + "12" + "." + "30" + " (" + "화" + ")";
  }

  lemma TuesdayExample(d: Date)
    requires d == Date(2025, 12, 30)
    ensures Valid(d) && KoreanWeekday(d) == "화"
  {
    assert Weekday(d) == 1;
  }

  lemma YearExample()
    ensures NatToString(2025) == "2025"
  {
  }

  lemma Pad2Example()
    ensures Pad2(12) == "12" && Pad2(30) == "30"
  {
  }

  lemma FormatDateExampleParts()
    ensures FormatDate("2025-12-30" + "T" + "10:30:00+09:00") == "2025.12.30 (화)"
  {
    FormatYmdExample();
    KoreanLongDateExample();
    FormatDateIso(Date(2025, 12, 30), "10:30:00+09:00");
  }

  /** The example of the source's comment: 30 December 2025 was a Tuesday. */
  lemma FormatDateExample()
    ensures FormatDate("2025-12-30T10:30:00+09:00") == "2025.12.30 (화)"
  {
    assert "2025-12-30" + "T" + "10:30:00+09:00" == "2025-12-30T10:30:00+09:00";
    FormatDateExampleParts();
  }
}
