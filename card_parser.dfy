/**
 * `parse_card_script` (`card_parser.py`): the card-news script a language model writes, read as a
 * list of cards with the keys `type`, `head`, `body` and `image_key`.
 *
 * A stripped script that starts with `[` or `{` is first given to `json.loads`: a JSON array gives
 * one card per object with a non-empty `headline`, and the line grammar is not consulted; malformed
 * JSON, or JSON that is not an array, falls through to the line grammar. That grammar reads every
 * line of the form `N. KEY=value | KEY=value ...`; a card needs a non-empty type and head.
 *
 * `json.loads` is the parameter `json`, which says only what the parser looks at: whether the text
 * is malformed, a value that is not an array, or an array, and of each element whether it is an
 * object and which string members it has.
 */
module CardParser {
  import opened Wrappers
  import opened Text

  /** A card, the dictionary with the keys `type`, `head`, `body` and `image_key`. */
  datatype Card = Card(cardType: string, head: string, body: string, imageKey: string)

  /** The card every line starts from: all four keys empty. */
  const EmptyCard := Card("", "", "", "")

  /** An element of a JSON array: an object with its string members, or any other value. */
  datatype JsonItem = Object(members: map<string, string>) | NonObject

  /** What `json.loads` makes of the script, as far as the parser looks. */
  datatype Json = Malformed | NonArray | Array(items: seq<JsonItem>)

  /** The parser gives a list of cards, or raises: `item.get` fails on an element that is not an object. */
  datatype Outcome = Cards(cards: seq<Card>) | Raises

  // ---------------------------------------------------------------------------
  // The JSON form
  // ---------------------------------------------------------------------------

  /** `item.get(key, "")`. */
  function Get(members: map<string, string>, key: string): string {
    if key in members then members[key] else ""
  }

  /** The card of one object: no type, and headline, description and image keyword as head, body and image key. */
  function JsonCard(members: map<string, string>): Card {
    Card("", Get(members, "headline"), Get(members, "description"), Get(members, "image_keyword"))
  }

  /** The loop over the array: every object with a non-empty headline gives a card, and any other element raises. */
  function JsonCards(items: seq<JsonItem>): Outcome
    decreases |items|
  {
    if items == [] then Cards([])
    else
      match JsonCards(items[..|items| - 1])
      case Raises => Raises
      case Cards(cards) =>
        match items[|items| - 1]
        case NonObject => Raises
        case Object(members) =>
          var card := JsonCard(members);
          if card.head != "" then Cards(cards + [card]) else Cards(cards)
  }

  // ---------------------------------------------------------------------------
  // The line grammar
  // ---------------------------------------------------------------------------

  /** The keys of the line grammar. */
  const TypeKey := "TYPE="
  const HeadKey := "HEAD="
  const BodyKey := "BODY="
  const ImageKey := "IMAGE_KEY="

  /** `re.match(r"^\d+\.", line)`: a run of digits and a full stop. */
  predicate NumberedLine(line: string) {
    var n := LeadingDigits(line);
    1 <= n < |line| && line[n] == '.'
  }

  /** `re.sub(r"^\d+\.\s*", "", line)` on a numbered line: the number, its full stop and the whitespace after them go. */
  function DropNumber(line: string): string
    requires NumberedLine(line)
  {
    TrimStart(line[LeadingDigits(line) + 1..])
  }

  /** `[p.strip() for p in line.split("|")]`. */
  function Parts(line: string): (r: seq<string>)
    ensures |r| == |Split(line, '|')|
    ensures forall i :: 0 <= i < |r| ==> r[i] == Strip(Split(line, '|')[i])
  {
    var pieces := Split(line, '|');
    seq(|pieces|, i requires 0 <= i < |pieces| => Strip(pieces[i]))
  }

  /** `part.replace(key, "").strip()`: every occurrence of the key is removed, not only the leading one. */
  function Value(part: string, key: string): string
    requires key != []
  {
    Strip(ReplaceAll(part, key, ""))
  }

  /** One turn of the inner loop: a part that starts with a key sets that key's field; any other part changes nothing. */
  function ApplyPart(card: Card, part: string): Card {
    if StartsWith(part, TypeKey) then card.(cardType := Value(part, TypeKey))
    else if StartsWith(part, HeadKey) then card.(head := Value(part, HeadKey))
    else if StartsWith(part, BodyKey) then card.(body := Value(part, BodyKey))
    else if StartsWith(part, ImageKey) then card.(imageKey := Value(part, ImageKey))
    else card
  }

  /** The card after the inner loop has read `parts`, in order. */
  function ApplyParts(card: Card, parts: seq<string>): Card
    decreases |parts|
  {
    if parts == [] then card else ApplyPart(ApplyParts(card, parts[..|parts| - 1]), parts[|parts| - 1])
  }

  /** The card of one line, if the line is numbered and names a type and a head. */
  function LineCard(line: string): (r: Option<Card>)
    ensures r.Some? ==> r.value.cardType != "" && r.value.head != ""
  {
    var l := Strip(line);
    if l == "" || !NumberedLine(l) then None
    else
      var card := ApplyParts(EmptyCard, Parts(DropNumber(l)));
      if card.cardType != "" && card.head != "" then Some(card) else None
  }

  /** The card of one line as a list of at most one card. */
  function LineCardList(line: string): (r: seq<Card>)
    ensures |r| <= 1
    ensures forall k :: 0 <= k < |r| ==> r[k].cardType != "" && r[k].head != ""
  {
    Listed(LineCard(line))
  }

  /** A card, if any, as a list of at most one card. */
  function Listed(card: Option<Card>): (r: seq<Card>)
    requires card.Some? ==> card.value.cardType != "" && card.value.head != ""
    ensures |r| <= 1
    ensures forall k :: 0 <= k < |r| ==> r[k].cardType != "" && r[k].head != ""
    ensures r == if card.Some? then [card.value] else []
  {
    if card.Some? then [card.value] else []
  }

  /** The cards that `f` reads from each of the lines, in the order of the lines. */
  function CardsOf(lines: seq<string>, f: string -> seq<Card>): seq<Card>
    decreases |lines|
  {
    if lines == [] then []
    else CardsOf(lines[..|lines| - 1], f) + f(lines[|lines| - 1])
  }

  /** One more line of the outer loop. */
  lemma CardsOfStep(lines: seq<string>, i: nat, f: string -> seq<Card>)
    requires i < |lines|
    ensures CardsOf(lines[..i + 1], f) == CardsOf(lines[..i], f) + f(lines[i])
  {
    assert lines[..i + 1][..i] == lines[..i];
  }

  /** The line grammar over the lines of the script. */
  function LineCards(lines: seq<string>): seq<Card> {
    CardsOf(lines, LineCardList)
  }

  /** Whether the JSON branch decides the result: the stripped script opens a JSON value that is an array. */
  predicate JsonBranch(s: string, json: string -> Json) {
    (StartsWith(s, "[") || StartsWith(s, "{")) && json(s).Array?
  }

  /** `parse_card_script(script)`. */
  function ParseScript(script: string, json: string -> Json): Outcome {
    var s := Strip(script);
    if JsonBranch(s, json) then JsonCards(json(s).items) else Cards(LineCards(Split(s, '\n')))
  }

  // ---------------------------------------------------------------------------
  // The parser
  // ---------------------------------------------------------------------------

  /** The loop over a JSON array. */
  method ParseJsonItems(items: seq<JsonItem>) returns (outcome: Outcome)
    ensures outcome == JsonCards(items)
  {
    outcome := Raises;
    var cards: seq<Card> := [];
    var i := 0;
    while i < |items|
      invariant 0 <= i <= |items|
      invariant JsonCards(items[..i]) == Cards(cards)
    {
      assert items[..i + 1][..i] == items[..i];
      var item := items[i];
      if item.NonObject? {
        JsonCardsRaisesAfter(items, i + 1);
        return Raises;
      }
      var card := Card("", Get(item.members, "headline"), Get(item.members, "description"), Get(item.members, "image_keyword"));
      if card.head != "" {
        cards := cards + [card];
      }
      i := i + 1;
    }
    assert items[..i] == items;
    outcome := Cards(cards);
  }

  /** The inner loop over the parts of one line. */
  method ReadParts(parts: seq<string>) returns (card: Card)
    ensures card == ApplyParts(EmptyCard, parts)
  {
    card := EmptyCard;
    var j := 0;
    while j < |parts|
      invariant 0 <= j <= |parts|
      invariant card == ApplyParts(EmptyCard, parts[..j])
    {
      assert parts[..j + 1][..j] == parts[..j];
      var part := parts[j];
      if StartsWith(part, TypeKey) {
        card := card.(cardType := Strip(ReplaceAll(part, TypeKey, "")));
      } else if StartsWith(part, HeadKey) {
        card := card.(head := Strip(ReplaceAll(part, HeadKey, "")));
      } else if StartsWith(part, BodyKey) {
        card := card.(body := Strip(ReplaceAll(part, BodyKey, "")));
      } else if StartsWith(part, ImageKey) {
        card := card.(imageKey := Strip(ReplaceAll(part, ImageKey, "")));
      }
      j := j + 1;
    }
    assert parts[..j] == parts;
  }

  /** The outer loop over the lines of the script. */
  method ParseLines(lines: seq<string>) returns (cards: seq<Card>)
    ensures cards == LineCards(lines)
  {
    cards := [];
    var i := 0;
    while i < |lines|
      invariant 0 <= i <= |lines|
      invariant cards == LineCards(lines[..i])
    {
      CardsOfStep(lines, i, LineCardList);
      var line := Strip(lines[i]);
      i := i + 1;
      if line == "" || !NumberedLine(line) {
        continue;
      }
      line := DropNumber(line);
      var card := ReadParts(Parts(line));
      if card.cardType != "" && card.head != "" {
        cards := cards + [card];
      }
    }
    assert lines[..i] == lines;
  }

  /** `parse_card_script(script)` with `json.loads` as `json`. */
  method ParseCardScript(script: string, json: string -> Json) returns (outcome: Outcome)
    ensures outcome == ParseScript(script, json)
  {
    var s := Strip(script);
    if StartsWith(s, "[") || StartsWith(s, "{") {
      var jsonData := json(s);
      if jsonData.Array? {
        outcome := ParseJsonItems(jsonData.items);
        return;
      }
    }
    var lines := Split(s, '\n');
    var cards := ParseLines(lines);
    outcome := Cards(cards);
  }

  // ---------------------------------------------------------------------------
  // Properties
  // ---------------------------------------------------------------------------

  /** An element that is not an object makes the whole loop raise, wherever it stands. */
  lemma {:induction false} JsonCardsRaisesAfter(items: seq<JsonItem>, n: nat)
    requires 1 <= n <= |items| && items[n - 1].NonObject?
    ensures JsonCards(items) == Raises
    decreases |items|
  {
    if n < |items| {
      var init := items[..|items| - 1];
      assert init[n - 1] == items[n - 1];
      JsonCardsRaisesAfter(init, n);
    }
  }

  /** The loop over a concatenation: it raises if either half raises, and otherwise gives the cards of both halves. */
  lemma {:induction false} JsonCardsAppend(xs: seq<JsonItem>, ys: seq<JsonItem>)
    ensures JsonCards(xs + ys)
            == (if JsonCards(xs).Cards? && JsonCards(ys).Cards? then Cards(JsonCards(xs).cards + JsonCards(ys).cards) else Raises)
    decreases |ys|
  {
    if ys == [] {
      assert xs + ys == xs;
    } else {
      var init := ys[..|ys| - 1];
      assert (xs + ys)[..|xs + ys| - 1] == xs + init;
      JsonCardsAppend(xs, init);
    }
  }

  /** A single element: an object gives its card when its headline is non-empty, anything else raises. */
  lemma JsonCardsSingle(item: JsonItem)
    ensures item.NonObject? ==> JsonCards([item]) == Raises
    ensures item.Object? && Get(item.members, "headline") != "" ==> JsonCards([item]) == Cards([JsonCard(item.members)])
    ensures item.Object? && Get(item.members, "headline") == "" ==> JsonCards([item]) == Cards([])
  {
    assert [item][..0] == [];
  }

  /**
   * The JSON loop raises exactly when some element is not an object; otherwise every card it gives
   * comes from an object with a non-empty headline, has no type, and carries that object's
   * headline, description and image keyword.
   */
  lemma {:induction false} JsonCardsSpec(items: seq<JsonItem>)
    ensures JsonCards(items) == Raises <==> exists i :: 0 <= i < |items| && items[i].NonObject?
    ensures JsonCards(items).Cards? ==> forall k :: 0 <= k < |JsonCards(items).cards| ==>
      && JsonCards(items).cards[k].cardType == ""
      && JsonCards(items).cards[k].head != ""
      && exists i :: 0 <= i < |items| && items[i].Object? && JsonCards(items).cards[k] == JsonCard(items[i].members)
    decreases |items|
  {
    if items != [] {
      var n := |items| - 1;
      var init := items[..n];
      JsonCardsSpec(init);
      assert forall i :: 0 <= i < n ==> init[i] == items[i];
      if exists i :: 0 <= i < |items| && items[i].NonObject? {
        var i :| 0 <= i < |items| && items[i].NonObject?;
        JsonCardsRaisesAfter(items, i + 1);
      }
      if JsonCards(items).Cards? {
        var cards := JsonCards(items).cards;
        var before := JsonCards(init).cards;
        forall k | 0 <= k < |cards|
          ensures cards[k].cardType == "" && cards[k].head != ""
          ensures exists i :: 0 <= i < |items| && items[i].Object? && cards[k] == JsonCard(items[i].members)
        {
          if k < |before| {
            assert cards[k] == before[k];
            var i :| 0 <= i < |init| && init[i].Object? && before[k] == JsonCard(init[i].members);
            assert items[i] == init[i];
          } else {
            assert cards[k] == JsonCard(items[n].members);
          }
        }
      }
    }
  }

  /** The cards of a concatenation of lines are the cards of its halves. */
  lemma {:induction false} CardsOfAppend(xs: seq<string>, ys: seq<string>, f: string -> seq<Card>)
    ensures CardsOf(xs + ys, f) == CardsOf(xs, f) + CardsOf(ys, f)
    decreases |ys|
  {
    if ys == [] {
      assert xs + ys == xs;
    } else {
      var init := ys[..|ys| - 1];
      assert (xs + ys)[..|xs + ys| - 1] == xs + init;
      CardsOfAppend(xs, init, f);
    }
  }

  /** A card is among those read from the lines exactly when it is read from one of them. */
  lemma {:induction false} CardsOfMembers(lines: seq<string>, f: string -> seq<Card>, c: Card)
    ensures c in CardsOf(lines, f) <==> exists i :: 0 <= i < |lines| && c in f(lines[i])
    decreases |lines|
  {
    if lines != [] {
      var n := |lines| - 1;
      var init := lines[..n];
      CardsOfMembers(init, f, c);
      assert forall i :: 0 <= i < n ==> init[i] == lines[i];
    }
  }

  /** The line grammar reads the lines one after the other: the cards of a concatenation are the cards of its halves. */
  lemma LineCardsAppend(xs: seq<string>, ys: seq<string>)
    ensures LineCards(xs + ys) == LineCards(xs) + LineCards(ys)
  {
    CardsOfAppend(xs, ys, LineCardList);
  }

  /**
   * A card comes out of the line grammar exactly when some line gives it, and every card that
   * comes out has a non-empty type and head.
   */
  lemma LineCardsMembers(lines: seq<string>, c: Card)
    ensures c in LineCards(lines) <==> exists i :: 0 <= i < |lines| && LineCard(lines[i]) == Some(c)
    ensures c in LineCards(lines) ==> c.cardType != "" && c.head != ""
  {
    CardsOfMembers(lines, LineCardList, c);
    forall i | 0 <= i < |lines|
      ensures c in LineCardList(lines[i]) <==> LineCard(lines[i]) == Some(c)
    {
    }
  }

  /**
   * The reference reading of one field: the value of the last part that starts with the key, or
   * the empty string when no part does.
   */
  function FieldFrom(parts: seq<string>, key: string): string
    requires key != []
    decreases |parts|
  {
    if parts == [] then ""
    else if StartsWith(parts[|parts| - 1], key) then Value(parts[|parts| - 1], key)
    else FieldFrom(parts[..|parts| - 1], key)
  }

  /** The four keys begin with four different letters, so a part starts with at most one of them. */
  lemma KeysExclusive(part: string)
    ensures StartsWith(part, TypeKey) ==> !StartsWith(part, HeadKey) && !StartsWith(part, BodyKey) && !StartsWith(part, ImageKey)
    ensures StartsWith(part, HeadKey) ==> !StartsWith(part, BodyKey) && !StartsWith(part, ImageKey)
    ensures StartsWith(part, BodyKey) ==> !StartsWith(part, ImageKey)
  {
    if part != [] {
      assert StartsWith(part, TypeKey) ==> part[0] == 'T';
      assert StartsWith(part, HeadKey) ==> part[0] == 'H';
      assert StartsWith(part, BodyKey) ==> part[0] == 'B';
      assert StartsWith(part, ImageKey) ==> part[0] == 'I';
    }
  }

  /** The inner loop sets every field independently: to the value of the last part with its key. */
  lemma {:induction false} ApplyPartsFields(parts: seq<string>)
    ensures ApplyParts(EmptyCard, parts)
            == Card(FieldFrom(parts, TypeKey), FieldFrom(parts, HeadKey), FieldFrom(parts, BodyKey), FieldFrom(parts, ImageKey))
    decreases |parts|
  {
    if parts != [] {
      ApplyPartsFields(parts[..|parts| - 1]);
      KeysExclusive(parts[|parts| - 1]);
    }
  }

  /** A later part with the key overrides every earlier one. */
  lemma {:induction false} FieldFromLast(parts: seq<string>, key: string, i: nat)
    requires key != [] && i < |parts| && StartsWith(parts[i], key)
    requires forall j :: i < j < |parts| ==> !StartsWith(parts[j], key)
    ensures FieldFrom(parts, key) == Value(parts[i], key)
    decreases |parts|
  {
    if i < |parts| - 1 {
      var init := parts[..|parts| - 1];
      assert init[i] == parts[i];
      FieldFromLast(init, key, i);
    }
  }

  /** A key no part starts with stays empty. */
  lemma {:induction false} FieldFromAbsent(parts: seq<string>, key: string)
    requires key != [] && forall j :: 0 <= j < |parts| ==> !StartsWith(parts[j], key)
    ensures FieldFrom(parts, key) == ""
    decreases |parts|
  {
    if parts != [] {
      FieldFromAbsent(parts[..|parts| - 1], key);
    }
  }

  /** `str.replace` removes every copy of the key, not only the leading one. */
  lemma ValueDropsEveryKey()
    ensures Value("HEAD=a HEAD=b", HeadKey) == "a b"
  {
    var s := "HEAD=a HEAD=b";
    assert s[..5] == HeadKey && s[5..] == "a HEAD=b";
    var t := "a HEAD=b";
    assert t[..5] != HeadKey && t[1..] == " HEAD=b";
    var u := " HEAD=b";
    assert u[..5] != HeadKey && u[1..] == "HEAD=b";
    var v := "HEAD=b";
    assert v[..5] == HeadKey && v[5..] == "b";
    assert ReplaceAll("b", HeadKey, "") == "b";
    assert ReplaceAll(v, HeadKey, "") == "b";
    assert ReplaceAll(u, HeadKey, "") == " b";
    assert ReplaceAll(t, HeadKey, "") == "a b";
    assert ReplaceAll(s, HeadKey, "") == "a b";
    StripStripped("a b");
  }

  /** The value of `key + v` is `v` when `v` is stripped and holds no further copy of the key. */
  lemma ValueOfKeyed(key: string, v: string)
    requires key != [] && IsStripped(v) && !Contains(v, key)
    ensures Value(key + v, key) == v
  {
    var part := key + v;
    assert part[..|key|] == key && part[|key|..] == v;
    ReplaceAllAbsent(v, key, "");
    assert ReplaceAll(part, key, "") == v;
    StripStripped(v);
  }

  /**
   * A line gives a card exactly when, once stripped, it is numbered and its parts name a type and a
   * head; the card's fields are then the values of the last parts with their keys.
   */
  lemma LineCardSpec(line: string)
    ensures var l := Strip(line);
      LineCard(line).Some? <==>
        && NumberedLine(l)
        && FieldFrom(Parts(DropNumber(l)), TypeKey) != ""
        && FieldFrom(Parts(DropNumber(l)), HeadKey) != ""
    ensures var l := Strip(line);
      LineCard(line).Some? ==>
        var parts := Parts(DropNumber(l));
        LineCard(line).value
        == Card(FieldFrom(parts, TypeKey), FieldFrom(parts, HeadKey), FieldFrom(parts, BodyKey), FieldFrom(parts, ImageKey))
  {
    var l := Strip(line);
    if NumberedLine(l) {
      ApplyPartsFields(Parts(DropNumber(l)));
    }
  }

  /**
   * The two branches of the parser: a JSON array decides the result on its own, even when it gives
   * no card; anything else (no bracket, malformed JSON, a value that is not an array) goes to the
   * line grammar. The parser raises exactly when the array holds an element that is not an object,
   * and every card it gives has a non-empty head.
   */
  lemma ParseScriptCases(script: string, json: string -> Json)
    ensures var s := Strip(script);
      JsonBranch(s, json) ==> ParseScript(script, json) == JsonCards(json(s).items)
    ensures var s := Strip(script);
      !JsonBranch(s, json) ==> ParseScript(script, json) == Cards(LineCards(Split(s, '\n')))
    ensures var s := Strip(script);
      ParseScript(script, json) == Raises <==>
        JsonBranch(s, json) && exists i :: 0 <= i < |json(s).items| && json(s).items[i].NonObject?
    ensures ParseScript(script, json).Cards? ==>
      forall c :: c in ParseScript(script, json).cards ==> c.head != ""
  {
    var s := Strip(script);
    if JsonBranch(s, json) {
      JsonCardsSpec(json(s).items);
    } else {
      forall c | c in LineCards(Split(s, '\n')) ensures c.head != "" {
        LineCardsMembers(Split(s, '\n'), c);
      }
    }
  }

  /** The cards of a single line. */
  lemma SingleLine(line: string)
    ensures LineCards([line]) == LineCardList(line)
  {
    var lines := [line];
    assert lines[..0] == [] && lines[0] == line;
    assert CardsOf(lines, LineCardList) == CardsOf([], LineCardList) + LineCardList(line);
  }

  /** A script of one line that is not numbered and does not open a JSON array gives no card. */
  lemma UnnumberedScript(script: string, json: string -> Json)
    requires '\n' !in Strip(script) && !NumberedLine(Strip(script)) && !JsonBranch(Strip(script), json)
    ensures ParseScript(script, json) == Cards([])
  {
    ParseScriptCases(script, json);
    UnnumberedLines(Strip(script));
  }

  /** A stripped line without a newline and without a number in front gives no card. */
  lemma UnnumberedLines(s: string)
    requires '\n' !in s && !NumberedLine(s) && IsStripped(s)
    ensures LineCards(Split(s, '\n')) == []
  {
    assert Split(s, '\n') == [s];
    SingleLine(s);
    StripStripped(s);
    assert LineCard(s) == None;
  }

  /** The empty script gives no card. */
  lemma EmptyScript(script: string, json: string -> Json)
    requires script == ""
    ensures ParseScript(script, json) == Cards([])
  {
    StripStripped(script);
    assert !StartsWith(script, "[") && !StartsWith(script, "{");
    UnnumberedScript(script, json);
  }

  /** Plain prose, with no number in front, gives no card. */
  const Prose := "이것은 유효하지 않은 형식입니다."

  /** The shape of the prose line: no newline, and its first character is neither a digit nor a bracket. */
  lemma ProseShape(s: string)
    requires s == Prose
    ensures IsStripped(s) && '\n' !in s
    ensures s != [] && !IsDigit(s[0]) && s[0] != '[' && s[0] != '{'
  {
  }

  lemma NotStartsWith(s: string, c: char)
    requires s != [] && s[0] != c
    ensures !StartsWith(s, [c])
  {
    assert s[..1][0] == s[0];
  }

  lemma ProseScript(script: string, json: string -> Json)
    requires script == Prose
    ensures ParseScript(script, json) == Cards([])
  {
    ProseShape(script);
    StripStripped(script);
    assert LeadingDigits(script) == 0;
    NotStartsWith(script, '[');
    NotStartsWith(script, '{');
    UnnumberedScript(script, json);
  }

  // ---------------------------------------------------------------------------
  // Lines of the documented shape `N. TYPE=t | HEAD=h | ...`
  // ---------------------------------------------------------------------------

  /** A value as a script writes it: non-empty, stripped, and free of `|` and `=`. */
  predicate PlainValue(v: string) {
    v != [] && IsStripped(v) && '|' !in v && '=' !in v
  }

  /** A text without `=` holds no key. */
  lemma NoKeyIn(v: string, key: string)
    requires '=' !in v && '=' in key
    ensures !Contains(v, key)
  {
    ContainsIff(v, key);
  }

  predicate KeyShape(key: string) {
    key != [] && !IsSpace(key[0]) && '|' !in key && '=' in key
  }

  lemma KeysShape()
    ensures KeyShape(TypeKey) && KeyShape(HeadKey) && KeyShape(BodyKey) && KeyShape(ImageKey)
  {
    assert TypeKey[4] == '=' && HeadKey[4] == '=' && BodyKey[4] == '=' && ImageKey[9] == '=';
  }

  lemma NoBarInSpace(w: string)
    requires AllSpace(w)
    ensures '|' !in w
  {
  }

  /** A part `key + v` starts with its key and has the value `v`. */
  lemma KeyedValue(key: string, v: string)
    requires KeyShape(key) && PlainValue(v)
    ensures StartsWith(key + v, key) && Value(key + v, key) == v
  {
    assert (key + v)[..|key|] == key;
    NoKeyIn(v, key);
    ValueOfKeyed(key, v);
  }

  lemma HeadOfConcat(a: string, b: string)
    requires a != []
    ensures (a + b)[0] == a[0]
  {
  }

  lemma LastOfConcat(a: string, b: string)
    requires b != []
    ensures (a + b)[|a + b| - 1] == b[|b| - 1]
  {
  }

  /** One piece between bars, with whitespace `w` and `u` around `key + v`. */
  lemma KeyedPiece(key: string, v: string, w: string, u: string)
    requires KeyShape(key) && PlainValue(v) && AllSpace(w) && AllSpace(u)
    ensures '|' !in w + (key + v) + u
    ensures IsStripped(key + v) && Strip(w + (key + v) + u) == key + v
  {
    var kv := key + v;
    NoBarInSpace(w);
    NoBarInSpace(u);
    assert '|' !in kv;
    HeadOfConcat(key, v);
    LastOfConcat(key, v);
    StripSurrounded(w, kv, u);
  }

  lemma DropNumberOne(d: char, j: string, line: string)
    requires IsDigit(d) && j != [] && !IsSpace(j[0])
    requires line == [d] + (". " + j)
    ensures NumberedLine(line) && DropNumber(line) == j
  {
    assert line[1..][0] == '.';
    assert LeadingDigits(line) == 1;
    assert line[2..] == " " + j;
    TrimStartPrependSpace(" ", j);
  }

  /** A stripped line `d. j`: numbered, and `j` is what is left once the number goes. */
  lemma NumberedText(d: char, j: string, line: string)
    requires IsDigit(d) && j != [] && IsStripped(j)
    requires line == [d] + (". " + j)
    ensures Strip(line) == line && NumberedLine(line) && DropNumber(line) == j
  {
    assert line[0] == d && line[|line| - 1] == j[|j| - 1];
    StripStripped(line);
    DropNumberOne(d, j, line);
  }

  /** The parts of pieces joined with bars are the stripped pieces. */
  lemma PartsOfJoin(ps: seq<string>)
    requires |ps| >= 1 && forall i :: 0 <= i < |ps| ==> '|' !in ps[i]
    ensures |Parts(Join(ps, '|'))| == |ps|
    ensures forall i :: 0 <= i < |ps| ==> Parts(Join(ps, '|'))[i] == Strip(ps[i])
  {
    JoinSplit(ps, '|');
  }

  /** Three pieces joined by bars: the parts are the three stripped pieces. */
  lemma ThreeParts(p0: string, p1: string, p2: string)
    requires '|' !in p0 && '|' !in p1 && '|' !in p2
    ensures Parts(p0 + ['|'] + (p1 + ['|'] + p2)) == [Strip(p0), Strip(p1), Strip(p2)]
  {
    var t2 := p1 + ['|'] + p2;
    SplitAtFirst(p1, '|', p2);
    SplitAtFirst(p0, '|', t2);
    PartsOfThree(p0 + ['|'] + t2, p0, p1, p2);
  }

  lemma PartsOfThree(x: string, p0: string, p1: string, p2: string)
    requires Split(x, '|') == [p0] + ([p1] + [p2])
    ensures Parts(x) == [Strip(p0), Strip(p1), Strip(p2)]
  {
    var ps := Split(x, '|');
    assert ps[0] == p0 && ps[1] == p1 && ps[2] == p2;
    var r := Parts(x);
    assert |r| == 3 && r[0] == Strip(p0) && r[1] == Strip(p1) && r[2] == Strip(p2);
    SeqOfThree(r, Strip(p0), Strip(p1), Strip(p2));
  }

  /** Sequence extensionality for three elements, kept apart so that it is proved on abstract values,
   * where `Strip` is never unfolded. */
  lemma SeqOfThree<T>(r: seq<T>, a: T, b: T, c: T)
    requires |r| == 3 && r[0] == a && r[1] == b && r[2] == c
    ensures r == [a, b, c]
  {
  }

  /** Four pieces joined by bars: the parts are the four stripped pieces. */
  lemma FourParts(p0: string, p1: string, p2: string, p3: string)
    requires '|' !in p0 && '|' !in p1 && '|' !in p2 && '|' !in p3
    ensures Parts(p0 + ['|'] + (p1 + ['|'] + (p2 + ['|'] + p3))) == [Strip(p0), Strip(p1), Strip(p2), Strip(p3)]
  {
    var t3 := p2 + ['|'] + p3;
    var t2 := p1 + ['|'] + t3;
    SplitAtFirst(p2, '|', p3);
    SplitAtFirst(p1, '|', t3);
    SplitAtFirst(p0, '|', t2);
    PartsOfFour(p0 + ['|'] + t2, p0, p1, p2, p3);
  }

  lemma PartsOfFour(x: string, p0: string, p1: string, p2: string, p3: string)
    requires Split(x, '|') == [p0] + ([p1] + ([p2] + [p3]))
    ensures Parts(x) == [Strip(p0), Strip(p1), Strip(p2), Strip(p3)]
  {
    var ps := Split(x, '|');
    assert ps[0] == p0 && ps[1] == p1 && ps[2] == p2 && ps[3] == p3;
    var r := Parts(x);
    assert |r| == 4 && r[0] == Strip(p0) && r[1] == Strip(p1) && r[2] == Strip(p2) && r[3] == Strip(p3);
    SeqOfFour(r, Strip(p0), Strip(p1), Strip(p2), Strip(p3));
  }

  /** Sequence extensionality for four elements, kept apart like SeqOfThree. */
  lemma SeqOfFour<T>(r: seq<T>, a: T, b: T, c: T, d: T)
    requires |r| == 4 && r[0] == a && r[1] == b && r[2] == c && r[3] == d
    ensures r == [a, b, c, d]
  {
  }

  /** The text after the number of `N. TYPE=t | HEAD=h | IMAGE_KEY=k`. */
  function ThreeFields(t: string, h: string, k: string): string {
    (TypeKey + t + " ") + ['|'] + ((" " + (HeadKey + h) + " ") + ['|'] + (" " + (ImageKey + k)))
  }

  /** The text after the number of `N. TYPE=t | HEAD=h | BODY=b | IMAGE_KEY=k`. */
  function FourFields(t: string, h: string, b: string, k: string): string {
    (TypeKey + t + " ") + ['|'] + ((" " + (HeadKey + h) + " ") + ['|'] + ((" " + (BodyKey + b) + " ") + ['|'] + (" " + (ImageKey + k))))
  }

  /** The parts of `TYPE=t | HEAD=h | IMAGE_KEY=k`, and the shape of that text. */
  lemma ThreeFieldsParts(t: string, h: string, k: string)
    requires PlainValue(t) && PlainValue(h) && PlainValue(k)
    ensures Parts(ThreeFields(t, h, k)) == [TypeKey + t, HeadKey + h, ImageKey + k]
    ensures ThreeFields(t, h, k) != [] && IsStripped(ThreeFields(t, h, k))
  {
    KeysShape();
    KeyedPiece(TypeKey, t, "", " ");
    assert "" + (TypeKey + t) + " " == TypeKey + t + " ";
    KeyedPiece(HeadKey, h, " ", " ");
    KeyedPiece(ImageKey, k, " ", "");
    assert " " + (ImageKey + k) + "" == " " + (ImageKey + k);
    var p0, p1, p2 := TypeKey + t + " ", " " + (HeadKey + h) + " ", " " + (ImageKey + k);
    ThreeParts(p0, p1, p2);
    HeadOfConcat(TypeKey + t, " ");
    HeadOfConcat(TypeKey, t);
    HeadOfConcat(p0, ['|']);
    HeadOfConcat(p0 + ['|'], p1 + ['|'] + p2);
    LastOfConcat(p0 + ['|'], p1 + ['|'] + p2);
    LastOfConcat(p1 + ['|'], p2);
    LastOfConcat(" ", ImageKey + k);
    LastOfConcat(ImageKey, k);
  }

  /** The parts of `TYPE=t | HEAD=h | BODY=b | IMAGE_KEY=k`, and the shape of that text. */
  lemma FourFieldsParts(t: string, h: string, b: string, k: string)
    requires PlainValue(t) && PlainValue(h) && PlainValue(b) && PlainValue(k)
    ensures Parts(FourFields(t, h, b, k)) == [TypeKey + t, HeadKey + h, BodyKey + b, ImageKey + k]
    ensures FourFields(t, h, b, k) != [] && IsStripped(FourFields(t, h, b, k))
  {
    KeysShape();
    KeyedPiece(TypeKey, t, "", " ");
    assert "" + (TypeKey + t) + " " == TypeKey + t + " ";
    KeyedPiece(HeadKey, h, " ", " ");
    KeyedPiece(BodyKey, b, " ", " ");
    KeyedPiece(ImageKey, k, " ", "");
    assert " " + (ImageKey + k) + "" == " " + (ImageKey + k);
    var p0, p1, p2, p3 := TypeKey + t + " ", " " + (HeadKey + h) + " ", " " + (BodyKey + b) + " ", " " + (ImageKey + k);
    FourParts(p0, p1, p2, p3);
    HeadOfConcat(TypeKey + t, " ");
    HeadOfConcat(TypeKey, t);
    HeadOfConcat(p0, ['|']);
    HeadOfConcat(p0 + ['|'], p1 + ['|'] + (p2 + ['|'] + p3));
    LastOfConcat(p0 + ['|'], p1 + ['|'] + (p2 + ['|'] + p3));
    LastOfConcat(p1 + ['|'], p2 + ['|'] + p3);
    LastOfConcat(p2 + ['|'], p3);
    LastOfConcat(" ", ImageKey + k);
    LastOfConcat(ImageKey, k);
  }

  lemma ApplySnoc(card: Card, parts: seq<string>, p: string)
    ensures ApplyParts(card, parts + [p]) == ApplyPart(ApplyParts(card, parts), p)
  {
    assert (parts + [p])[..|parts|] == parts;
  }

  lemma ApplyThree(card: Card, a: string, b: string, c: string)
    ensures ApplyParts(card, [a, b, c]) == ApplyPart(ApplyPart(ApplyPart(card, a), b), c)
  {
    ApplySnoc(card, [], a);
    ApplySnoc(card, [a], b);
    ApplySnoc(card, [a, b], c);
    assert [] + [a] == [a] && [a] + [b] == [a, b] && [a, b] + [c] == [a, b, c];
  }

  lemma ApplyFour(card: Card, a: string, b: string, c: string, d: string)
    ensures ApplyParts(card, [a, b, c, d]) == ApplyPart(ApplyPart(ApplyPart(ApplyPart(card, a), b), c), d)
  {
    ApplyThree(card, a, b, c);
    ApplySnoc(card, [a, b, c], d);
    assert [a, b, c] + [d] == [a, b, c, d];
  }

  /** Reading the parts `TYPE=t`, `HEAD=h`, `IMAGE_KEY=k` fills those three fields. */
  lemma ThreeFieldsCard(t: string, h: string, k: string)
    requires PlainValue(t) && PlainValue(h) && PlainValue(k)
    ensures ApplyParts(EmptyCard, [TypeKey + t, HeadKey + h, ImageKey + k]) == Card(t, h, "", k)
  {
    KeysShape();
    KeyedValue(TypeKey, t);
    KeyedValue(HeadKey, h);
    KeyedValue(ImageKey, k);
    KeysExclusive(HeadKey + h);
    KeysExclusive(ImageKey + k);
    ApplyThree(EmptyCard, TypeKey + t, HeadKey + h, ImageKey + k);
    var c1 := ApplyPart(EmptyCard, TypeKey + t);
    assert c1 == Card(t, "", "", "");
    var c2 := ApplyPart(c1, HeadKey + h);
    assert c2 == Card(t, h, "", "");
    assert ApplyPart(c2, ImageKey + k) == Card(t, h, "", k);
  }

  /** Reading the parts `TYPE=t`, `HEAD=h`, `BODY=b`, `IMAGE_KEY=k` fills all four fields. */
  lemma FourFieldsCard(t: string, h: string, b: string, k: string)
    requires PlainValue(t) && PlainValue(h) && PlainValue(b) && PlainValue(k)
    ensures ApplyParts(EmptyCard, [TypeKey + t, HeadKey + h, BodyKey + b, ImageKey + k]) == Card(t, h, b, k)
  {
    KeysShape();
    KeyedValue(TypeKey, t);
    KeyedValue(HeadKey, h);
    KeyedValue(BodyKey, b);
    KeyedValue(ImageKey, k);
    KeysExclusive(HeadKey + h);
    KeysExclusive(BodyKey + b);
    KeysExclusive(ImageKey + k);
    ApplyFour(EmptyCard, TypeKey + t, HeadKey + h, BodyKey + b, ImageKey + k);
    var c1 := ApplyPart(EmptyCard, TypeKey + t);
    assert c1 == Card(t, "", "", "");
    var c2 := ApplyPart(c1, HeadKey + h);
    assert c2 == Card(t, h, "", "");
    var c3 := ApplyPart(c2, BodyKey + b);
    assert c3 == Card(t, h, b, "");
    assert ApplyPart(c3, ImageKey + k) == Card(t, h, b, k);
  }

  /** `N. TYPE=t | HEAD=h | IMAGE_KEY=k` gives the card with type `t`, head `h`, no body and image key `k`. */
  lemma ThreeFieldLine(d: char, t: string, h: string, k: string, line: string)
    requires IsDigit(d) && PlainValue(t) && PlainValue(h) && PlainValue(k)
    requires line == [d] + (". " + ThreeFields(t, h, k))
    ensures LineCard(line) == Some(Card(t, h, "", k))
  {
    ThreeFieldsParts(t, h, k);
    NumberedText(d, ThreeFields(t, h, k), line);
    ThreeFieldsCard(t, h, k);
  }

  /** `N. TYPE=t | HEAD=h | BODY=b | IMAGE_KEY=k` gives the card with all four fields. */
  lemma FourFieldLine(d: char, t: string, h: string, b: string, k: string, line: string)
    requires IsDigit(d) && PlainValue(t) && PlainValue(h) && PlainValue(b) && PlainValue(k)
    requires line == [d] + (". " + FourFields(t, h, b, k))
    ensures LineCard(line) == Some(Card(t, h, b, k))
  {
    FourFieldsParts(t, h, b, k);
    NumberedText(d, FourFields(t, h, b, k), line);
    FourFieldsCard(t, h, b, k);
  }

  /** The shape of a script of two lines whose first opens with a digit. */
  lemma TwoLines(script: string, line1: string, line2: string)
    requires script == line1 + ['\n'] + line2
    requires '\n' !in line1 && '\n' !in line2
    requires line1 != [] && IsDigit(line1[0])
    requires line2 != [] && !IsSpace(line2[|line2| - 1])
    ensures Strip(script) == script && !StartsWith(script, "[") && !StartsWith(script, "{")
    ensures Split(script, '\n') == [line1, line2]
  {
    HeadOfConcat(line1, ['\n']);
    HeadOfConcat(line1 + ['\n'], line2);
    LastOfConcat(line1 + ['\n'], line2);
    DigitOpening(script);
    SplitAtFirst(line1, '\n', line2);
    assert Split(line2, '\n') == [line2];
  }

  /** A stripped text that opens with a digit is its own strip and opens no JSON value. */
  lemma DigitOpening(s: string)
    requires s != [] && IsDigit(s[0]) && !IsSpace(s[|s| - 1])
    ensures Strip(s) == s && !StartsWith(s, "[") && !StartsWith(s, "{")
  {
    StripStripped(s);
    NotStartsWith(s, '[');
    NotStartsWith(s, '{');
  }

  lemma TwoLineCards(line1: string, line2: string)
    ensures LineCards([line1, line2]) == LineCardList(line1) + LineCardList(line2)
  {
    LineCardsAppend([line1], [line2]);
    assert [line1] + [line2] == [line1, line2];
    SingleLine(line1);
    SingleLine(line2);
  }

  /** A script of two lines, the first opening with a digit: the cards of the first line, then those of the second. */
  lemma TwoLineScript(script: string, line1: string, line2: string, json: string -> Json)
    requires script == line1 + ['\n'] + line2
    requires '\n' !in line1 && '\n' !in line2
    requires line1 != [] && IsDigit(line1[0])
    requires line2 != [] && !IsSpace(line2[|line2| - 1])
    ensures ParseScript(script, json) == Cards(LineCardList(line1) + LineCardList(line2))
  {
    TwoLines(script, line1, line2);
    ParseScriptCases(script, json);
    TwoLineCards(line1, line2);
  }

  /**
   * A script in the documented shape, a cover line `1. TYPE=t1 | HEAD=h1 | IMAGE_KEY=k1` and then a
   * line `2. TYPE=t2 | HEAD=h2 | BODY=b2 | IMAGE_KEY=k2`, gives exactly those two cards, in order.
   */
  lemma DocumentedScript(t1: string, h1: string, k1: string, t2: string, h2: string, b2: string, k2: string,
                         line1: string, line2: string, script: string, json: string -> Json)
    requires PlainValue(t1) && PlainValue(h1) && PlainValue(k1)
    requires PlainValue(t2) && PlainValue(h2) && PlainValue(b2) && PlainValue(k2)
    requires '\n' !in t1 && '\n' !in h1 && '\n' !in k1
    requires '\n' !in t2 && '\n' !in h2 && '\n' !in b2 && '\n' !in k2
    requires line1 == ['1'] + (". " + ThreeFields(t1, h1, k1))
    requires line2 == ['2'] + (". " + FourFields(t2, h2, b2, k2))
    requires script == line1 + ['\n'] + line2
    ensures ParseScript(script, json) == Cards([Card(t1, h1, "", k1), Card(t2, h2, b2, k2)])
  {
    ThreeFieldLine('1', t1, h1, k1, line1);
    FourFieldLine('2', t2, h2, b2, k2, line2);
    NoNewline3(t1, h1, k1);
    NoNewline4(t2, h2, b2, k2);
    FourFieldsParts(t2, h2, b2, k2);
    LastOfConcat(". ", FourFields(t2, h2, b2, k2));
    LastOfConcat(['2'], ". " + FourFields(t2, h2, b2, k2));
    TwoLineScript(script, line1, line2, json);
    OneCard(line1, Card(t1, h1, "", k1));
    OneCard(line2, Card(t2, h2, b2, k2));
    PairOfCards(Card(t1, h1, "", k1), Card(t2, h2, b2, k2));
  }

  lemma PairOfCards(c1: Card, c2: Card)
    ensures [c1] + [c2] == [c1, c2]
  {
  }

  lemma OneCard(line: string, c: Card)
    requires LineCard(line) == Some(c)
    ensures LineCardList(line) == [c]
  {
  }

  lemma NoNewline3(t: string, h: string, k: string)
    requires '\n' !in t && '\n' !in h && '\n' !in k
    ensures '\n' !in ['1'] + (". " + ThreeFields(t, h, k))
  {
    KeysNoNewline();
  }

  lemma NoNewline4(t: string, h: string, b: string, k: string)
    requires '\n' !in t && '\n' !in h && '\n' !in b && '\n' !in k
    ensures '\n' !in ['2'] + (". " + FourFields(t, h, b, k))
  {
    KeysNoNewline();
  }

  lemma KeysNoNewline()
    ensures '\n' !in TypeKey && '\n' !in HeadKey && '\n' !in BodyKey && '\n' !in ImageKey
  {
  }
}
