/**
 * `image_prep.py`: the image material for one card — the prompt for an image generator, the icon
 * searches on the Iconify API, the SVG downloads and the names of the entries of the zip file.
 *
 * The HTTP calls are parameters: `search(query, limit)` is the answer of the `/search` endpoint
 * (a status and its `icons` list, or an exception), `download(url)` is what `download_svg` returns.
 */
module ImagePrep {
  import opened Wrappers
  import opened Text
  import opened Lists
  import CardParser

  type Bytes = seq<bv8>

  const IconifyBase := "https://api.iconify.design"
  const MaterialPrefix := "material-symbols:"

  /** The `limit` that `prepare_card_images` passes to both searches. */
  const SearchLimit := 3

  /** One search result, `{"name", "url"}`. */
  datatype Icon = Icon(name: string, url: string)

  /** The answer of `/search`: a status code and the `icons` list (empty when the key is absent), or an exception. */
  datatype SearchResponse = Response(status: int, icons: seq<string>) | Failed

  /** One downloaded icon, `{"name", "data"}`; either key may be missing in what the zip builder is given. */
  datatype IconFile = IconFile(name: Option<string>, data: Option<Bytes>)

  /** One entry of the zip file: its path and its content. */
  datatype Entry = Entry(path: string, data: Bytes)

  /** Python truthiness of downloaded data: present and not empty. */
  predicate Truthy(data: Option<Bytes>) {
    data.Some? && data.value != []
  }

  // ---------------------------------------------------------------------------
  // Searching
  // ---------------------------------------------------------------------------

  /** The address of an icon's SVG. */
  function SvgUrl(name: string): string {
    IconifyBase + "/" + name + ".svg"
  }

  /** `xs[:n]` for any integer `n`: a negative end counts from the back. */
  function SlicePrefix<T>(xs: seq<T>, n: int): (r: seq<T>)
    ensures |r| <= |xs| && r == xs[..|r|]
    ensures 0 <= n ==> |r| == if n < |xs| then n else |xs|
  {
    if n >= 0 then (if n < |xs| then xs[..n] else xs)
    else if -n < |xs| then xs[..|xs| + n] else []
  }

  /** The icon an Iconify result name stands for. */
  function IconifyIcon(name: string): Option<Icon> {
    Some(Icon(name, SvgUrl(name)))
  }

  /** The icon a Material result name stands for, if it carries the Material prefix. */
  function MaterialIcon(name: string): Option<Icon> {
    if StartsWith(name, MaterialPrefix) then Some(Icon(name, SvgUrl(name))) else None
  }

  /** The names a response offers, cut to the limit; none unless the status is 200. */
  function Offered(resp: SearchResponse, limit: int): seq<string> {
    if resp.Failed? || resp.status != 200 then [] else SlicePrefix(resp.icons, limit)
  }

  /** What `search_iconify_icons` returns for a response. */
  function IconifyResults(resp: SearchResponse, limit: int): seq<Icon> {
    FilterMap(Offered(resp, limit), IconifyIcon)
  }

  /** What `search_material_icons` returns for a response. */
  function MaterialResults(resp: SearchResponse, limit: int): seq<Icon> {
    FilterMap(Offered(resp, limit), MaterialIcon)
  }

  /** The loop over the offered names, appending `f(name)` where `f` gives an icon. */
  method CollectIcons(names: seq<string>, f: string -> Option<Icon>) returns (results: seq<Icon>)
    ensures results == FilterMap(names, f)
  {
    results := [];
    for i := 0 to |names|
      invariant results == FilterMap(names[..i], f)
    {
      FilterMapStep(names, i, f);
      var icon := f(names[i]);
      if icon.Some? {
        results := results + [icon.value];
      }
    }
    assert names[..|names|] == names;
  }

  /** `search_iconify_icons(query, limit)`. */
  method SearchIconifyIcons(query: string, limit: int, search: (string, int) -> SearchResponse)
    returns (results: seq<Icon>)
    ensures results == IconifyResults(search(query, limit), limit)
  {
    var resp := search(query, limit);
    if resp.Failed? || resp.status != 200 {
      return [];
    }
    results := CollectIcons(SlicePrefix(resp.icons, limit), IconifyIcon);
  }

  /** `search_material_icons(query, limit)`: the query sent carries the Material prefix. */
  method SearchMaterialIcons(query: string, limit: int, search: (string, int) -> SearchResponse)
    returns (results: seq<Icon>)
    ensures results == MaterialResults(search(MaterialPrefix + query, limit), limit)
  {
    var resp := search(MaterialPrefix + query, limit);
    if resp.Failed? || resp.status != 200 {
      return [];
    }
    results := CollectIcons(SlicePrefix(resp.icons, limit), MaterialIcon);
  }

  /**
   * The Iconify results: none unless the status is 200; otherwise one icon per offered name, in
   * order, at most `limit` of them, each with the SVG address of its name.
   */
  lemma IconifyResultsSpec(resp: SearchResponse, limit: int)
    ensures resp.Failed? || resp.status != 200 ==> IconifyResults(resp, limit) == []
    ensures resp.Response? && resp.status == 200 ==>
      var r := IconifyResults(resp, limit);
      && (0 <= limit ==> |r| == if limit < |resp.icons| then limit else |resp.icons|)
      && (forall i :: 0 <= i < |r| ==> i < |resp.icons| && r[i] == Icon(resp.icons[i], SvgUrl(resp.icons[i])))
  {
    var names := Offered(resp, limit);
    FilterMapTotal(names, IconifyIcon);
  }

  /**
   * The Material results: none unless the status is 200; otherwise an icon is among them exactly
   * when its name is offered and carries the Material prefix, and its address is that of its name.
   */
  lemma MaterialResultsSpec(resp: SearchResponse, limit: int, icon: Icon)
    ensures resp.Failed? || resp.status != 200 ==> MaterialResults(resp, limit) == []
    ensures icon in MaterialResults(resp, limit) <==>
      icon.name in Offered(resp, limit) && StartsWith(icon.name, MaterialPrefix) && icon.url == SvgUrl(icon.name)
    ensures 0 <= limit ==> |MaterialResults(resp, limit)| <= limit
  {
    var names := Offered(resp, limit);
    FilterMapMembers(names, MaterialIcon, icon);
    FilterMapLength(names, MaterialIcon);
    if icon.name in names && StartsWith(icon.name, MaterialPrefix) && icon.url == SvgUrl(icon.name) {
      var i :| 0 <= i < |names| && names[i] == icon.name;
      assert MaterialIcon(names[i]) == Some(icon);
    }
  }

  // ---------------------------------------------------------------------------
  // The prompt
  // ---------------------------------------------------------------------------

  const DarkBlue := "진한 파란색/보라색 계열"
  const LightGray := "밝은 회색/흰색 계열"
  const PaleGreen := "연한 파란색/초록색 계열"

  /** The background for a lower-cased card type; unknown types get the light gray of the content cards. */
  function Background(cardType: string): string {
    if cardType == "cover" then DarkBlue
    else if cardType == "program" || cardType == "impact" || cardType == "result" then LightGray
    else if cardType == "closing" then PaleGreen
    else LightGray
  }

  /** The fixed opening of every prompt, up to the background. */
  const Opening :=
    "충남콘텐츠진흥원(충콘진) 브랜드 카드뉴스용 일러스트 한 장을 만든다.\n"
    + "정사각형(1:1) 비율, SNS용 카드뉴스 스타일.\n\n"
    + "디자인 스타일:\n"
    + "- 브랜드 컬러: #6750A4 (Primary), #625B71 (Secondary)\n"
    + "- 일러스트 스타일: 현대적이고 깔끔한 플랫 디자인\n"
    + "- 여백: 충분한 여백으로 가독성 확보\n"
    + "- 배경: "

  /** The opening, the background, and the type and title lines. */
  function HeadSection(background: string, typeName: string, head: string): string {
    Opening + background + "\n\n" + TypeLine(typeName) + "\n" + TitleLine(head) + "\n"
  }

  function TypeLine(typeName: string): string {
    "[카드 타입: " + typeName + "]"
  }

  function TitleLine(head: string): string {
    "제목: \"" + head + "\""
  }

  /** The body line, present only for a non-empty body. */
  function BodyLine(body: string): string {
    if body == "" then "" else "본문: \"" + body + "\"\n"
  }

  /** The closing line with the image keywords. */
  function KeyLine(imageKey: string): string {
    "\nIMAGE_KEY 키워드: " + imageKey
  }

  /** `build_card_image_prompt(card)`: the type is lower-cased for the background and shown upper-cased. */
  function Prompt(card: CardParser.Card): string {
    var cardType := Lower(card.cardType);
    HeadSection(Background(cardType), Upper(cardType), card.head) + BodyLine(card.body) + KeyLine(card.imageKey)
  }

  lemma {:induction false} LowerIdempotent(s: string)
    ensures Lower(Lower(s)) == Lower(s)
  {
  }

  lemma {:induction false} UpperOfLower(s: string)
    ensures Upper(Lower(s)) == Upper(s)
    decreases |s|
  {
    if s != [] {
      UpperOfLower(s[1..]);
      assert Lower(s)[1..] == Lower(s[1..]);
    }
  }

  /**
   * The prompt depends on the type only up to ASCII case and shows it upper-cased; it opens with the
   * fixed opening and ends with the image-key line.
   */
  lemma PromptShape(card: CardParser.Card)
    ensures Prompt(card) == Prompt(card.(cardType := Lower(card.cardType)))
    ensures Contains(Prompt(card), "[카드 타입: " + Upper(card.cardType) + "]")
    ensures Contains(Prompt(card), "제목: \"" + card.head + "\"")
    ensures StartsWith(Prompt(card), Opening)
    ensures var p := Prompt(card); var k := KeyLine(card.imageKey); |k| <= |p| && p[|p| - |k|..] == k
  {
    LowerIdempotent(card.cardType);
    UpperOfLower(card.cardType);
    var h := HeadSection(Background(Lower(card.cardType)), Upper(card.cardType), card.head);
    var b := BodyLine(card.body);
    var k := KeyLine(card.imageKey);
    assert Prompt(card) == h + b + k;
    HeadOpening(Background(Lower(card.cardType)), Upper(card.cardType), card.head);
    ThreePieces(h, b, k, Opening);
    PromptNamesCard(card);
  }

  /** The head section opens with the fixed opening. */
  lemma HeadOpening(background: string, typeName: string, head: string)
    ensures StartsWith(HeadSection(background, typeName, head), Opening)
  {
    var rest := background + "\n\n" + TypeLine(typeName) + "\n" + TitleLine(head) + "\n";
    assert HeadSection(background, typeName, head) == Opening + rest;
    PrefixOfConcat(Opening, rest);
  }

  lemma PrefixOfConcat(a: string, b: string)
    ensures StartsWith(a + b, a)
  {
    assert (a + b)[..|a|] == a;
  }

  /** Three strings put together start as the first does and end with the third. */
  lemma ThreePieces(h: string, b: string, k: string, o: string)
    requires StartsWith(h, o)
    ensures StartsWith(h + b + k, o)
    ensures var p := h + b + k; |k| <= |p| && p[|p| - |k|..] == k
  {
    assert (h + b + k)[..|o|] == h[..|o|];
  }

  /** The prompt holds a body line exactly when the body is non-empty. */
  lemma PromptBody(card: CardParser.Card)
    ensures Prompt(card) == Prompt(card.(body := "")) <==> card.body == ""
    ensures card.body != "" ==>
      var h := HeadSection(Background(Lower(card.cardType)), Upper(Lower(card.cardType)), card.head);
      Prompt(card)[|h|..|h| + |BodyLine(card.body)|] == "본문: \"" + card.body + "\"\n"
  {
    var cardType := Lower(card.cardType);
    var h := HeadSection(Background(cardType), Upper(cardType), card.head);
    var p := Prompt(card);
    assert p == h + BodyLine(card.body) + KeyLine(card.imageKey);
    assert Prompt(card.(body := "")) == h + "" + KeyLine(card.imageKey);
    if card.body != "" {
      assert |p| > |Prompt(card.(body := ""))|;
      assert p[|h|..|h| + |BodyLine(card.body)|] == BodyLine(card.body);
    }
  }

  /** The prompt names the card: it holds the upper-cased type line and the quoted title line. */
  lemma PromptNamesCard(card: CardParser.Card)
    ensures Contains(Prompt(card), "[카드 타입: " + Upper(card.cardType) + "]")
    ensures Contains(Prompt(card), "제목: \"" + card.head + "\"")
  {
    UpperOfLower(card.cardType);
    var tl := TypeLine(Upper(card.cardType));
    var hl := TitleLine(card.head);
    var a := Opening + Background(Lower(card.cardType)) + "\n\n";
    var b := BodyLine(card.body);
    var k := KeyLine(card.imageKey);
    assert Prompt(card) == a + tl + "\n" + hl + "\n" + b + k;
    ContainsEnd(a, tl);
    ContainsAppend(a + tl, tl, "\n");
    ContainsAppend(a + tl + "\n", tl, hl);
    ContainsAppend(a + tl + "\n" + hl, tl, "\n");
    ContainsAppend(a + tl + "\n" + hl + "\n", tl, b);
    ContainsAppend(a + tl + "\n" + hl + "\n" + b, tl, k);
    ContainsEnd(a + tl + "\n", hl);
    ContainsAppend(a + tl + "\n" + hl, hl, "\n");
    ContainsAppend(a + tl + "\n" + hl + "\n", hl, b);
    ContainsAppend(a + tl + "\n" + hl + "\n" + b, hl, k);
  }

  // ---------------------------------------------------------------------------
  // The search query
  // ---------------------------------------------------------------------------

  /** `k.strip()` when it is non-empty. */
  function Keyword(k: string): Option<string> {
    var s := Strip(k);
    if s != "" then Some(s) else None
  }

  /** `[k.strip() for k in image_key.replace(",", " ").split() if k.strip()]`. */
  function Keywords(imageKey: string): seq<string> {
    FilterMap(Tokens(ReplaceAll(imageKey, ",", " ")), Keyword)
  }

  /** The query: the first keyword; else the first word of the stripped key; else nothing. */
  function Query(imageKey: string): string {
    var keywords := Keywords(imageKey);
    if keywords != [] then keywords[0]
    else if Strip(imageKey) != "" then
      TokensEmpty(Strip(imageKey));
      Tokens(Strip(imageKey))[0]
    else ""
  }

  /** The keywords are the words of the key once commas count as spaces. */
  lemma KeywordsAreTokens(imageKey: string)
    ensures Keywords(imageKey) == Tokens(ReplaceAll(imageKey, ",", " "))
  {
    var ts := Tokens(ReplaceAll(imageKey, ",", " "));
    forall i | 0 <= i < |ts| ensures Keyword(ts[i]) == Some(ts[i]) {
      StripStripped(ts[i]);
    }
    FilterMapTotal(ts, Keyword);
  }

  lemma {:induction false} ReplaceSpaceKeepsSpace(s: string)
    requires AllSpace(s)
    ensures AllSpace(ReplaceAll(s, ",", " "))
  {
    ReplaceAllChars(s, ",", " ");
    var r := ReplaceAll(s, ",", " ");
    forall i | 0 <= i < |r| ensures IsSpace(r[i]) {
      assert r[i] in r;
      if r[i] in s {
        var j :| 0 <= j < |s| && s[j] == r[i];
      }
    }
  }

  /**
   * The query is empty exactly when the key is empty or all whitespace; otherwise it is one word
   * (no whitespace in it).
   */
  lemma QuerySpec(imageKey: string)
    ensures Query(imageKey) == "" <==> AllSpace(imageKey)
    ensures NoSpace(Query(imageKey))
  {
    KeywordsAreTokens(imageKey);
    StripEmpty(imageKey);
    if AllSpace(imageKey) {
      ReplaceSpaceKeepsSpace(imageKey);
      TokensEmpty(ReplaceAll(imageKey, ",", " "));
    } else {
      TokensEmpty(Strip(imageKey));
    }
  }

  /** A key of commas only (`",,"`) has no keyword, and the query falls back to the key itself. */
  lemma CommaOnlyQuery(imageKey: string)
    requires imageKey == ",,"
    ensures Keywords(imageKey) == [] && Query(imageKey) == ",,"
  {
    CommasReplaced(imageKey);
    KeywordsAreTokens(imageKey);
    var spaces := "  ";
    assert |spaces| == 2 && spaces[0] == ' ' && spaces[1] == ' ';
    assert AllSpace(spaces);
    TokensEmpty(spaces);
    CommasWord(imageKey);
  }

  /** Both commas of `",,"` become spaces. */
  lemma CommasReplaced(imageKey: string)
    requires imageKey == ",,"
    ensures ReplaceAll(imageKey, ",", " ") == "  "
  {
    var t := imageKey[1..];
    assert imageKey[..1] == "," && t == ",";
    assert t[..1] == "," && t[1..] == "";
    assert ReplaceAll(t, ",", " ") == " " + "";
  }

  /** `",,"` is stripped already, and it is one word. */
  lemma CommasWord(imageKey: string)
    requires imageKey == ",,"
    ensures Strip(imageKey) == imageKey && Tokens(imageKey) == [imageKey]
  {
    assert |imageKey| == 2 && imageKey[0] == ',' && imageKey[1] == ',';
    assert !IsSpace(',');
    assert NoSpace(imageKey);
    StripStripped(imageKey);
    TokensCons(imageKey, "");
    assert imageKey + "" == imageKey;
    TokensEmpty("");
  }

  // ---------------------------------------------------------------------------
  // Downloads and the result of `prepare_card_images`
  // ---------------------------------------------------------------------------

  /** What the download loop keeps of one icon: its name and data, when the data is truthy. */
  function Fetched(download: string -> Option<Bytes>): Icon -> Option<IconFile> {
    (icon: Icon) => var data := download(icon.url); if Truthy(data) then Some(IconFile(Some(icon.name), data)) else None
  }

  /** The downloaded list for a list of search results. */
  function Downloaded(icons: seq<Icon>, download: string -> Option<Bytes>): seq<IconFile> {
    FilterMap(icons, Fetched(download))
  }

  /** The download loop over one list of search results. */
  method DownloadIcons(icons: seq<Icon>, download: string -> Option<Bytes>) returns (files: seq<IconFile>)
    ensures files == Downloaded(icons, download)
  {
    files := [];
    for i := 0 to |icons|
      invariant files == FilterMap(icons[..i], Fetched(download))
    {
      FilterMapStep(icons, i, Fetched(download));
      var svgData := download(icons[i].url);
      if Truthy(svgData) {
        files := files + [IconFile(Some(icons[i].name), svgData)];
      }
    }
    assert icons[..|icons|] == icons;
  }

  /** The dictionary `prepare_card_images` returns. */
  datatype Material = Material(
    prompt: string,
    iconifyIcons: seq<Icon>,
    materialIcons: seq<Icon>,
    iconifyDownloaded: seq<IconFile>,
    materialDownloaded: seq<IconFile>)

  /** `prepare_card_images(card)`: no search for a key without a word, otherwise both searches and their downloads. */
  function Prepared(card: CardParser.Card, search: (string, int) -> SearchResponse, download: string -> Option<Bytes>): Material {
    var prompt := Prompt(card);
    if card.imageKey == "" then Material(prompt, [], [], [], [])
    else
      var query := Query(card.imageKey);
      if query == "" then Material(prompt, [], [], [], [])
      else
        var iconify := IconifyResults(search(query, SearchLimit), SearchLimit);
        var material := MaterialResults(search(MaterialPrefix + query, SearchLimit), SearchLimit);
        Material(prompt, iconify, material, Downloaded(iconify, download), Downloaded(material, download))
  }

  method PrepareCardImages(card: CardParser.Card, search: (string, int) -> SearchResponse, download: string -> Option<Bytes>)
    returns (result: Material)
    ensures result == Prepared(card, search, download)
  {
    var imageKey := card.imageKey;
    if imageKey == "" {
      return Material(Prompt(card), [], [], [], []);
    }
    var searchQuery := Query(imageKey);
    if searchQuery == "" {
      return Material(Prompt(card), [], [], [], []);
    }
    var iconifyResults := SearchIconifyIcons(searchQuery, SearchLimit, search);
    var materialResults := SearchMaterialIcons(searchQuery, SearchLimit, search);
    var iconifyDownloaded := DownloadIcons(iconifyResults, download);
    var materialDownloaded := DownloadIcons(materialResults, download);
    result := Material(Prompt(card), iconifyResults, materialResults, iconifyDownloaded, materialDownloaded);
  }

  /** A downloaded list holds, in order, exactly the icons whose download gave data, each with its name. */
  lemma DownloadedSpec(icons: seq<Icon>, download: string -> Option<Bytes>, f: IconFile)
    ensures f in Downloaded(icons, download) <==>
      exists i :: 0 <= i < |icons| && Truthy(download(icons[i].url)) && f == IconFile(Some(icons[i].name), download(icons[i].url))
    ensures |Downloaded(icons, download)| <= |icons|
  {
    FilterMapMembers(icons, Fetched(download), f);
    FilterMapLength(icons, Fetched(download));
  }

  /**
   * The result of `prepare_card_images`: the prompt is always the card's prompt; a key that is
   * empty or all whitespace gives four empty lists; otherwise each search gives at most three icons
   * and each downloaded list holds at most as many files as its search gave icons.
   */
  lemma PreparedSpec(card: CardParser.Card, search: (string, int) -> SearchResponse, download: string -> Option<Bytes>)
    ensures Prepared(card, search, download).prompt == Prompt(card)
    ensures AllSpace(card.imageKey) ==> Prepared(card, search, download) == Material(Prompt(card), [], [], [], [])
    ensures var m := Prepared(card, search, download);
      && |m.iconifyIcons| <= SearchLimit && |m.materialIcons| <= SearchLimit
      && |m.iconifyDownloaded| <= |m.iconifyIcons| && |m.materialDownloaded| <= |m.materialIcons|
  {
    QuerySpec(card.imageKey);
    var m := Prepared(card, search, download);
    if card.imageKey != "" && Query(card.imageKey) != "" {
      var query := Query(card.imageKey);
      FilterMapLength(Offered(search(query, SearchLimit), SearchLimit), IconifyIcon);
      FilterMapLength(Offered(search(MaterialPrefix + query, SearchLimit), SearchLimit), MaterialIcon);
      FilterMapLength(m.iconifyIcons, Fetched(download));
      FilterMapLength(m.materialIcons, Fetched(download));
    }
  }

  // ---------------------------------------------------------------------------
  // The zip file
  // ---------------------------------------------------------------------------

  /** The entry of a downloaded Iconify icon: `iconify/<name>.svg`, when it has data. */
  function IconifyEntry(file: IconFile): Option<Entry> {
    if Truthy(file.data) then Some(Entry("iconify/" + file.name.GetOr("unknown") + ".svg", file.data.value)) else None
  }

  /** The entry of a downloaded Material icon: `material-icons/<name without the prefix>.svg`, when it has data. */
  function MaterialEntry(file: IconFile): Option<Entry> {
    if Truthy(file.data) then
      Some(Entry("material-icons/" + ReplaceAll(file.name.GetOr("unknown"), MaterialPrefix, "") + ".svg", file.data.value))
    else None
  }

  /** The entries `create_images_zip` writes, in order: the Iconify icons, then the Material icons. */
  function ZipEntries(iconify: seq<IconFile>, material: seq<IconFile>): seq<Entry> {
    FilterMap(iconify, IconifyEntry) + FilterMap(material, MaterialEntry)
  }

  /** The two loops of `create_images_zip`; the compression itself is not modelled. */
  method CreateImagesZip(iconify: seq<IconFile>, material: seq<IconFile>) returns (entries: seq<Entry>)
    ensures entries == ZipEntries(iconify, material)
  {
    entries := [];
    for i := 0 to |iconify|
      invariant entries == FilterMap(iconify[..i], IconifyEntry)
    {
      FilterMapStep(iconify, i, IconifyEntry);
      var name := iconify[i].name.GetOr("unknown");
      var data := iconify[i].data;
      if Truthy(data) {
        entries := entries + [Entry("iconify/" + name + ".svg", data.value)];
      }
    }
    assert iconify[..|iconify|] == iconify;
    var first := entries;
    for i := 0 to |material|
      invariant entries == first + FilterMap(material[..i], MaterialEntry)
    {
      FilterMapStep(material, i, MaterialEntry);
      var name := material[i].name.GetOr("unknown");
      var data := material[i].data;
      if Truthy(data) {
        var cleanName := ReplaceAll(name, MaterialPrefix, "");
        entries := entries + [Entry("material-icons/" + cleanName + ".svg", data.value)];
      }
    }
    assert material[..|material|] == material;
  }

  /**
   * An entry is written exactly for each file with data — from the Iconify list under `iconify/`
   * or from the Material list under `material-icons/` — and never more entries than files.
   */
  lemma ZipEntriesSpec(iconify: seq<IconFile>, material: seq<IconFile>, e: Entry)
    ensures e in ZipEntries(iconify, material) <==>
      (exists i :: 0 <= i < |iconify| && IconifyEntry(iconify[i]) == Some(e))
      || (exists i :: 0 <= i < |material| && MaterialEntry(material[i]) == Some(e))
    ensures |ZipEntries(iconify, material)| <= |iconify| + |material|
  {
    FilterMapMembers(iconify, IconifyEntry, e);
    FilterMapMembers(material, MaterialEntry, e);
    FilterMapLength(iconify, IconifyEntry);
    FilterMapLength(material, MaterialEntry);
  }

  /** A Material name `material-symbols:<m>`, with no further prefix in `m`, is stored as `material-icons/<m>.svg`. */
  lemma MaterialEntryName(m: string, data: Bytes)
    requires data != [] && !Contains(m, MaterialPrefix)
    ensures MaterialEntry(IconFile(Some(MaterialPrefix + m), Some(data))) == Some(Entry("material-icons/" + m + ".svg", data))
  {
    var n := MaterialPrefix + m;
    assert n[..|MaterialPrefix|] == MaterialPrefix && n[|MaterialPrefix|..] == m;
    ReplaceAllAbsent(m, MaterialPrefix, "");
    assert ReplaceAll(n, MaterialPrefix, "") == m;
  }
}
