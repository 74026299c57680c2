/**
 * The Amazon extractor `extractAmazonMetadata` (src/lib/extractors/amazon.ts) and
 * the field derivations it shares with the controller's Amazon branch.
 */
module AmazonExtractor {
  import opened Options
  import opened Text
  import opened Price
  import opened Breadcrumbs
  import opened Urls
  import opened Metadata

  /** The Open Graph image Amazon serves for pages without a product picture. */
  const PlaceholderLogo := "https://m.media-amazon.com/images/G/32/social_share/amazon_logo._CB633267191_.png"

  /** A parsed JSON value, as far as the widest-image scan looks into it. */
  datatype Json =
    | JNumber(n: real)
    | JString(s: string)
    | JBool(b: bool)
    | JNull
    | JArray(items: seq<Json>)
    | JObject(fields: seq<(string, Json)>)

  /**
   * The `data-a-dynamic-image` attribute: absent or empty; text `JSON.parse` (or
   * `Object.entries` after it) throws on; or the `[url, dimensions]` entries of the
   * parsed value, in `Object.entries` order.
   */
  datatype ImageData = NoImageData | Unparsable | Parsed(entries: seq<ImageEntry>)

  /** One `[url, dimensions]` entry of the parsed `data-a-dynamic-image` map, in `Object.entries` order. */
  datatype ImageEntry = ImageEntry(url: string, dimensions: Json)

  /** The texts and attributes the extractor's selectors return. */
  datatype AmazonPage = AmazonPage(
    titles: seq<string>,                    // each `h1#title`, in document order
    strikePrice: string,                    // first struck-through `.a-offscreen`, untrimmed ("" if none)
    bestOffer: string,                      // `span.best-offer-name`
    oneTimePayment: Option<string>,         // the one-time-payment element's text; None without the element
    featureBullet: string,                  // first `#feature-bullets .a-list-item`
    offscreenPrices: seq<string>,           // every `span.a-offscreen`, in document order
    subscribeAndSave: string,               // first `span#sns-base-price`
    asinCell: string,                       // the cell after the ASIN header
    dynamicImage: ImageData,
    breadcrumbAnchors: seq<string>)         // anchor text of each breadcrumb `li`

  // ---- widest image ----

  /** The first dimension of an entry, when the dimensions are a non-empty array with a numeric head. */
  function Width(e: ImageEntry): Option<real> {
    match e.dimensions
    case JArray(items) => if |items| > 0 && items[0].JNumber? then Some(items[0].n) else None
    case _ => None
  }

  /** The width the scan can select an entry for: its first dimension when positive, else 0. */
  function Score(e: ImageEntry): real {
    match Width(e)
    case Some(w) => if w > 0.0 then w else 0.0
    case None => 0.0
  }

  /** The source's `forEach` over the entries, with its running `maxWidth` and `imageUrl`. */
  function Scan(entries: seq<ImageEntry>, maxWidth: real, url: string): string
    decreases |entries|
  {
    if |entries| == 0 then url
    else
      match Width(entries[0])
      case Some(w) =>
        if w > maxWidth then Scan(entries[1..], w, entries[0].url) else Scan(entries[1..], maxWidth, url)
      case None => Scan(entries[1..], maxWidth, url)
  }

  /** The scan from `maxWidth = 0` and `imageUrl = ""`. */
  function WidestImage(entries: seq<ImageEntry>): string {
    Scan(entries, 0.0, "")
  }

  /** Entry `k` has a positive width no other entry exceeds, and every earlier entry is narrower. */
  predicate IsWidest(entries: seq<ImageEntry>, k: nat) {
    && k < |entries|
    && Score(entries[k]) > 0.0
    && (forall j :: 0 <= j < |entries| ==> Score(entries[j]) <= Score(entries[k]))
    && (forall j :: 0 <= j < k ==> Score(entries[j]) < Score(entries[k]))
  }

  lemma {:induction false} ScanKeeps(entries: seq<ImageEntry>, maxWidth: real, url: string)
    requires maxWidth >= 0.0
    requires forall j :: 0 <= j < |entries| ==> Score(entries[j]) <= maxWidth
    ensures Scan(entries, maxWidth, url) == url
    decreases |entries|
  {
    if |entries| > 0 {
      ScanKeeps(entries[1..], maxWidth, url);
    }
  }

  lemma {:induction false} ScanFinds(entries: seq<ImageEntry>, maxWidth: real, url: string, k: nat)
    requires maxWidth >= 0.0
    requires IsWidest(entries, k) && Score(entries[k]) > maxWidth
    ensures Scan(entries, maxWidth, url) == entries[k].url
    decreases |entries|
  {
    var rest := entries[1..];
    if k == 0 {
      ScanKeeps(rest, Score(entries[0]), entries[0].url);
    } else {
      assert IsWidest(rest, k - 1);
      match Width(entries[0])
      case Some(w) =>
        if w > maxWidth {
          ScanFinds(rest, w, entries[0].url, k - 1);
        } else {
          ScanFinds(rest, maxWidth, url, k - 1);
        }
      case None =>
        ScanFinds(rest, maxWidth, url, k - 1);
    }
  }

  /** Some entry has a positive width, so a widest one exists. */
  lemma {:induction false} WidestExists(entries: seq<ImageEntry>, j: nat) returns (k: nat)
    requires j < |entries| && Score(entries[j]) > 0.0
    ensures IsWidest(entries, k)
    decreases |entries|
  {
    var rest := entries[1..];
    if j > 0 {
      var k' := WidestExists(rest, j - 1);
      k := WidestExtend(entries, k');
    } else if exists i :: 0 <= i < |rest| && Score(rest[i]) > 0.0 {
      var i :| 0 <= i < |rest| && Score(rest[i]) > 0.0;
      var k' := WidestExists(rest, i);
      k := WidestExtend(entries, k');
    } else {
      k := 0;
    }
  }

  /** The widest entry after the first, or the first when it is at least as wide. */
  lemma WidestExtend(entries: seq<ImageEntry>, k': nat) returns (k: nat)
    requires |entries| > 0 && IsWidest(entries[1..], k')
    ensures IsWidest(entries, k)
  {
    var rest := entries[1..];
    if Score(entries[0]) >= Score(rest[k']) {
      k := 0;
    } else {
      k := k' + 1;
      assert forall j :: 1 <= j < |entries| ==> entries[j] == rest[j - 1];
    }
  }

  /** Ties go to the earliest entry, so there is at most one widest entry. */
  lemma WidestUnique(entries: seq<ImageEntry>, a: nat, b: nat)
    requires IsWidest(entries, a) && IsWidest(entries, b)
    ensures a == b
  {
  }

  /**
   * The scan returns the URL of the widest entry (the earliest among equally wide
   * ones), and "" when no entry has a usable positive width.
   */
  lemma WidestImageSpec(entries: seq<ImageEntry>)
    ensures (forall j :: 0 <= j < |entries| ==> Score(entries[j]) == 0.0) ==> WidestImage(entries) == ""
    ensures forall k: nat :: IsWidest(entries, k) ==> WidestImage(entries) == entries[k].url
    ensures (exists j :: 0 <= j < |entries| && Score(entries[j]) > 0.0) ==> exists k: nat :: IsWidest(entries, k)
  {
    if forall j :: 0 <= j < |entries| ==> Score(entries[j]) == 0.0 {
      ScanKeeps(entries, 0.0, "");
    }
    forall k: nat | IsWidest(entries, k)
      ensures WidestImage(entries) == entries[k].url
    {
      ScanFinds(entries, 0.0, "", k);
    }
    if exists j :: 0 <= j < |entries| && Score(entries[j]) > 0.0 {
      var j :| 0 <= j < |entries| && Score(entries[j]) > 0.0;
      var k := WidestExists(entries, j);
    }
  }

  /** The representative image: the first Open Graph image unless it is Amazon's
      placeholder logo, otherwise the widest dynamic image ("" if there is none). */
  function ChooseImage(ogImages: seq<string>, widest: string): (image: string)
    ensures image == widest || (|ogImages| > 0 && image == ogImages[0])
    ensures image == PlaceholderLogo ==> image == widest
    ensures |ogImages| > 0 && ogImages[0] != PlaceholderLogo ==> image == ogImages[0]
  {
    if |ogImages| > 0 && ogImages[0] != PlaceholderLogo then ogImages[0] else widest
  }

  // ---- prices ----

  /** The first of the trimmed offscreen texts that starts with the currency mark. */
  function FirstPriceIndex(texts: seq<string>): (r: Option<nat>)
    ensures r.Some? ==> r.value < |texts| && StartsWith(texts[r.value], CurrencyMark)
    ensures r.Some? ==> forall j :: 0 <= j < r.value ==> !StartsWith(texts[j], CurrencyMark)
    ensures r.None? ==> forall j :: 0 <= j < |texts| ==> !StartsWith(texts[j], CurrencyMark)
    decreases |texts|
  {
    if |texts| == 0 then None
    else if StartsWith(texts[0], CurrencyMark) then Some(0)
    else
      match FirstPriceIndex(texts[1..])
      case None => None
      case Some(i) => Some(i + 1)
  }

  /** Text `i` is the first offscreen text that starts with the currency mark once trimmed. */
  predicate IsFirstPrice(texts: seq<string>, i: nat) {
    && i < |texts|
    && StartsWith(Trim(texts[i]), CurrencyMark)
    && forall j :: 0 <= j < i ==> !StartsWith(Trim(texts[j]), CurrencyMark)
  }

  /** The current price: the first offscreen text that starts with the currency mark
      once trimmed, normalised; None when no text does. */
  function FirstPrice(texts: seq<string>): (price: Option<string>)
    ensures price.Some? <==> exists j :: 0 <= j < |texts| && StartsWith(Trim(texts[j]), CurrencyMark)
    ensures price.Some? ==> ',' !in price.value
    ensures price.Some? ==> exists j :: 0 <= j < |texts| && price.value == FormatPrice(Trim(texts[j]))
    ensures forall i: nat :: IsFirstPrice(texts, i) ==> price == Some(FormatPrice(Trim(texts[i])))
  {
    var trimmed := TrimAll(texts);
    match FirstPriceIndex(trimmed)
    case Some(i) => FirstPriceOnly(texts, i); Some(FormatPrice(trimmed[i]))
    case None => None
  }

  /** The index the search finds is the only first one. */
  lemma FirstPriceOnly(texts: seq<string>, i: nat)
    requires FirstPriceIndex(TrimAll(texts)) == Some(i)
    ensures forall k: nat :: IsFirstPrice(texts, k) ==> k == i
  {
    var trimmed := TrimAll(texts);
    forall k: nat | IsFirstPrice(texts, k)
      ensures k == i
    {
      assert StartsWith(trimmed[i], CurrencyMark) && StartsWith(trimmed[k], CurrencyMark);
    }
  }

  /** The struck-through original price, when its text is not empty. */
  function StrikePrice(text: string): (price: Option<string>)
    ensures price.Some? <==> text != ""
    ensures price.Some? ==> ',' !in price.value && price.value == FormatPrice(text)
  {
    if text != "" then Some(FormatPrice(text)) else None
  }

  /** The text the subscribe-and-save price is read from: the trimmed text split on
      the currency mark, and the mark put back in front of the second piece. */
  function RecurrenceText(text: string): Option<string> {
    var parts := Split(Trim(text), CurrencyMark);
    if |parts| > 1 then Some(CurrencyMark + parts[1]) else None
  }

  /** The subscribe-and-save price: that text, normalised. */
  function RecurrencePrice(text: string): (price: Option<string>)
    ensures price.Some? <==> Contains(Trim(text), CurrencyMark)
    ensures price.Some? ==> ',' !in price.value
    ensures price.Some? ==> price.value == FormatPrice(CurrencyMark + AfterFirstMark(Trim(text)))
  {
    RecurrenceTextSpec(text);
    match RecurrenceText(text)
    case Some(amount) => Some(FormatPrice(amount))
    case None => None
  }

  /** The text between the first and the second currency mark (or the end). */
  function AfterFirstMark(t: string): string
    requires Contains(t, CurrencyMark)
  {
    var rest := t[IndexOf(t, CurrencyMark).value + |CurrencyMark|..];
    match IndexOf(rest, CurrencyMark)
    case None => rest
    case Some(j) => rest[..j]
  }

  /** The recurrence price is read exactly when the text contains the currency mark,
      from the amount that follows the first mark, up to the next mark. */
  lemma RecurrenceTextSpec(text: string)
    ensures RecurrenceText(text).Some? <==> Contains(Trim(text), CurrencyMark)
    ensures Contains(Trim(text), CurrencyMark) ==>
      RecurrenceText(text) == Some(CurrencyMark + AfterFirstMark(Trim(text)))
  {
    var t := Trim(text);
    if Contains(t, CurrencyMark) {
      SecondPiece(t);
    }
  }

  lemma SecondPiece(t: string)
    requires Contains(t, CurrencyMark)
    ensures Split(t, CurrencyMark)[1] == AfterFirstMark(t)
  {
    SplitSecond(t, CurrencyMark);
  }

  // ---- other fields ----

  /** The ASIN cell cleaned to ASCII letters and digits; None when the trimmed cell is empty. */
  function CleanAsin(cell: string): (code: Option<string>)
    ensures code.Some? <==> Trim(cell) != ""
    ensures code.Some? ==> forall i :: 0 <= i < |code.value| ==> IsAsciiAlnum(code.value[i])
  {
    var trimmed := Trim(cell);
    if trimmed != "" then Some(Filter(trimmed, IsAsciiAlnum)) else None
  }

  /**
   * Cleaning keeps the ASCII letters and digits of the whole cell, as often as they
   * occur, and nothing else: trimming drops only white space, which the cleaning
   * drops anyway.
   */
  lemma CleanAsinKeeps(cell: string)
    requires Trim(cell) != ""
    ensures forall i :: 0 <= i < |cell| && IsAsciiAlnum(cell[i]) ==> cell[i] in CleanAsin(cell).value
    ensures CleanAsin(cell).value == Filter(cell, IsAsciiAlnum)
    ensures forall c :: multiset(CleanAsin(cell).value)[c] == if IsAsciiAlnum(c) then multiset(cell)[c] else 0
  {
    var code := CleanAsin(cell).value;
    assert code == Filter(cell, IsAsciiAlnum) by {
      AsinOfWholeCell(cell);
    }
    FilterCounts(cell, IsAsciiAlnum);
  }

  /** The code keeps the cell's order: cutting the cell anywhere cuts the code there,
      into the code of the part before and the code of the part after. */
  lemma CleanAsinOrder(cell: string)
    requires Trim(cell) != ""
    ensures forall k :: 0 <= k <= |cell| ==>
      CleanAsin(cell).value == Filter(cell[..k], IsAsciiAlnum) + Filter(cell[k..], IsAsciiAlnum)
  {
    AsinOfWholeCell(cell);
    FilterSplits(cell, IsAsciiAlnum);
  }

  /** The white space trimming removes holds no letter or digit. */
  lemma AsinOfWholeCell(cell: string)
    ensures Filter(Trim(cell), IsAsciiAlnum) == Filter(cell, IsAsciiAlnum)
  {
    forall c | IsSpace(c)
      ensures !IsAsciiAlnum(c)
    {
    }
    FilterOfTrim(cell, IsAsciiAlnum);
  }

  /**
   * The payment condition: the trimmed best-offer text, preceded by the trimmed
   * one-time-payment text and a space when that element exists; just the one-time
   * text when the best offer is empty.
   */
  function ConditionPayment(bestOffer: string, oneTime: Option<string>): (condition: string)
    ensures oneTime.None? ==> condition == Trim(bestOffer)
    ensures oneTime.Some? ==> StartsWith(condition, Trim(oneTime.value))
    ensures oneTime.Some? && Trim(bestOffer) != "" ==>
      |condition| == |Trim(oneTime.value)| + 1 + |Trim(bestOffer)|
      && condition[|Trim(oneTime.value)|] == ' '
      && condition[|Trim(oneTime.value)| + 1..] == Trim(bestOffer)
    ensures oneTime.Some? && Trim(bestOffer) == "" ==> condition == Trim(oneTime.value)
  {
    var offer := Trim(bestOffer);
    match oneTime
    case None => offer
    case Some(text) =>
      var once := Trim(text);
      if offer != "" then once + " " + offer else once
  }

  /** `buyLink` in the extractor: "" without a tag, else the final URL tagged. */
  function AffiliateLink(finalUrl: Url, tag: string): (link: string)
    ensures tag == "" ==> link == ""
    ensures tag != "" ==> link == Href(TagUrl(finalUrl, tag))
  {
    if tag != "" then Href(TagUrl(finalUrl, tag)) else ""
  }

  /** The title: the last `h1#title` trimmed, else the fallback. */
  function PageTitle(titles: seq<string>, fallback: Option<string>): (title: Option<string>)
    ensures |titles| == 0 ==> title == fallback
    ensures |titles| > 0 ==> title.Some? && IsTrimmed(title.value)
    ensures |titles| > 0 ==> title == Some(Trim(titles[|titles| - 1]))
  {
    if |titles| > 0 then Some(Trim(titles[|titles| - 1])) else fallback
  }

  /** The source's `each` over the headings: each one overwrites the title, which
      starts as `current`, with its trimmed text. */
  function EachTitle(titles: seq<string>, current: Option<string>): Option<string>
    decreases |titles|
  {
    if |titles| == 0 then current else EachTitle(titles[1..], Some(Trim(titles[0])))
  }

  /** The last heading wins: the title is what the `each` loop leaves behind. */
  lemma {:induction false} PageTitleIsLastWrite(titles: seq<string>, fallback: Option<string>)
    ensures PageTitle(titles, fallback) == EachTitle(titles, fallback)
    decreases |titles|
  {
    if |titles| > 1 {
      PageTitleIsLastWrite(titles[1..], Some(Trim(titles[0])));
      assert titles[1..][|titles| - 2] == titles[|titles| - 1];
    }
  }

  /** The widest dynamic image; "" without the attribute. */
  function DynamicImage(data: ImageData): string
    requires !data.Unparsable?
  {
    match data
    case Parsed(entries) => WidestImage(entries)
    case NoImageData => ""
  }

  /**
   * `extractAmazonMetadata`, given the Open Graph outcome for the final URL.
   * None where the source throws: open-graph-scraper rejects or reports no result,
   * the page declares an empty `ogImage` list, or the dynamic-image JSON does not parse.
   */
  function ExtractAmazon(finalUrl: Url, page: AmazonPage, og: OgOutcome, tag: string): (r: Option<MetadataResult>)
    ensures r.None? <==>
      || og.OgRejected? || og.result.None? || og.result.value.ogImage == Some([])
      || page.dynamicImage.Unparsable?
    ensures r.Some? ==>
      && r.value.website == Some("Amazon")
      && r.value.productName == og.result.value.ogTitle
      && (tag == "" ==> r.value.buyLink == Some(""))
      && (tag != "" ==> r.value.buyLink == Some(Href(TagUrl(finalUrl, tag))))
      && r.value.currentPrice.Some? && ',' !in r.value.currentPrice.value
      && r.value.productCode.Some?
      && (forall i :: 0 <= i < |r.value.productCode.value| ==> IsAsciiAlnum(r.value.productCode.value[i]))
      && r.value.description == Some(Trim(page.featureBullet))
      && r.value.conditionPayment == Some(ConditionPayment(page.bestOffer, page.oneTimePayment))
      && r.value.recurrencePrice == RecurrencePrice(page.subscribeAndSave)
      && r.value.priceOriginal.None? && r.value.image64.None?
    // the fields the source first sets to "" keep it when the page has no value for them
    ensures r.Some? ==>
      && r.value.currentPrice == Some(FirstPrice(page.offscreenPrices).GetOr(""))
      && r.value.originalPrice == Some(StrikePrice(page.strikePrice).GetOr(""))
      && r.value.productCode == Some(CleanAsin(page.asinCell).GetOr(""))
      && (|page.titles| > 0 ==> r.value.title == Some(Trim(page.titles[|page.titles| - 1])))
      && (|page.titles| == 0 ==> r.value.title == og.result.value.ogTitle)
    // the image: the first Open Graph image unless it is the placeholder logo, else the widest dynamic image
    ensures r.Some? ==>
      var images := og.result.value.Images();
      && (|images| > 0 && images[0] != PlaceholderLogo ==> r.value.imagePath == Some(images[0]))
      && (|images| == 0 || images[0] == PlaceholderLogo ==> r.value.imagePath == Some(DynamicImage(page.dynamicImage)))
  {
    if og.OgRejected? || og.result.None? || og.result.value.ogImage == Some([])
       || page.dynamicImage.Unparsable? then None
    else
      var graph := og.result.value;
      var title := PageTitle(page.titles, graph.ogTitle);
      Some(NoFields.(
        website := Some("Amazon"),
        title := title,
        productName := graph.ogTitle,
        description := Some(Trim(page.featureBullet)),
        buyLink := Some(AffiliateLink(finalUrl, tag)),
        originalPrice := Some(StrikePrice(page.strikePrice).GetOr("")),
        currentPrice := Some(FirstPrice(page.offscreenPrices).GetOr("")),
        productCode := Some(CleanAsin(page.asinCell).GetOr("")),
        conditionPayment := Some(ConditionPayment(page.bestOffer, page.oneTimePayment)),
        recurrencePrice := RecurrencePrice(page.subscribeAndSave),
        imagePath := Some(ChooseImage(graph.Images(), DynamicImage(page.dynamicImage))),
        breadcrumbs := Some(Nest(KeepLabels(page.breadcrumbAnchors), title))))
  }

  /** The breadcrumbs nest the kept labels, with the title at the bottom. */
  lemma ExtractAmazonBreadcrumbs(finalUrl: Url, page: AmazonPage, og: OgOutcome, tag: string)
    requires ExtractAmazon(finalUrl, page, og, tag).Some?
    ensures var r := ExtractAmazon(finalUrl, page, og, tag).value;
      && r.breadcrumbs.Some? && IsChain(r.breadcrumbs.value)
      && Labels(r.breadcrumbs.value) == KeepLabels(page.breadcrumbAnchors)
      && (|KeepLabels(page.breadcrumbAnchors)| > 0 ==> Bottom(r.breadcrumbs.value) == r.title)
  {
    var r := ExtractAmazon(finalUrl, page, og, tag).value;
    NestShape(KeepLabels(page.breadcrumbAnchors), r.title);
  }
}
