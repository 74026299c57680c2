/**
 * The Mercado Livre extractor `extractMercadoLivreMetadata`
 * (src/lib/extractors/mercadolivre.ts) and the price match the controller's
 * Mercado Livre branch shares with it.
 */
module MercadoLivreExtractor {
  import opened Options
  import opened Text
  import opened Price
  import opened Urls
  import opened Metadata

  /** The texts and attributes the product page's selectors return. */
  datatype ProductPage = ProductPage(
    title: string,                 // `h1.ui-pdp-title`
    subtitles: string,             // `div.ui-pdp-price__subtitles`
    galleryImage: Option<string>,  // `src` of the gallery image
    priceText: string,             // the first cents-superscript amount
    fraction: string)              // the first `span.andes-money-amount__fraction`

  // ---- the price regex ----

  /** The class `[\d.,]`. */
  predicate IsAmountChar(c: char) {
    IsDigit(c) || c == '.' || c == ','
  }

  /**
   * `text[i..j]` is a match of `R\$\s*([\d.,]*)` at `i` as a backtracking engine
   * reports it: the mark, a white-space run taken as far as it goes, then an amount
   * run taken as far as it goes.
   */
  ghost predicate IsPriceMatch(text: string, i: nat, j: nat) {
    && OccursAt(text, CurrencyMark, i)
    && i + |CurrencyMark| <= j <= |text|
    && (exists k :: SpacesThenAmount(text, i, k, j))
    && (j == |text| || !IsAmountChar(text[j]))
  }

  /** After the mark at `i`: white space up to `k`, not followed by more white space,
      then amount characters on `[k, j)`. */
  predicate SpacesThenAmount(text: string, i: nat, k: nat, j: nat) {
    var from := i + |CurrencyMark|;
    && from <= k <= j <= |text|
    && (forall x :: from <= x < k ==> IsSpace(text[x]))
    && (k == |text| || !IsSpace(text[k]))
    && (forall x :: k <= x < j ==> IsAmountChar(text[x]))
  }

  /** `text.match(/R\$\s*([\d.,]*)/)[0]`: the whole match, at the first currency mark. */
  function MatchPrice(text: string): (m: Option<string>)
    ensures m.Some? <==> Contains(text, CurrencyMark)
    ensures m.Some? ==> StartsWith(m.value, CurrencyMark)
    ensures m.Some? ==>
      var i := IndexOf(text, CurrencyMark).value;
      i + |m.value| <= |text| && text[i..i + |m.value|] == m.value && IsPriceMatch(text, i, i + |m.value|)
  {
    match IndexOf(text, CurrencyMark)
    case None => None
    case Some(i) =>
      var j := GreedyEnd(text, i);
      GreedyMatch(text, i);
      Some(text[i..j])
  }

  /** Where the greedy match starting at `i` ends. */
  function GreedyEnd(text: string, i: nat): (j: nat)
    requires i + |CurrencyMark| <= |text|
    ensures i + |CurrencyMark| <= j <= |text|
  {
    SpanEnd(text, SpanEnd(text, i + |CurrencyMark|, IsSpace), IsAmountChar)
  }

  lemma GreedyMatch(text: string, i: nat)
    requires OccursAt(text, CurrencyMark, i)
    ensures IsPriceMatch(text, i, GreedyEnd(text, i))
    ensures StartsWith(text[i..GreedyEnd(text, i)], CurrencyMark)
  {
    var k := SpanEnd(text, i + |CurrencyMark|, IsSpace);
    var j := GreedyEnd(text, i);
    assert SpacesThenAmount(text, i, k, j);
    assert text[i..j][..|CurrencyMark|] == text[i..i + |CurrencyMark|];
  }

  /** A regex match at a given position ends at one place only. */
  lemma PriceMatchUnique(text: string, i: nat, j1: nat, j2: nat)
    requires IsPriceMatch(text, i, j1) && IsPriceMatch(text, i, j2)
    ensures j1 == j2
  {
    var from := i + |CurrencyMark|;
    var k1 :| SpacesThenAmount(text, i, k1, j1);
    var k2 :| SpacesThenAmount(text, i, k2, j2);
    SpaceRunUnique(text, from, k1, k2);
  }

  lemma SpaceRunUnique(text: string, from: nat, k1: nat, k2: nat)
    requires from <= k1 <= |text| && from <= k2 <= |text|
    requires forall x :: from <= x < k1 ==> IsSpace(text[x])
    requires k1 == |text| || !IsSpace(text[k1])
    requires forall x :: from <= x < k2 ==> IsSpace(text[x])
    requires k2 == |text| || !IsSpace(text[k2])
    ensures k1 == k2
  {
  }

  /** The match the price regex reports is the one at the first currency mark, and
      no other end point is a match there. */
  lemma MatchPriceIsTheMatch(text: string, j: nat)
    requires Contains(text, CurrencyMark)
    requires IsPriceMatch(text, IndexOf(text, CurrencyMark).value, j)
    ensures MatchPrice(text) == Some(text[IndexOf(text, CurrencyMark).value..j])
  {
    var i := IndexOf(text, CurrencyMark).value;
    var m := MatchPrice(text).value;
    PriceMatchUnique(text, i, j, i + |m|);
  }

  // ---- fields ----

  /** `currentPrice`: the normalised regex match of the trimmed price text, if any. */
  function CurrentPrice(priceText: string): (price: Option<string>)
    ensures price.Some? <==> Contains(Trim(priceText), CurrencyMark)
    ensures price.Some? ==> ',' !in price.value
  {
    match MatchPrice(Trim(priceText))
    case Some(m) => Some(FormatPrice(m))
    case None => None
  }

  /** The price is the normalised text of the regex match at the first currency mark. */
  lemma CurrentPriceOfMatch(priceText: string, j: nat)
    requires Contains(Trim(priceText), CurrencyMark)
    requires IsPriceMatch(Trim(priceText), IndexOf(Trim(priceText), CurrencyMark).value, j)
    ensures CurrentPrice(priceText) ==
      Some(FormatPrice(Trim(priceText)[IndexOf(Trim(priceText), CurrencyMark).value..j]))
  {
    MatchPriceIsTheMatch(Trim(priceText), j);
  }

  /** `price-original`: the normalised trimmed text, when it is not empty. */
  function PriceOriginal(text: string): (price: Option<string>)
    ensures price.Some? <==> Trim(text) != ""
    ensures price.Some? ==> ',' !in price.value && price.value == FormatPrice(Trim(text))
  {
    var trimmed := Trim(text);
    if trimmed != "" then Some(FormatPrice(trimmed)) else None
  }

  /**
   * `extractMercadoLivreMetadata`. When `productUrl` is not empty the page is
   * fetched again from it: `refetched` is that page, None when the fetch failed, in
   * which case the source throws reading from the missing document.
   */
  function ExtractMercadoLivre(finalUrl: Url, page: ProductPage, productUrl: string,
                               refetched: Option<ProductPage>): (r: Option<MetadataResult>)
    ensures r.None? <==> productUrl != "" && refetched.None?
    ensures r.Some? ==>
      var p := if productUrl != "" then refetched.value else page;
      && r.value.website == Some("Mercado Livre")
      && r.value.buyLink == Some(Href(finalUrl))
      && r.value.title == Some(Trim(p.title))
      && r.value.conditionPayment == Some(Trim(p.subtitles))
      && r.value.imagePath == p.galleryImage
      && (r.value.currentPrice.Some? <==> Contains(Trim(p.priceText), CurrencyMark))
      && (r.value.priceOriginal.Some? <==> Trim(p.fraction) != "")
      && r.value.currentPrice == CurrentPrice(p.priceText)
      && r.value.priceOriginal == PriceOriginal(p.fraction)
    // no other field is set
    ensures r.Some? ==>
      && r.value.originalPrice.None? && r.value.description.None? && r.value.recurrencePrice.None?
      && r.value.productCode.None? && r.value.breadcrumbs.None? && r.value.productName.None?
      && r.value.image64.None?
  {
    if productUrl != "" && refetched.None? then None
    else
      var p := if productUrl != "" then refetched.value else page;
      Some(NoFields.(
        website := Some("Mercado Livre"),
        title := Some(Trim(p.title)),
        conditionPayment := Some(Trim(p.subtitles)),
        imagePath := p.galleryImage,
        currentPrice := CurrentPrice(p.priceText),
        priceOriginal := PriceOriginal(p.fraction),
        buyLink := Some(Href(finalUrl))))
  }
}
