/**
 * One attempt of `extractMetadata` (src/controllers/extractor.controller.ts): the
 * site is chosen from the final URL, the branch for that site fills the result, and
 * the Open Graph image overrides the picture for every site but Mercado Livre.
 */
module Controller {
  import opened Options
  import opened Text
  import opened Price
  import opened Breadcrumbs
  import opened Urls
  import opened Metadata
  import opened AmazonExtractor
  import opened MagaluExtractor
  import opened MercadoLivreExtractor

  /** The text whose presence in a response body marks a server-error page. */
  const ErrorMarker := "errors/500"

  datatype Site = MercadoLivre | Amazon | MagazineLuiza | Generic

  /** The branch tests in the order the controller makes them; each is a regex
      alternation of literal words, so it matches where any word occurs. */
  const Routes: seq<(Site, seq<string>)> := [
    (MercadoLivre, ["mercadolivre"]),
    (Amazon, ["amzn", "amazon"]),
    (MagazineLuiza, ["magazineluiza", "magalu", "magazinevoce"])
  ]

  /** One of the words occurs in the URL. */
  predicate MentionsAny(url: string, words: seq<string>)
    decreases |words|
  {
    |words| > 0 && (Contains(url, words[0]) || MentionsAny(url, words[1..]))
  }

  /** The first route one of whose words occurs in the URL; Generic when none does. */
  function Route(routes: seq<(Site, seq<string>)>, url: string): Site
    decreases |routes|
  {
    if |routes| == 0 then Generic
    else if MentionsAny(url, routes[0].1) then routes[0].0
    else Route(routes[1..], url)
  }

  /** The site of a final URL, by unanchored substring tests in the controller's order. */
  function Classify(url: string): (site: Site)
    ensures Contains(url, "mercadolivre") ==> site == MercadoLivre
    ensures site == Amazon ==> Contains(url, "amzn") || Contains(url, "amazon")
    ensures site == MagazineLuiza ==>
      Contains(url, "magazineluiza") || Contains(url, "magalu") || Contains(url, "magazinevoce")
  {
    if Contains(url, "mercadolivre") then MercadoLivre
    else if Contains(url, "amzn") || Contains(url, "amazon") then Amazon
    else if Contains(url, "magazineluiza") || Contains(url, "magalu") || Contains(url, "magazinevoce") then MagazineLuiza
    else Generic
  }

  /** The classification is the first matching route of the priority list, and Generic
      exactly when no route's word occurs. */
  lemma ClassifyFollowsRoutes(url: string)
    ensures Classify(url) == Route(Routes, url)
    ensures Classify(url) == Generic <==> forall i :: 0 <= i < |Routes| ==> !MentionsAny(url, Routes[i].1)
  {
    var r1 := Routes[1..];
    var r2 := r1[1..];
    assert r2[1..] == [];
    assert MentionsAny(url, Routes[0].1) == Contains(url, "mercadolivre");
    assert MentionsAny(url, r1[0].1) == (Contains(url, "amzn") || Contains(url, "amazon"));
    assert MentionsAny(url, r2[0].1) ==
      (Contains(url, "magazineluiza") || Contains(url, "magalu") || Contains(url, "magazinevoce"));
  }

  /** The texts and attributes the Mercado Livre listing selectors return. */
  datatype ListingPage = ListingPage(
    title: string,          // the item title inside the item link
    installments: string,   // the installments-with-interest paragraph
    image: Option<string>,  // `src` of the item image
    priceText: string,      // the first cents-superscript amount
    previousPrice: string)  // the struck previous-value amount

  /** What each branch's selectors would read from the fetched document. */
  datatype Page = Page(listing: ListingPage, amazon: AmazonPage, magalu: MagaluPage)

  /** The arguments of `extractMetadata` other than the retry bound. */
  datatype Request = Request(url: Url, amazonTag: string, magazineSlug: string)

  /**
   * One pass of the loop's `try` block. `Raised` is an attempt whose request itself
   * throws. `Fetched` gives the body, the URL the redirects ended at, the page, the
   * Open Graph outcome for the request URL, and the image downloads.
   */
  datatype Attempt =
    | Raised
    | Fetched(body: string, responseUrl: Option<Url>, page: Page, og: OgOutcome, downloads: Downloads)

  /** The Mercado Livre branch: a store listing; the buy link is the URL as requested.
      None when the image download throws. */
  function ListingBranch(req: Request, p: ListingPage, downloads: Downloads): (r: Option<MetadataResult>)
    ensures r.Some? <==> Download(downloads, p.image.GetOr("")).Some?
    ensures r.Some? ==>
      && r.value.website == Some("Mercado Livre")
      && r.value.buyLink == Some(Href(req.url))
      && r.value.title == Some(Trim(p.title))
      && r.value.conditionPayment == Some(Trim(p.installments))
      && r.value.imagePath == p.image
      && r.value.image64 == Download(downloads, p.image.GetOr(""))
      && (r.value.currentPrice.Some? <==> Contains(Trim(p.priceText), CurrencyMark))
      && (r.value.priceOriginal.Some? <==> Trim(p.previousPrice) != "")
      && r.value.currentPrice == CurrentPrice(p.priceText)
      && r.value.priceOriginal == PriceOriginal(p.previousPrice)
    // no other field is set
    ensures r.Some? ==>
      && r.value.originalPrice.None? && r.value.description.None? && r.value.recurrencePrice.None?
      && r.value.productCode.None? && r.value.breadcrumbs.None? && r.value.productName.None?
  {
    match Download(downloads, p.image.GetOr(""))
    case None => None
    case Some(payload) =>
      Some(NoFields.(
        website := Some("Mercado Livre"),
        title := Some(Trim(p.title)),
        conditionPayment := Some(Trim(p.installments)),
        imagePath := p.image,
        image64 := Some(payload),
        currentPrice := CurrentPrice(p.priceText),
        priceOriginal := PriceOriginal(p.previousPrice),
        buyLink := Some(Href(req.url))))
  }

  /** The Amazon branch. Unlike the Amazon extractor it leaves a field unset where the
      page has no value for it. None when the image JSON does not parse or the image
      download throws. */
  function AmazonBranch(req: Request, finalUrl: Url, p: AmazonPage, downloads: Downloads): (r: Option<MetadataResult>)
    ensures r.None? <==>
      p.dynamicImage.Unparsable? || (p.dynamicImage.Parsed? && Download(downloads, WidestImage(p.dynamicImage.entries)).None?)
    ensures r.Some? ==>
      && r.value.website == Some("Amazon")
      && (req.amazonTag == "" ==> r.value.buyLink.None?)
      && (req.amazonTag != "" ==> r.value.buyLink == Some(Href(TagUrl(finalUrl, req.amazonTag))))
      && (r.value.title.Some? <==> |p.titles| > 0)
      && (r.value.currentPrice.Some? <==> exists j :: 0 <= j < |p.offscreenPrices| && StartsWith(Trim(p.offscreenPrices[j]), CurrencyMark))
      && (r.value.originalPrice.Some? <==> p.strikePrice != "")
      && (r.value.productCode.Some? <==> Trim(p.asinCell) != "")
      && (r.value.imagePath.Some? <==> p.dynamicImage.Parsed?)
      && (p.dynamicImage.Parsed? ==> r.value.imagePath == Some(WidestImage(p.dynamicImage.entries)))
      && r.value.productName.None? && r.value.priceOriginal.None?
    // the payload is the widest image's download; without image data there is neither
    ensures p.dynamicImage.Parsed? && r.Some? ==>
      r.value.image64 == Download(downloads, WidestImage(p.dynamicImage.entries))
    ensures p.dynamicImage.NoImageData? ==> r.Some? && r.value.image64.None? && r.value.imagePath.None?
  {
    var title := PageTitle(p.titles, None);
    var base := NoFields.(
      website := Some("Amazon"),
      buyLink := if req.amazonTag != "" then Some(Href(TagUrl(finalUrl, req.amazonTag))) else None,
      title := title,
      originalPrice := StrikePrice(p.strikePrice),
      conditionPayment := Some(ConditionPayment(p.bestOffer, p.oneTimePayment)),
      description := Some(Trim(p.featureBullet)),
      currentPrice := FirstPrice(p.offscreenPrices),
      recurrencePrice := RecurrencePrice(p.subscribeAndSave),
      productCode := CleanAsin(p.asinCell),
      breadcrumbs := Some(Nest(KeepLabels(p.breadcrumbAnchors), title)));
    match p.dynamicImage
    case NoImageData => Some(base)
    case Unparsable => None
    case Parsed(entries) =>
      var image := WidestImage(entries);
      match Download(downloads, image)
      case None => None
      case Some(payload) => Some(base.(imagePath := Some(image), image64 := Some(payload)))
  }

  /** Each field the Amazon branch sets has the value of the derivation it shares with
      the extractor, where the extractor would write "" instead of leaving it unset. */
  lemma AmazonBranchFields(req: Request, finalUrl: Url, p: AmazonPage, downloads: Downloads)
    requires AmazonBranch(req, finalUrl, p, downloads).Some?
    ensures var r := AmazonBranch(req, finalUrl, p, downloads).value;
      && r.title == PageTitle(p.titles, None)
      && r.currentPrice == FirstPrice(p.offscreenPrices)
      && r.originalPrice == StrikePrice(p.strikePrice)
      && r.recurrencePrice == RecurrencePrice(p.subscribeAndSave)
      && (r.recurrencePrice.Some? <==> Contains(Trim(p.subscribeAndSave), CurrencyMark))
      && r.productCode == CleanAsin(p.asinCell)
      && r.description == Some(Trim(p.featureBullet))
      && r.conditionPayment == Some(ConditionPayment(p.bestOffer, p.oneTimePayment))
  {
  }

  /** The Amazon branch's breadcrumbs nest the kept labels, with the title at the bottom. */
  lemma AmazonBranchBreadcrumbs(req: Request, finalUrl: Url, p: AmazonPage, downloads: Downloads)
    requires AmazonBranch(req, finalUrl, p, downloads).Some?
    ensures var r := AmazonBranch(req, finalUrl, p, downloads).value;
      && r.breadcrumbs.Some? && IsChain(r.breadcrumbs.value)
      && Labels(r.breadcrumbs.value) == KeepLabels(p.breadcrumbAnchors)
      && (|KeepLabels(p.breadcrumbAnchors)| > 0 ==> Bottom(r.breadcrumbs.value) == r.title)
  {
    var r := AmazonBranch(req, finalUrl, p, downloads).value;
    NestShape(KeepLabels(p.breadcrumbAnchors), r.title);
  }

  /** The Magazine Luiza branch: the extractor's fields plus the downloaded thumbnail.
      None when the download throws. */
  function MagaluBranch(req: Request, finalUrl: Url, p: MagaluPage, downloads: Downloads): (r: Option<MetadataResult>)
    ensures r.Some? <==> Download(downloads, p.thumbnail.GetOr("")).Some?
    ensures r.Some? ==>
      r.value == ExtractMagalu(finalUrl, p, req.magazineSlug).(image64 := Download(downloads, p.thumbnail.GetOr("")))
  {
    var fields := ExtractMagalu(finalUrl, p, req.magazineSlug);
    match Download(downloads, fields.imagePath.GetOr(""))
    case None => None
    case Some(payload) => Some(fields.(image64 := Some(payload)))
  }

  /** Any other site: the Open Graph title and first image. None when open-graph-scraper
      rejects or the image download throws. */
  function GenericBranch(og: OgOutcome, downloads: Downloads): (r: Option<MetadataResult>)
    ensures og.OgRejected? ==> r.None?
    // the image is set, with its payload, exactly when a usable result lists one;
    // the branch then fails exactly when that image does not download
    ensures r.Some? ==> (r.value.imagePath.Some? <==> og.Usable() && |og.result.value.Images()| > 0)
    ensures og.Usable() && |og.result.value.Images()| > 0 ==>
      var image := og.result.value.Images()[0];
      && (r.Some? <==> image in downloads)
      && (r.Some? ==> r.value.imagePath == Some(image) && r.value.image64 == Some(downloads[image]))
    ensures og.OgReported? && !(og.Usable() && |og.result.value.Images()| > 0) ==>
      r.Some? && r.value.image64.None?
    ensures r.Some? ==>
      && r.value.website.None? && r.value.currentPrice.None? && r.value.buyLink.None?
      && r.value.conditionPayment.None? && r.value.priceOriginal.None? && r.value.originalPrice.None?
      && r.value.description.None? && r.value.recurrencePrice.None? && r.value.productCode.None?
      && r.value.breadcrumbs.None?
      && (og.Usable() ==> r.value.title == og.result.value.title && r.value.productName == og.result.value.title)
      && (!og.Usable() ==> r.value == NoFields)
  {
    match og
    case OgRejected => None
    case OgReported(_, _) =>
      if !og.Usable() then Some(NoFields)
      else
        var graph := og.result.value;
        var fields := NoFields.(title := graph.title, productName := graph.title);
        var images := graph.Images();
        if |images| == 0 then Some(fields)
        else
          match Download(downloads, images[0])
          case None => None
          case Some(payload) => Some(fields.(imagePath := Some(images[0]), image64 := Some(payload)))
  }

  /** After any branch but Mercado Livre's, the first Open Graph image replaces the
      picture; nothing else changes. None when open-graph-scraper rejects or the
      download throws. */
  function OgOverride(m: MetadataResult, og: OgOutcome, downloads: Downloads): (r: Option<MetadataResult>)
    ensures m.website == Some("Mercado Livre") ==> r == Some(m)
    ensures m.website != Some("Mercado Livre") && og.OgRejected? ==> r.None?
    ensures m.website != Some("Mercado Livre") && !og.OgRejected? && (!og.Usable() || |og.result.value.Images()| == 0) ==> r == Some(m)
    ensures m.website != Some("Mercado Livre") && og.Usable() && |og.result.value.Images()| > 0 ==>
      var image := og.result.value.Images()[0];
      && (r.Some? <==> image in downloads)
      && (r.Some? ==> r.value == m.(imagePath := Some(image), image64 := Some(downloads[image])))
  {
    if m.website == Some("Mercado Livre") then Some(m)
    else if og.OgRejected? then None
    else if !og.Usable() || |og.result.value.Images()| == 0 then Some(m)
    else
      var image := og.result.value.Images()[0];
      match Download(downloads, image)
      case None => None
      case Some(payload) => Some(m.(imagePath := Some(image), image64 := Some(payload)))
  }

  /** The URL the branches see: the one the redirects ended at, else the request URL. */
  function FinalUrl(req: Request, responseUrl: Option<Url>): Url {
    responseUrl.GetOr(req.url)
  }

  /** The branch for the site of the final URL. */
  function RunBranch(req: Request, finalUrl: Url, page: Page, og: OgOutcome, downloads: Downloads): Option<MetadataResult> {
    match Classify(Href(finalUrl))
    case MercadoLivre => ListingBranch(req, page.listing, downloads)
    case Amazon => AmazonBranch(req, finalUrl, page.amazon, downloads)
    case MagazineLuiza => MagaluBranch(req, finalUrl, page.magalu, downloads)
    case Generic => GenericBranch(og, downloads)
  }

  /** One attempt: the metadata, or None when anything in the `try` block throws. */
  function TryOnce(req: Request, attempt: Attempt): Option<MetadataResult> {
    match attempt
    case Raised => None
    case Fetched(body, responseUrl, page, og, downloads) =>
      if Contains(body, ErrorMarker) then None
      else
        var finalUrl := FinalUrl(req, responseUrl);
        match RunBranch(req, finalUrl, page, og, downloads)
        case None => None
        case Some(m) => OgOverride(m, og, downloads)
  }

  /** A server-error page fails the attempt, whatever else it holds. */
  lemma ErrorPageFails(req: Request, attempt: Attempt)
    requires attempt.Fetched? && Contains(attempt.body, ErrorMarker)
    ensures TryOnce(req, attempt).None?
  {
  }

  /** A Mercado Livre listing links to the URL as requested, and its picture is the
      listing's own: the Open Graph image does not replace it. */
  lemma ListingKeepsRequestUrl(req: Request, attempt: Attempt)
    requires attempt.Fetched? && !Contains(attempt.body, ErrorMarker)
    requires Classify(Href(FinalUrl(req, attempt.responseUrl))) == MercadoLivre
    requires TryOnce(req, attempt).Some?
    ensures TryOnce(req, attempt).value.buyLink == Some(Href(req.url))
    ensures TryOnce(req, attempt).value.imagePath == attempt.page.listing.image
  {
  }

  /** For every other site a usable Open Graph image list decides the picture. */
  lemma OgImageDecides(req: Request, attempt: Attempt)
    requires attempt.Fetched? && !Contains(attempt.body, ErrorMarker)
    requires Classify(Href(FinalUrl(req, attempt.responseUrl))) != MercadoLivre
    requires attempt.og.Usable() && |attempt.og.result.value.Images()| > 0
    requires TryOnce(req, attempt).Some?
    ensures TryOnce(req, attempt).value.imagePath == Some(attempt.og.result.value.Images()[0])
  {
    var finalUrl := FinalUrl(req, attempt.responseUrl);
    var m := RunBranch(req, finalUrl, attempt.page, attempt.og, attempt.downloads).value;
    assert m.website != Some("Mercado Livre");
  }

  /** A site none of the branches recognises gets neither a website, a price nor a buy link. */
  lemma GenericLeavesShopFieldsUnset(req: Request, attempt: Attempt)
    requires attempt.Fetched? && !Contains(attempt.body, ErrorMarker)
    requires Classify(Href(FinalUrl(req, attempt.responseUrl))) == Generic
    requires TryOnce(req, attempt).Some?
    ensures var m := TryOnce(req, attempt).value;
      m.website.None? && m.currentPrice.None? && m.buyLink.None?
  {
  }
}
