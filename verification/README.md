# Product metadata extraction, modelled in Dafny

This project models the core of a product-page scraper for Brazilian shops. Given a
product URL, the scraper fetches the page and classifies the final URL as Mercado
Livre, Amazon, Magazine Luiza or a generic site. It then reads the page's fields
into a `MetadataResult`: title, prices, product code, buy link, image and a nested
breadcrumb object. Failed attempts are retried with a one-second pause.

The model keeps the string and list logic around the network calls and replaces
everything else with inputs:

- A parsed page is a record of the texts and attributes the cheerio selectors
  return (`AmazonPage`, `MagaluPage`, `ProductPage`, `ListingPage`).
- An Open Graph scrape is an `OgOutcome`: rejected, or reported with an error flag
  and an optional result.
- Image downloads are a map from URL to base64 payload. A URL missing from the map
  is a download that throws.
- One fetch attempt is an `Attempt`: it raised, or it fetched a body, an optional
  redirect URL, the page, the Open Graph outcome and the downloads.

Modules, one per component of the source:

- `Price`: `formatPrice` (src/lib/utils.ts:9-31; the controller's private copy at
  src/controllers/extractor.controller.ts:30-52 is the same text).
- `Text`: the JavaScript string built-ins the source relies on (`trim` with the
  ECMAScript white-space set, `indexOf`, `includes`, `split`, `join`, `replace`).
  `Options`: the optional type.
- `Breadcrumbs`: the breadcrumb label filter and the nested single-key object
  built from it, both as a recursive datatype and as the source's loop over a
  store of key paths.
- `Urls`: `new URL(u).searchParams.set("tag", t)` and `href`, with the query as
  an ordered list of name/value pairs. `set` follows section 6.2 of the WHATWG
  URL Standard: the first pair with the name takes the value, later pairs with
  that name are removed, and a missing name is appended.
- `Metadata`: `MetadataResult` (src/types/index.ts:1-16), with every field
  optional, and the Open Graph result.
- `AmazonExtractor`, `MagaluExtractor`, `MercadoLivreExtractor`: the three
  extractors in src/lib/extractors/.
- `Controller`: one attempt of `extractMetadata`. This covers classification,
  the four branches and the Open Graph image override.
- `Retry`: the retry loop of `extractMetadata`, as a method over the outcomes
  of successive attempts.

The generic fallback (src/controllers/extractor.controller.ts:347-379) never
assigns `website` or `currentPrice`; both stay unset, as
`Controller.GenericLeavesShopFieldsUnset` states.

## Model

| member | source | states |
|---|---|---|
| Price.FormatPrice | src/lib/utils.ts:9-31 | The normalised price never contains a comma. It is never left in thousands shape, i.e. one dot followed by exactly three characters. |
| Price.StripCurrency | src/lib/utils.ts:11 | Only a leading `R$` and at most one white-space character right after it are removed. The rest of the text is a suffix of the input. A text without the mark is unchanged. |
| Price.KeepsNonSeparators | src/lib/utils.ts:11-25 | Apart from deleting or rewriting `.` and `,`, the normaliser keeps every character after the currency mark, in order. |
| Price.BrazilianPrice | src/lib/utils.ts:11-18 | `R$ ` + dot-grouped digits + `,` + cents normalises to the groups run together + `.` + the cents, for cents that are not three characters long. |
| Price.BrazilianUnits | src/lib/utils.ts:11-17 | `R$ ` + digits + `,` + cents normalises to the digits + `.` + the cents when only the comma is present. |
| Price.BrazilianThousands | src/lib/utils.ts:11-18 | With one thousands dot and a decimal comma, the dot goes and the comma becomes the decimal dot. |
| Price.ExampleBrazilian | src/lib/utils.ts:11-18 | `R$ 1.234,56` normalises to `1234.56`. |
| Price.ExampleComma | src/lib/utils.ts:11-17 | `R$ 19,90` normalises to `19.90`. |
| Price.ExampleThousands | src/lib/utils.ts:20-25 | `1.234` normalises to `1234`. |
| Price.LoneThousandsDot | src/lib/utils.ts:20-25 | A single dot followed by exactly three characters is read as a thousands separator and dropped. |
| Price.FixedPoint | src/lib/utils.ts:9-31 | On a text without the currency mark, the normaliser changes nothing exactly when the text has no comma and is not thousands-shaped. |
| Price.Idempotent | src/lib/utils.ts:9-31 | Normalising twice equals normalising once when the first result does not start with `R$`. |
| Price.CanonicalDecimal | src/lib/utils.ts:13-25 | Digits, a decimal dot and cents that are not three long come back unchanged. |
| Price.ExampleCanonical | src/lib/utils.ts:9-31 | `1234.56` maps to itself. |
| Price.ExampleEmpty | src/lib/utils.ts:9-31 | The empty text maps to the empty text. |
| Breadcrumbs.KeepLabels | src/lib/extractors/amazon.ts:145-151 | Every kept label is non-empty and trimmed. Every anchor text whose trim is non-empty is kept. There are never more labels than anchors. |
| Breadcrumbs.KeepLabelsFromAnchors | src/lib/extractors/amazon.ts:145-151 | The kept labels are exactly the trimmed anchor texts with the empty ones dropped, in page order. |
| Breadcrumbs.KeepLabelsOfAnchors | src/lib/extractors/amazon.ts:145-151 | Every kept label is the trimmed text of some anchor: nothing is invented. |
| Breadcrumbs.KeepLabelsEmpty | src/lib/extractors/amazon.ts:145-151 | No label is kept if and only if every anchor text is blank. |
| Breadcrumbs.KeepLabelsAppend | src/lib/extractors/amazon.ts:145-151 | The filter works anchor by anchor and keeps document order: filtering a concatenation concatenates the filtered parts. |
| Breadcrumbs.KeepLabelsIdempotent | src/lib/extractors/amazon.ts:145-151 | Filtering already-kept labels keeps them all. |
| Breadcrumbs.NestShape | src/lib/extractors/amazon.ts:153-164 | The nested object is `{}` exactly when there are no labels. Otherwise it is a chain with one key per level, the keys are the labels in order, and the title is at the bottom. |
| Breadcrumbs.NestOfChain | src/lib/extractors/amazon.ts:153-164 | Every well-formed chain is the object built from its own keys and bottom value. Building is therefore one-to-one on chains. |
| Breadcrumbs.NestLookup | src/lib/extractors/amazon.ts:153-164 | A key path leads somewhere in the object exactly when it is a prefix of the labels. A proper prefix leads to an object; the full label list leads to the title. |
| Breadcrumbs.BuildNested | src/lib/extractors/magalu.ts:74-85 | The source's loop, with its moving `currentLevel`, creates exactly the key paths that are prefixes of the labels. Each agrees with the recursive object. Every level below the last holds one key, the next label, and the last holds the title. |
| Urls.SetParam | src/lib/extractors/amazon.ts:34-36 | After `searchParams.set`, exactly one pair carries the name and it has the new value. The pairs with other names are unchanged and in order. The pair stays where the name first occurred, or is appended. |
| Urls.TagUrl | src/lib/extractors/amazon.ts:33-37 | The tagged URL keeps the part before the query and the fragment. Its query has exactly one `tag`, with the given value. Every other pair is unchanged. |
| AmazonExtractor.ScanKeeps | src/lib/extractors/amazon.ts:114-128 | When no entry is wider than the running maximum, the scan returns the URL it started with. |
| AmazonExtractor.ScanFinds | src/lib/extractors/amazon.ts:114-128 | When some entry is the widest and exceeds the running maximum, the scan returns that entry's URL. |
| AmazonExtractor.WidestExists | src/lib/extractors/amazon.ts:117-128 | If any entry has a positive numeric first dimension, a widest entry exists: no entry is wider and every earlier entry is strictly narrower. |
| AmazonExtractor.WidestUnique | src/lib/extractors/amazon.ts:123-126 | The widest entry is unique: ties go to the earliest entry, because the comparison is strict. |
| AmazonExtractor.WidestImageSpec | src/lib/extractors/amazon.ts:112-128 | The selected URL is `""` when no entry has a positive numeric first dimension. Otherwise it is the widest entry's URL. Entries whose dimensions are not a non-empty array with a number first never win. |
| AmazonExtractor.ChooseImage | src/lib/extractors/amazon.ts:131-143 | The image is the first Open Graph image unless there is none or it is the placeholder logo. In those cases it is the widest dynamic image. |
| AmazonExtractor.FirstPrice | src/lib/extractors/amazon.ts:67-84 | There is a price exactly when some trimmed offscreen text starts with `R$`. It is the normalised form of the FIRST such text in document order, and holds no comma. |
| AmazonExtractor.StrikePrice | src/lib/extractors/amazon.ts:44-49 | The crossed-out price is set exactly when its untrimmed text is non-empty. It is that text normalised, and holds no comma. |
| AmazonExtractor.RecurrencePrice | src/lib/extractors/amazon.ts:86-95 | The subscribe-and-save price is set exactly when the trimmed text contains `R$`. It is `R$` plus the amount between the first and the next `R$`, normalised, and holds no comma. |
| AmazonExtractor.RecurrenceTextSpec | src/lib/extractors/amazon.ts:86-91 | The text that is normalised is `R$` followed by the text between the first `R$` and the next `R$` or the end. |
| AmazonExtractor.CleanAsin | src/lib/extractors/amazon.ts:97-107 | A code exists exactly when the trimmed ASIN cell is non-empty. It holds only ASCII letters and digits. |
| AmazonExtractor.CleanAsinKeeps | src/lib/extractors/amazon.ts:97-107 | The code is the ASCII letters and digits of the whole cell: trimming first changes nothing. Each letter or digit occurs in the code exactly as often as in the cell, and no other character occurs. |
| AmazonExtractor.CleanAsinOrder | src/lib/extractors/amazon.ts:97-107 | The code keeps the cell's order: cutting the cell at any point cuts the code into the code of the part before and the code of the part after. |
| AmazonExtractor.ConditionPayment | src/lib/extractors/amazon.ts:51-62 | Without the one-time element: the best-offer text. With it and a non-empty best offer: the one-time text, one space, then the best-offer text. With it and an empty best offer: the one-time text alone. |
| AmazonExtractor.AffiliateLink | src/lib/extractors/amazon.ts:25-38 | The buy link stays `""` without a tag. With a tag it is the final URL with `tag` set to it. |
| AmazonExtractor.PageTitle | src/lib/extractors/amazon.ts:22-42 | With no `h1#title` the title is the Open Graph title. Otherwise it is the last heading, trimmed. |
| AmazonExtractor.PageTitleIsLastWrite | src/lib/extractors/amazon.ts:40-42 | The title equals what the `each` loop leaves behind when every heading overwrites it in turn. |
| AmazonExtractor.ExtractAmazon | src/lib/extractors/amazon.ts:10-167 | The extractor fails exactly when Open Graph rejects, reports no result, reports an empty image list, or the image JSON does not parse. Otherwise it sets `website` to `Amazon`, the product name to the Open Graph title, and the buy link with or without the tag. The title is the last heading or the Open Graph title. The image is chosen as `ChooseImage` states. The description is the trimmed feature bullet, and the payment condition and subscribe-and-save price are those of `ConditionPayment` and `RecurrencePrice`. The current price, crossed-out price and code are always set: to the value of `FirstPrice`, `StrikePrice` and `CleanAsin` when there is one, else to `""`. The original price and the image payload are never set. |
| AmazonExtractor.ExtractAmazonBreadcrumbs | src/lib/extractors/amazon.ts:145-164 | The extractor's breadcrumbs are a chain whose keys are the kept labels, with the result's title at the bottom. |
| MagaluExtractor.FindStorefront | src/lib/extractors/magalu.ts:23-26 | This is the leftmost match of the storefront pattern: the prefix followed by at least one character that is not `/`. |
| MagaluExtractor.StoreLinkWithoutSlug | src/lib/extractors/magalu.ts:14-30 | Without a store slug the buy link is the final URL. |
| MagaluExtractor.StoreLinkRetail | src/lib/extractors/magalu.ts:16-21 | With a slug, the first `magazineluiza.com.br` becomes `magazinevoce.com.br/<slug>`. The text before and after it is kept. |
| MagaluExtractor.StoreLinkStorefront | src/lib/extractors/magalu.ts:22-27 | With a slug and no retail host, the leftmost storefront match becomes the reseller base plus the slug. The match runs to the next `/` or the end. The rest of the link is kept. |
| MagaluExtractor.StoreLinkUnmatched | src/lib/extractors/magalu.ts:22-30 | A link with neither the retail host nor a storefront match is kept as it is. |
| MagaluExtractor.CleanCode | src/lib/extractors/magalu.ts:48-57 | A code exists exactly when the trimmed text is non-empty. It holds only digits and `ó`. |
| MagaluExtractor.SplitLabelled | src/lib/extractors/magalu.ts:53 | Pieces without the label, joined with it, split back into the same pieces: an occurrence of `Código` cannot straddle a piece and the label after it. |
| MagaluExtractor.CodeOfPieces | src/lib/extractors/magalu.ts:48-57 | Every `Código` is removed wherever it stands. For a trimmed text made of label-free pieces joined by the label, the code is the digits and `ó`s of the pieces run together. |
| MagaluExtractor.LabelledCode | src/lib/extractors/magalu.ts:51-56 | For `Código` + digits, the code is the digits. The label's own `ó` is removed with the label and does not end up in the code. |
| MagaluExtractor.UnlabelledCode | src/lib/extractors/magalu.ts:51-56 | Without the label, the code is the digits and `ó`s of the trimmed text. |
| MagaluExtractor.ExtractMagalu | src/lib/extractors/magalu.ts:6-87 | `website` is always `Magazine Luiza`. The buy link is the rewritten link. Both prices are always set to the normalised trimmed price text, without commas, so an empty text gives `""`. The image is the thumbnail. The code is `CleanCode` of its text. The description and the payment condition are the trimmed texts. The breadcrumbs are the chain of kept labels with the title at the bottom. |
| MercadoLivreExtractor.MatchPrice | src/lib/extractors/mercadolivre.ts:36 | `R\$\s*([\d.,]*)` matches exactly when the text contains `R$`. The match starts at the first `R$` and runs over the maximal white-space run, then the maximal run of digits, dots and commas. |
| MercadoLivreExtractor.PriceMatchUnique | src/lib/extractors/mercadolivre.ts:36 | At a given start the greedy match has one possible end. |
| MercadoLivreExtractor.MatchPriceIsTheMatch | src/lib/extractors/mercadolivre.ts:36 | Any greedy match at the first `R$` is the one returned. |
| MercadoLivreExtractor.CurrentPrice | src/lib/extractors/mercadolivre.ts:35-39 | The current price is set exactly when the trimmed price text contains `R$`, and holds no comma. |
| MercadoLivreExtractor.CurrentPriceOfMatch | src/lib/extractors/mercadolivre.ts:35-39 | The current price is the normalised text of the whole regex match. |
| MercadoLivreExtractor.PriceOriginal | src/lib/extractors/mercadolivre.ts:40-43 | `price-original` is set exactly when the trimmed fraction text is non-empty, and is that text normalised. |
| MercadoLivreExtractor.ExtractMercadoLivre | src/lib/extractors/mercadolivre.ts:6-46 | `website` is always `Mercado Livre` and the buy link is the final URL. The title, the payment condition and the image are the page's. The prices are those of `CurrentPrice` and `PriceOriginal`. With a product URL, every page field comes from the re-fetched page, and a failed re-fetch fails the extractor. No other field is set: the code, description, crossed-out and subscription prices, product name, breadcrumbs and image payload stay absent. |
| Controller.Classify | src/controllers/extractor.controller.ts:95-347 | A final URL containing `mercadolivre` anywhere goes to Mercado Livre. Amazon requires `amzn` or `amazon`. Magazine Luiza requires `magazineluiza`, `magalu` or `magazinevoce`. |
| Controller.ClassifyFollowsRoutes | src/controllers/extractor.controller.ts:95-347 | Classification is the first route, in source order, with a word the URL contains. The generic branch is taken exactly when no route matches. |
| Controller.ListingBranch | src/controllers/extractor.controller.ts:95-129 | The Mercado Livre branch fails exactly when the image download throws. It sets `website`, the trimmed title and installments, the image and its payload, and the request URL as the buy link. `currentPrice` is that of `CurrentPrice`, set exactly when the price text contains `R$`. `price-original` is that of `PriceOriginal`, set exactly when the old price is non-empty. The code, description, crossed-out and subscription prices, product name and breadcrumbs are never set. |
| Controller.AmazonBranch | src/controllers/extractor.controller.ts:130-266 | The Amazon branch fails exactly when the image JSON does not parse or the widest image's download throws. It sets the buy link only with a tag. The title, both prices, the code and the image are each set exactly when the page has a value for them. The image is the widest dynamic image and the payload is that image's download. Without image data it succeeds with neither image nor payload. The product name and original price are never set. |
| Controller.AmazonBranchFields | src/controllers/extractor.controller.ts:140-214 | Each field the branch sets has the value of the derivation it shares with the extractor. The subscribe-and-save price is set exactly when its trimmed text contains `R$`. |
| Controller.AmazonBranchBreadcrumbs | src/controllers/extractor.controller.ts:245-266 | The branch's breadcrumbs are a chain whose keys are the kept labels, with the title at the bottom. |
| Controller.MagaluBranch | src/controllers/extractor.controller.ts:267-346 | The Magazine Luiza branch is the extractor's result plus the thumbnail's payload, and fails exactly when that download throws. |
| Controller.GenericBranch | src/controllers/extractor.controller.ts:347-379 | The generic branch fails when Open Graph rejects. With a usable result that lists an image, it fails exactly when that image does not download, and otherwise sets it and its payload. In every other case it succeeds without an image. It never sets `website`, either price, the installments, the code, the description, the subscription price, the breadcrumbs or the buy link. Title and product name come from a usable Open Graph result; otherwise no field is set. |
| Controller.OgOverride | src/controllers/extractor.controller.ts:381-411 | For every site but Mercado Livre, a usable first Open Graph image replaces the image and payload and changes nothing else. A rejection or a failed download fails the attempt. Mercado Livre's result is never touched. |
| Controller.ErrorPageFails | src/controllers/extractor.controller.ts:87-89 | A body containing `errors/500` fails the attempt. |
| Controller.ListingKeepsRequestUrl | src/controllers/extractor.controller.ts:128-129 | A Mercado Livre attempt's buy link is the request URL, not the final one, and its image is the listing image. |
| Controller.OgImageDecides | src/controllers/extractor.controller.ts:381-411 | Outside Mercado Livre, a successful attempt with a usable Open Graph image has that image as `imagePath`. |
| Controller.GenericLeavesShopFieldsUnset | src/controllers/extractor.controller.ts:347-379 | A generic attempt never sets `website`, `currentPrice` or the buy link. |
| Retry.FirstSuccess | src/controllers/extractor.controller.ts:77-428 | This is the first attempt in range that yields metadata; every earlier one failed. If none is found, all attempts failed. |
| Retry.FirstSuccessAt | src/controllers/extractor.controller.ts:77-428 | An attempt that succeeds after only failures is the first success. |
| Retry.RetryLoop | src/controllers/extractor.controller.ts:67-433 | The reply holds metadata or an error, never both. With `maxRetries <= 0`: no attempt and the fallback error. When attempt k (from 0) is the first success: k+1 attempts, k pauses and that metadata. When all fail: `maxRetries` attempts, `maxRetries - 1` pauses and the exhausted error. With at least one allowed attempt the fallback error is never returned. |
| Retry.Outcomes | src/controllers/extractor.controller.ts:79-414 | Attempt k's outcome is what one run of the `try` block gives on the k-th fetch. An attempt whose request throws, or whose body contains `errors/500`, yields nothing. |
| Retry.ExtractMetadata | src/controllers/extractor.controller.ts:67-433 | `extractMetadata` satisfies the retry contract over the attempts it makes. |
| Retry.ExtractMetadataDefault | src/routes/extractor.routes.ts:10-14 | The route leaves `maxRetries` at its default of 5 (src/controllers/extractor.controller.ts:71). So there are between one and five attempts, one pause fewer than attempts, and never the fallback error. The reply is the first success among the first five attempts, or the exhausted error. |

## Left out

- HTTP fetching, redirects and the User-Agent header: each attempt is an input (`Attempt`), and the redirect URL is an optional input.
- cheerio and its selectors: each page is a record of the strings and attributes the selectors return.
- `JSON.parse` of `data-a-dynamic-image`: the parsed entries are an input. A parse failure is `Unparsable`, and an empty or missing attribute is `NoImageData`.
- Widths are Dafny reals. JavaScript number formatting, `NaN` and infinities are not modelled.
- `downloadImage` and `downloadAndConvertToBase64` (src/lib/utils.ts:33-79): a download is a lookup in an input map. `downloadImage` is fire-and-forget in the extractors, so it has no effect on their results.
- Open Graph scraping (`extractOG`, the `ogs` calls): an input outcome. The controller's two `ogs` calls for a generic site are one outcome in the model.
- `parseFloat` in `formatPrice`: its result is discarded.
- The `typeof currentPrice === "string"` guard of `formatPrice`: every input is a string in the model.
- `setTimeout`: each one-second wait is counted as a pause, not timed.
- Logging with `console.log` and `console.error`.
- Percent-encoding, host normalisation and the rest of the WHATWG URL parser: a URL is a head, a list of query pairs and a fragment, and `href` is their concatenation.
- `$` replacement patterns in the Magazine Luiza slug: the slug is inserted literally.
- Strings are sequences of code points, whereas JavaScript indexes UTF-16 code units.
- Breadcrumb labels such as `__proto__` that have special meaning for JavaScript objects: a label is an ordinary key.
- `maxRetries` that is not an integer: it is an `int` in the model.
- A response body that is not a string: the body is text.
- `extractAmazonAPI` (the Product Advertising API client), src/lib/extractors/default.ts and src/app.ts: server plumbing and delegation with no string logic of their own. Of src/routes/extractor.routes.ts only the call with the default bound is modelled (`ExtractMetadataDefault`); the Express request and the HTTP 500 reply are not.
- Intermediary and aggregator-page resolution with hop limits: no modelled file implements it.
- MagaluExtractor.CleanCode: its own contract states when the code is set and which characters it holds. The value is stated by `CodeOfPieces`, for a text given as label-free pieces joined by the label.
