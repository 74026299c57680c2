/** The record every extractor returns, and the Open Graph data they are given. */
module Metadata {
  import opened Options
  import opened Breadcrumbs

  /**
   * `MetadataResult` (src/types/index.ts): every field optional; an absent field and
   * one set to `undefined` are the same here. `priceOriginal` is the field the source
   * spells `"price-original"`.
   */
  datatype MetadataResult = MetadataResult(
    website: Option<string>,
    title: Option<string>,
    conditionPayment: Option<string>,
    imagePath: Option<string>,
    currentPrice: Option<string>,
    priceOriginal: Option<string>,
    buyLink: Option<string>,
    originalPrice: Option<string>,
    description: Option<string>,
    recurrencePrice: Option<string>,
    productCode: Option<string>,
    breadcrumbs: Option<Crumbs>,
    productName: Option<string>,
    image64: Option<string>)

  /** The empty result `{}` every extractor starts from. */
  const NoFields := MetadataResult(None, None, None, None, None, None, None,
                                   None, None, None, None, None, None, None)

  /**
   * What open-graph-scraper reports for a page: its plain `title`, `ogTitle`,
   * `ogDescription`, and the URLs of the `ogImage` list in order; `ogImage` is None
   * when the page declares no such list.
   */
  datatype OpenGraph = OpenGraph(
    title: Option<string>,
    ogTitle: Option<string>,
    ogDescription: Option<string>,
    ogImage: Option<seq<string>>)
  {
    /** `ogImage || []`. */
    function Images(): seq<string> {
      ogImage.GetOr([])
    }
  }

  /** How a call to open-graph-scraper ends: it rejects, or it resolves to `{ error, result }`. */
  datatype OgOutcome =
    | OgRejected
    | OgReported(error: bool, result: Option<OpenGraph>)
  {
    /** The controller's `!error && ogsResult`. */
    predicate Usable() {
      OgReported? && !error && result.Some?
    }
  }

  /** `downloadAndConvertToBase64`: the payload of each image URL that downloads;
      a URL missing from the map makes the download throw. */
  type Downloads = map<string, string>

  function Download(downloads: Downloads, url: string): Option<string> {
    if url in downloads then Some(downloads[url]) else None
  }
}
