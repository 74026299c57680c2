/**
 * The Magazine Luiza extractor `extractMagazineLuizaMetadata`
 * (src/lib/extractors/magalu.ts) and the derivations the controller's Magazine
 * Luiza branch shares with it.
 */
module MagaluExtractor {
  import opened Options
  import opened Text
  import opened Price
  import opened Breadcrumbs
  import opened Urls
  import opened Metadata

  /** The retail host a reseller link replaces. */
  const LuizaHost := "magazineluiza.com.br"
  /** What the first occurrence of the retail host becomes, before the slug. */
  const ResellerHost := "magazinevoce.com.br/"
  /** The start of a storefront link: the reseller site, then `magazine` and the store's name. */
  const StorefrontPrefix := "https://www.magazinevoce.com.br/magazine"
  /** What a storefront link is rewritten to, before the slug. */
  const StorefrontBase := "https://www.magazinevoce.com.br/"
  /** The label in front of the product code. */
  const CodeLabel := "C\U{F3}digo"

  /** The texts and attributes the extractor's selectors return. */
  datatype MagaluPage = MagaluPage(
    title: string,                   // `h1[data-testid="heading-product-title"]`
    price: string,                   // `p[data-testid="price-value"]`
    originalPrice: string,           // `p[data-testid="price-original"]`
    thumbnail: Option<string>,       // `src` of the selected thumbnail
    codeText: string,                // the span containing the code label
    description: string,             // the rich-content container
    installment: string,             // `p[data-testid="installment"]`
    breadcrumbAnchors: seq<string>)  // each breadcrumb anchor's text

  // ---- buy link ----

  predicate NotSlash(c: char) {
    c != '/'
  }

  /** The storefront pattern (the prefix and at least one character that is not `/`) matches at `i`. */
  predicate StorefrontAt(s: string, i: nat) {
    OccursAt(s, StorefrontPrefix, i) && i + |StorefrontPrefix| < |s| && NotSlash(s[i + |StorefrontPrefix|])
  }

  /** The leftmost match of the storefront pattern at or after `from`. */
  function FindStorefront(s: string, from: nat): (r: Option<nat>)
    requires from <= |s|
    ensures r.Some? ==> from <= r.value && StorefrontAt(s, r.value)
    ensures r.Some? ==> forall j: nat :: from <= j < r.value ==> !StorefrontAt(s, j)
    ensures r.None? ==> forall j: nat :: from <= j ==> !StorefrontAt(s, j)
    decreases |s| - from
  {
    if from == |s| then None
    else if StorefrontAt(s, from) then Some(from)
    else FindStorefront(s, from + 1)
  }

  /** The regex replacement of the first storefront link by the reseller's own: the
      match runs from the prefix over every following character up to the next `/`. */
  function RewriteStorefront(s: string, slug: string): string {
    match FindStorefront(s, 0)
    case None => s
    case Some(i) =>
      var end := SpanEnd(s, i + |StorefrontPrefix|, NotSlash);
      s[..i] + StorefrontBase + slug + s[end..]
  }

  /** `buyLink`: the final URL moved onto the reseller's site when a slug is given. */
  function StoreLink(link: string, slug: string): string {
    var modified :=
      if slug == "" then ""
      else if Contains(link, LuizaHost) then ReplaceFirst(link, LuizaHost, ResellerHost + slug)
      else RewriteStorefront(link, slug);
    if modified != "" then modified else link
  }

  /** Without a slug the link is the final URL. */
  lemma StoreLinkWithoutSlug(link: string)
    ensures StoreLink(link, "") == link
  {
  }

  /** A retail link: the first occurrence of the retail host becomes the reseller host
      followed by the slug; the text around it is kept. */
  lemma StoreLinkRetail(link: string, slug: string, i: nat)
    requires slug != ""
    requires OccursAt(link, LuizaHost, i)
    requires forall j: nat :: j < i ==> !OccursAt(link, LuizaHost, j)
    ensures StoreLink(link, slug) == link[..i] + ResellerHost + slug + link[i + |LuizaHost|..]
  {
    assert IndexOf(link, LuizaHost) == Some(i);
    var modified := ReplaceFirst(link, LuizaHost, ResellerHost + slug);
    assert modified == link[..i] + ResellerHost + slug + link[i + |LuizaHost|..];
    assert |modified| >= |ResellerHost| > 0;
  }

  /** A storefront link (no retail host): the leftmost match of the storefront pattern,
      taken up to the next `/` or the end, becomes the reseller's storefront. */
  lemma StoreLinkStorefront(link: string, slug: string, i: nat, end: nat)
    requires slug != "" && !Contains(link, LuizaHost)
    requires StorefrontAt(link, i) && forall j: nat :: j < i ==> !StorefrontAt(link, j)
    requires i + |StorefrontPrefix| < end <= |link|
    requires forall k :: i + |StorefrontPrefix| <= k < end ==> link[k] != '/'
    requires end == |link| || link[end] == '/'
    ensures StoreLink(link, slug) == link[..i] + StorefrontBase + slug + link[end..]
  {
    FirstStorefront(link, i);
    SpanEndUnique(link, i + |StorefrontPrefix|, NotSlash, end);
    var modified := RewriteStorefront(link, slug);
    assert modified == link[..i] + StorefrontBase + slug + link[end..];
    assert |modified| >= |StorefrontBase| > 0;
  }

  lemma FirstStorefront(link: string, i: nat)
    requires StorefrontAt(link, i) && forall j: nat :: j < i ==> !StorefrontAt(link, j)
    ensures FindStorefront(link, 0) == Some(i)
  {
  }

  /** A link with neither the retail host nor a storefront match is kept. */
  lemma StoreLinkUnmatched(link: string, slug: string)
    requires !Contains(link, LuizaHost)
    requires forall j: nat :: !StorefrontAt(link, j)
    ensures StoreLink(link, slug) == link
  {
    if slug != "" {
      assert FindStorefront(link, 0).None?;
    }
  }

  // ---- product code ----

  /** The characters `[^0-9ó]` does not remove. */
  predicate IsCodeChar(c: char) {
    IsDigit(c) || c == '\U{F3}'
  }

  /** The product code: every code label removed, then everything but digits and `ó`;
      None when the trimmed text is empty. */
  function CleanCode(text: string): (code: Option<string>)
    ensures code.Some? <==> Trim(text) != ""
    ensures code.Some? ==> forall i :: 0 <= i < |code.value| ==> IsCodeChar(code.value[i])
  {
    var trimmed := Trim(text);
    if trimmed != "" then Some(Filter(ReplaceAll(trimmed, CodeLabel, ""), IsCodeChar)) else None
  }

  /** The label's first letter occurs nowhere else in it, so no occurrence of the label
      can begin inside label-free text and run on into a label that follows it. */
  lemma LabelAfter(before: string, after: string)
    requires !Contains(before, CodeLabel)
    ensures IndexOf(before + CodeLabel + after, CodeLabel) == Some(|before|)
  {
    var s := before + CodeLabel + after;
    assert s[|before|..|before| + |CodeLabel|] == CodeLabel;
    forall j: nat | j < |before|
      ensures !OccursAt(s, CodeLabel, j)
    {
      if j + |CodeLabel| <= |before| {
        assert s[j..j + |CodeLabel|] == before[j..j + |CodeLabel|];
        assert !OccursAt(before, CodeLabel, j);
      } else {
        NoStraddle(s, j, |before|);
      }
    }
    var k := IndexOf(s, CodeLabel);
    assert OccursAt(s, CodeLabel, |before|);
    assert k.Some? && k.value <= |before|;
  }

  /** An occurrence of the label cannot overlap the start of another one. */
  lemma NoStraddle(s: string, j: nat, at: nat)
    requires OccursAt(s, CodeLabel, at) && j < at < j + |CodeLabel|
    ensures !OccursAt(s, CodeLabel, j)
  {
    var m := at - j;
    assert CodeLabel[m] != 'C';
    if j + |CodeLabel| <= |s| {
      assert s[j..j + |CodeLabel|][m] == s[at] == 'C';
    }
  }

  /** Label-free pieces joined with the label split back into the same pieces. */
  lemma {:induction false} SplitLabelled(pieces: seq<string>)
    requires |pieces| > 0
    requires forall i :: 0 <= i < |pieces| ==> !Contains(pieces[i], CodeLabel)
    ensures Split(Join(pieces, CodeLabel), CodeLabel) == pieces
    decreases |pieces|
  {
    if |pieces| > 1 {
      var first, tail := pieces[0], pieces[1..];
      var rest := Join(tail, CodeLabel);
      var s := first + CodeLabel + rest;
      assert Join(pieces, CodeLabel) == s;
      assert Split(s, CodeLabel) == [first] + Split(rest, CodeLabel) by {
        LabelAfter(first, rest);
        assert s[..|first|] == first;
        assert s[|first| + |CodeLabel|..] == rest;
      }
      SplitLabelled(tail);
      assert pieces == [first] + tail;
    }
  }

  /** Every label is removed wherever it stands: the code of a text whose label-free
      pieces are `pieces` is the digits and `ó`s of those pieces run together. */
  lemma CodeOfPieces(pieces: seq<string>, text: string)
    requires |pieces| > 0
    requires forall i :: 0 <= i < |pieces| ==> !Contains(pieces[i], CodeLabel)
    requires text == Join(pieces, CodeLabel) && text != "" && IsTrimmed(text)
    ensures CleanCode(text) == Some(Filter(Join(pieces, ""), IsCodeChar))
  {
    SplitLabelled(pieces);
  }

  /** A labelled code yields the digits after the label: the label's own `ó` is not kept. */
  lemma LabelledCode(rest: string)
    requires !Contains(rest, CodeLabel)
    requires |rest| == 0 || !IsSpace(rest[|rest| - 1])
    ensures CleanCode(CodeLabel + rest) == Some(Filter(rest, IsCodeChar))
  {
    var text := CodeLabel + rest;
    var pieces := LabelledPieces(rest);
    assert IsTrimmed(text) by { LabelledTrimmed(rest); }
    assert CleanCode(text) == Some(Filter(Join(pieces, ""), IsCodeChar)) by {
      CodeOfPieces(pieces, text);
    }
  }

  lemma LabelledPieces(rest: string) returns (pieces: seq<string>)
    requires !Contains(rest, CodeLabel)
    ensures |pieces| > 0 && forall i :: 0 <= i < |pieces| ==> !Contains(pieces[i], CodeLabel)
    ensures Join(pieces, CodeLabel) == CodeLabel + rest && Join(pieces, "") == rest
  {
    pieces := ["", rest];
    assert pieces[1..] == [rest];
    assert "" + CodeLabel + rest == CodeLabel + rest;
    assert "" + "" + rest == rest;
  }

  lemma LabelledTrimmed(rest: string)
    requires |rest| == 0 || !IsSpace(rest[|rest| - 1])
    ensures IsTrimmed(CodeLabel + rest)
  {
    var text := CodeLabel + rest;
    assert text[0] == 'C';
    if |rest| == 0 {
      assert text[|text| - 1] == 'o';
    } else {
      assert text[|text| - 1] == rest[|rest| - 1];
    }
  }

  /** Without a label the code is the digits and `ó`s of the trimmed text. */
  lemma UnlabelledCode(text: string)
    requires Trim(text) != "" && !Contains(Trim(text), CodeLabel)
    ensures CleanCode(text) == Some(Filter(Trim(text), IsCodeChar))
  {
  }

  // ---- the extractor ----

  /** `extractMagazineLuizaMetadata`; `slug` is the `magazine` argument. */
  function ExtractMagalu(finalUrl: Url, page: MagaluPage, slug: string): (r: MetadataResult)
    ensures r.website == Some("Magazine Luiza")
    ensures r.buyLink == Some(StoreLink(Href(finalUrl), slug))
    ensures r.title == Some(Trim(page.title))
    ensures r.currentPrice.Some? && ',' !in r.currentPrice.value
    ensures r.originalPrice.Some? && ',' !in r.originalPrice.value
    // both prices are always written, so an empty price text gives ""
    ensures r.currentPrice == Some(FormatPrice(Trim(page.price)))
    ensures r.originalPrice == Some(FormatPrice(Trim(page.originalPrice)))
    ensures r.imagePath == page.thumbnail
    ensures r.productCode == CleanCode(page.codeText)
    ensures r.productCode.Some? <==> Trim(page.codeText) != ""
    ensures r.productCode.Some? ==> forall i :: 0 <= i < |r.productCode.value| ==> IsCodeChar(r.productCode.value[i])
    ensures r.description == Some(Trim(page.description))
    ensures r.conditionPayment == Some(Trim(page.installment))
    ensures r.productName.None? && r.priceOriginal.None? && r.recurrencePrice.None? && r.image64.None?
    ensures r.breadcrumbs.Some? && IsChain(r.breadcrumbs.value)
    ensures Labels(r.breadcrumbs.value) == KeepLabels(page.breadcrumbAnchors)
    ensures |KeepLabels(page.breadcrumbAnchors)| > 0 ==> Bottom(r.breadcrumbs.value) == r.title
  {
    var title := Some(Trim(page.title));
    var labels := KeepLabels(page.breadcrumbAnchors);
    NestShape(labels, title);
    NoFields.(
      website := Some("Magazine Luiza"),
      buyLink := Some(StoreLink(Href(finalUrl), slug)),
      title := title,
      currentPrice := Some(FormatPrice(Trim(page.price))),
      originalPrice := Some(FormatPrice(Trim(page.originalPrice))),
      imagePath := page.thumbnail,
      productCode := CleanCode(page.codeText),
      description := Some(Trim(page.description)),
      conditionPayment := Some(Trim(page.installment)),
      breadcrumbs := Some(Nest(labels, title)))
  }
}
