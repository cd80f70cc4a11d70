/** SEO helpers (src/utils/SEOEnhancer.js): the page checker and its
    score, the breadcrumb item list, the meta-tag set and the sitemap
    entry. A missing page property (`undefined`) is `None`; the empty
    string is present but falsy. */
module Seo {
  import opened Wrappers

  /** A property is truthy when present and not the empty string. */
  predicate Present(o: Option<string>)
  {
    o.Some? && o.value != ""
  }

  // ---------------------------------------------------------------------
  // validateSEO

  datatype PageData = PageData(title: Option<string>, description: Option<string>, keywords: Option<string>, image: Option<string>)

  datatype SeoReport = SeoReport(issues: seq<string>, warnings: seq<string>, score: int)

  const MissingTitle: string := "Missing page title"
  const TitleHint: string := " (recommended: 50-60 characters)"
  const TitleShort: string := "Title is too short" + TitleHint
  const TitleLong: string := "Title is too long" + TitleHint
  const MissingDescription: string := "Missing meta description"
  const DescriptionHint: string := " (recommended: 150-160 characters)"
  const DescriptionShort: string := "Description is too short" + DescriptionHint
  const DescriptionLong: string := "Description is too long" + DescriptionHint
  const MissingKeywords: string := "Missing meta keywords"
  const MissingImage: string := "Missing Open Graph image"

  /** The message for a missing required property. */
  function Required(o: Option<string>, missing: string): seq<string>
  {
    if Present(o) then [] else [missing]
  }

  /** The warning for a property whose length lies outside [lo, hi]. */
  function LengthWarning(o: Option<string>, lo: nat, hi: nat, short: string, long: string): (r: seq<string>)
    ensures |r| <= 1
    ensures |r| == 1 <==> Present(o) && (|o.value| < lo || |o.value| > hi)
  {
    if !Present(o) then []
    else if |o.value| < lo then [short]
    else if |o.value| > hi then [long]
    else []
  }

  function Max(a: int, b: int): int
  {
    if a >= b then a else b
  }

  /** validateSEO: issues for the required title and description,
      warnings for their lengths, for missing keywords and for a missing
      image, and a score that loses 20 per issue and 5 per warning. */
  function ValidateSeo(p: PageData): SeoReport
  {
    var issues := Required(p.title, MissingTitle) + Required(p.description, MissingDescription);
    var warnings := LengthWarning(p.title, 30, 60, TitleShort, TitleLong)
      + LengthWarning(p.description, 120, 160, DescriptionShort, DescriptionLong)
      + Required(p.keywords, MissingKeywords)
      + Required(p.image, MissingImage);
    SeoReport(issues, warnings, Max(0, 100 - |issues| * 20 - |warnings| * 5))
  }

  lemma MessagesDistinct()
    ensures MissingTitle != MissingDescription
  {
    assert MissingTitle[8] == 'p' && MissingDescription[8] == 'm';
  }

  /** Which issues are reported: exactly one per falsy required
      property, title first. */
  lemma SeoIssues(p: PageData)
    ensures |ValidateSeo(p).issues| == (if Present(p.title) then 0 else 1) + (if Present(p.description) then 0 else 1)
    ensures MissingTitle in ValidateSeo(p).issues <==> !Present(p.title)
    ensures MissingDescription in ValidateSeo(p).issues <==> !Present(p.description)
  {
    MessagesDistinct();
  }

  lemma InFour<T>(x: T, a: seq<T>, b: seq<T>, c: seq<T>, d: seq<T>)
    ensures x in a + b + c + d <==> x in a || x in b || x in c || x in d
  {
  }

  lemma WarningTextsDiffer()
    ensures MissingKeywords != TitleShort && MissingKeywords != TitleLong
    ensures MissingKeywords != DescriptionShort && MissingKeywords != DescriptionLong
    ensures MissingImage != TitleShort && MissingImage != TitleLong
    ensures MissingImage != DescriptionShort && MissingImage != DescriptionLong
    ensures MissingKeywords != MissingImage
  {
    assert MissingKeywords[0] == 'M' && MissingImage[0] == 'M';
    assert MissingKeywords[8] == 'm' && MissingImage[8] == 'O';
    assert TitleShort[0] == 'T' && TitleLong[0] == 'T';
    assert DescriptionShort[0] == 'D' && DescriptionLong[0] == 'D';
  }

  /** How many warnings there are: a length warning only for a present
      title or description, and one for each of missing keywords and
      image. */
  lemma SeoWarningCount(p: PageData)
    ensures |ValidateSeo(p).warnings| ==
      (if Present(p.title) && (|p.title.value| < 30 || |p.title.value| > 60) then 1 else 0)
      + (if Present(p.description) && (|p.description.value| < 120 || |p.description.value| > 160) then 1 else 0)
      + (if Present(p.keywords) then 0 else 1)
      + (if Present(p.image) then 0 else 1)
  {
  }

  /** Which warnings: missing keywords and a missing image each have
      theirs; a title warning comes only with a present title, and tells
      short from long. */
  lemma SeoWarnings(p: PageData)
    ensures MissingKeywords in ValidateSeo(p).warnings <==> !Present(p.keywords)
    ensures MissingImage in ValidateSeo(p).warnings <==> !Present(p.image)
    ensures !Present(p.title) ==> TitleShort !in ValidateSeo(p).warnings && TitleLong !in ValidateSeo(p).warnings
    ensures Present(p.title) && |p.title.value| < 30 ==> TitleShort in ValidateSeo(p).warnings
    ensures Present(p.title) && |p.title.value| > 60 ==> TitleLong in ValidateSeo(p).warnings
  {
    var a := LengthWarning(p.title, 30, 60, TitleShort, TitleLong);
    var b := LengthWarning(p.description, 120, 160, DescriptionShort, DescriptionLong);
    var c := Required(p.keywords, MissingKeywords);
    var d := Required(p.image, MissingImage);
    WarningTextsDiffer();
    TitleTextsDiffer();
    InFour(MissingKeywords, a, b, c, d);
    InFour(MissingImage, a, b, c, d);
    InFour(TitleShort, a, b, c, d);
    InFour(TitleLong, a, b, c, d);
  }

  lemma TitleTextsDiffer()
    ensures TitleShort != DescriptionShort && TitleShort != DescriptionLong
    ensures TitleLong != DescriptionShort && TitleLong != DescriptionLong
    ensures TitleShort != TitleLong
  {
    assert TitleShort[0] == 'T' && TitleLong[0] == 'T';
    assert DescriptionShort[0] == 'D' && DescriptionLong[0] == 'D';
    assert TitleShort[13] == 's' && TitleLong[13] == 'l';
  }

  /** The score never reaches the clamp: at worst two issues and the two
      warnings that remain possible, so it lies in [50, 100], is a
      multiple of 5, and is 100 exactly when nothing is reported. */
  lemma SeoScore(p: PageData)
    ensures var r := ValidateSeo(p);
      r.score == 100 - 20 * |r.issues| - 5 * |r.warnings|
      && 50 <= r.score <= 100 && r.score % 5 == 0
      && (r.score == 100 <==> r.issues == [] && r.warnings == [])
  {
  }

  // ---------------------------------------------------------------------
  // generateBreadcrumbSchema: the item list

  datatype Crumb = Crumb(name: string, url: string)

  datatype ListItem = ListItem(position: int, name: string, item: string)

  /** The items for crumbs numbered from `first`. */
  function ItemsFrom(crumbs: seq<Crumb>, first: int): (r: seq<ListItem>)
    ensures |r| == |crumbs|
    decreases |crumbs|
  {
    if crumbs == [] then []
    else [ListItem(first, crumbs[0].name, crumbs[0].url)] + ItemsFrom(crumbs[1..], first + 1)
  }

  /** `itemListElement`: one item per crumb, positions counted from 1. */
  function BreadcrumbItems(crumbs: seq<Crumb>): (r: seq<ListItem>)
    ensures |r| == |crumbs|
  {
    ItemsFrom(crumbs, 1)
  }

  lemma {:induction false} ItemsFromAt(crumbs: seq<Crumb>, first: int)
    ensures forall i :: 0 <= i < |crumbs| ==>
      ItemsFrom(crumbs, first)[i] == ListItem(first + i, crumbs[i].name, crumbs[i].url)
    decreases |crumbs|
  {
    if crumbs != [] {
      ItemsFromAt(crumbs[1..], first + 1);
      forall i | 0 < i < |crumbs|
        ensures ItemsFrom(crumbs, first)[i] == ListItem(first + i, crumbs[i].name, crumbs[i].url)
      {
        assert ItemsFrom(crumbs, first)[i] == ItemsFrom(crumbs[1..], first + 1)[i - 1];
        assert crumbs[1..][i - 1] == crumbs[i];
      }
    }
  }

  /** Positions are 1..n in input order, and name and item are copied
      from each crumb. */
  lemma BreadcrumbPositions(crumbs: seq<Crumb>)
    ensures forall i :: 0 <= i < |crumbs| ==>
      BreadcrumbItems(crumbs)[i] == ListItem(i + 1, crumbs[i].name, crumbs[i].url)
  {
    ItemsFromAt(crumbs, 1);
  }

  /** Reading the crumbs back from the items. */
  function CrumbsOf(items: seq<ListItem>): seq<Crumb>
    decreases |items|
  {
    if items == [] then [] else [Crumb(items[0].name, items[0].item)] + CrumbsOf(items[1..])
  }

  /** Nothing is lost: the crumbs can be read back from the items. */
  lemma {:induction false} CrumbsRoundTrip(crumbs: seq<Crumb>, first: int)
    ensures CrumbsOf(ItemsFrom(crumbs, first)) == crumbs
    decreases |crumbs|
  {
    if crumbs != [] {
      CrumbsRoundTrip(crumbs[1..], first + 1);
      var items := ItemsFrom(crumbs, first);
      assert items[1..] == ItemsFrom(crumbs[1..], first + 1);
      assert crumbs == [crumbs[0]] + crumbs[1..];
    }
  }

  // ---------------------------------------------------------------------
  // generateMetaTags

  /** The input; an absent property takes its default when it has one. */
  datatype MetaInput = MetaInput(
    title: Option<string>, description: Option<string>, keywords: Option<string>,
    image: Option<string>, url: Option<string>, kind: Option<string>,
    locale: Option<string>, siteName: Option<string>)

  datatype OgImage = OgImage(url: string, width: int, height: int, alt: Option<string>)

  datatype OpenGraph = OpenGraph(title: Option<string>, description: Option<string>, url: string,
    kind: string, locale: string, siteName: string, image: OgImage)

  datatype Twitter = Twitter(card: string, title: Option<string>, description: Option<string>, image: string, site: string)

  datatype MetaTag = Named(name: string, content: string) | HttpEquiv(httpEquiv: string, content: string)

  datatype MetaTags = MetaTags(title: Option<string>, description: Option<string>, keywords: Option<string>,
    canonical: string, openGraph: OpenGraph, twitter: Twitter, additional: seq<MetaTag>)

  const DefaultImage: string := "/images/ccb.c0ca0ca63b3fdc15330b.jpg"
  const DefaultUrl: string := "https://ccb.edu.ph"
  const DefaultKind: string := "website"
  const DefaultLocale: string := "en_US"
  const DefaultSiteName: string := "City College of Bayawan"

  /** A destructuring default: it applies only to an absent property. */
  function OrDefault(o: Option<string>, d: string): (r: string)
    ensures o.Some? ==> r == o.value
    ensures o.None? ==> r == d
  {
    if o.Some? then o.value else d
  }

  /** The fixed tags every page gets. */
  const AdditionalTags: seq<MetaTag> := [
    Named("robots", "index, follow"),
    Named("googlebot", "index, follow"),
    Named("author", "City College of Bayawan"),
    Named("language", "English"),
    Named("revisit-after", "7 days"),
    Named("distribution", "global"),
    Named("rating", "general"),
    HttpEquiv("Content-Type", "text/html; charset=UTF-8"),
    HttpEquiv("X-UA-Compatible", "IE=edge")
  ]

  function GenerateMetaTags(p: MetaInput): MetaTags
  {
    var image := OrDefault(p.image, DefaultImage);
    var url := OrDefault(p.url, DefaultUrl);
    MetaTags(p.title, p.description, p.keywords, url,
      OpenGraph(p.title, p.description, url, OrDefault(p.kind, DefaultKind), OrDefault(p.locale, DefaultLocale),
        OrDefault(p.siteName, DefaultSiteName), OgImage(image, 1200, 630, p.title)),
      Twitter("summary_large_image", p.title, p.description, image, "@CCBOfficial"),
      AdditionalTags)
  }

  /** The canonical link, the Open Graph url and the page url agree; the
      Open Graph and Twitter cards repeat the title and description, and
      show the same image, whose alt text is the title; defaults fill the
      absent properties. */
  lemma MetaTagsAgree(p: MetaInput)
    ensures var t := GenerateMetaTags(p);
      t.canonical == t.openGraph.url == OrDefault(p.url, DefaultUrl)
      && t.title == t.openGraph.title == t.twitter.title == p.title
      && t.description == t.openGraph.description == t.twitter.description == p.description
      && t.openGraph.image.url == t.twitter.image == OrDefault(p.image, DefaultImage)
      && t.openGraph.image.alt == p.title
      && t.openGraph.image.width == 1200 && t.openGraph.image.height == 630
      && t.keywords == p.keywords
      && |t.additional| == 9 && t.additional[0] == Named("robots", "index, follow")
  {
  }

  /** With nothing but a title and description, every default shows. */
  lemma MetaTagsDefaults(title: string, description: string)
    ensures var t := GenerateMetaTags(MetaInput(Some(title), Some(description), None, None, None, None, None, None));
      t.canonical == "https://ccb.edu.ph"
      && t.openGraph.kind == "website" && t.openGraph.locale == "en_US"
      && t.openGraph.siteName == "City College of Bayawan"
      && t.twitter.image == "/images/ccb.c0ca0ca63b3fdc15330b.jpg"
  {
  }

  // ---------------------------------------------------------------------
  // generateSitemapEntry

  datatype SitemapEntry = SitemapEntry(url: string, lastmod: string, changefreq: string, priority: real)

  function GenerateSitemapEntry(url: string, lastModified: string, changeFreq: Option<string>, priority: Option<real>): (e: SitemapEntry)
    ensures e.url == url && e.lastmod == lastModified
    ensures changeFreq.None? ==> e.changefreq == "weekly"
    ensures changeFreq.Some? ==> e.changefreq == changeFreq.value
    ensures priority.None? ==> e.priority == 0.8
    ensures priority.Some? ==> e.priority == priority.value
  {
    SitemapEntry(url, lastModified, OrDefault(changeFreq, "weekly"), if priority.Some? then priority.value else 0.8)
  }
}
