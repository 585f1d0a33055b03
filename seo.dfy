/** The head tags of every page: title, canonical URL, the alternate link of
    each language with the `x-default` link, and the language codes of the
    `hreflang` attribute (ISO 639-1) and of `og:locale` (the Open Graph
    protocol's language_TERRITORY form). */
module Seo {
  import opened Common
  import opened Languages

  const BaseUrl := "https://neusatz.online"
  const TitleSuffix := " | Neusatz"
  const DefaultImage := "https://upload.wikimedia.org/wikipedia/commons/thumb/a/a3/Kosa_Tiligul_Progresivka.jpg/2560px-Kosa_Tiligul_Progresivka.jpg"
  const DefaultType := "website"
  const XDefault := "x-default"

  /** `fullTitle`: the page title followed by the site name. */
  function FullTitle(title: string): (r: string)
    ensures StartsWith(r, title) && EndsWith(r, TitleSuffix) && |r| == |title| + |TitleSuffix|
  {
    title + TitleSuffix
  }

  /** `hreflangMap`: the ISO 639-1 code of a site language. */
  function Hreflang(l: Language): string
  {
    match l
    case UA => "uk"
    case EN => "en"
    case DE => "de"
  }

  /** `localeMap`: the Open Graph locale of a site language. */
  function OgLocale(l: Language): string
  {
    match l
    case UA => "uk_UA"
    case EN => "en_US"
    case DE => "de_DE"
  }

  /** The codes differ between languages, and each locale is its language code,
      an underscore and a territory. */
  lemma LanguageCodes(a: Language, b: Language)
    ensures Hreflang(a) == Hreflang(b) <==> a == b
    ensures OgLocale(a) == OgLocale(b) <==> a == b
    ensures |OgLocale(a)| == 5 && OgLocale(a)[..3] == Hreflang(a) + "_"
    ensures Hreflang(a) != XDefault
  {
  }

  /** The address of a path under a language. */
  function LocalizedUrl(l: Language, path: string): (r: string)
    ensures StartsWith(r, BaseUrl + "/" + Code(l)) && EndsWith(r, path)
    ensures |r| == |BaseUrl| + 1 + |Code(l)| + |path|
  {
    var r := BaseUrl + "/" + Code(l) + path;
    assert r[..|BaseUrl + "/" + Code(l)|] == BaseUrl + "/" + Code(l);
    assert r[|r| - |path|..] == path;
    r
  }

  /** `canonicalUrl`. */
  function CanonicalUrl(l: Language, path: string): string
  {
    LocalizedUrl(l, path)
  }

  /** A `<link rel="alternate">` of the head. */
  datatype AltLink = AltLink(rel: string, hreflang: string, href: string)

  /** `hreflangLinks`: one alternate link per language in the order `ua`, `en`,
      `de`, and then the `x-default` link to the Ukrainian page. */
  function HreflangLinks(path: string): (links: seq<AltLink>)
    ensures |links| == 4
    ensures forall k :: 0 <= k < 3 ==>
      links[k] == AltLink("alternate", Hreflang(AllLanguages[k]), LocalizedUrl(AllLanguages[k], path))
    ensures links[3] == AltLink("alternate", XDefault, BaseUrl + "/ua" + path)
  {
    var perLanguage := seq(|AllLanguages|, k requires 0 <= k < |AllLanguages| =>
      AltLink("alternate", Hreflang(AllLanguages[k]), LocalizedUrl(AllLanguages[k], path)));
    perLanguage + [AltLink("alternate", XDefault, BaseUrl + "/ua" + path)]
  }

  /** The links are keyed by `hreflang`, so those are pairwise distinct; the
      `x-default` link points at the Ukrainian alternate; and the canonical URL
      of every language is among the alternates, under that language's code. */
  lemma HreflangLinksProperties(path: string, l: Language)
    ensures var links := HreflangLinks(path);
      && (forall j, k :: 0 <= j < k < 4 ==> links[j].hreflang != links[k].hreflang)
      && links[3].href == links[0].href
      && (exists k :: 0 <= k < 3 && links[k].href == CanonicalUrl(l, path) && links[k].hreflang == Hreflang(l))
  {
    var links := HreflangLinks(path);
    assert AllLanguages[0] == UA && Code(UA) == "ua";
    assert BaseUrl + "/ua" + path == LocalizedUrl(UA, path);
    var k := if l == UA then 0 else if l == EN then 1 else 2;
    assert AllLanguages[k] == l;
    assert links[k].href == CanonicalUrl(l, path);
  }

  /** The properties a page passes; an omitted image or type is `None`. */
  datatype SeoProps = SeoProps(title: string, description: string, path: string, lang: Language,
                               image: Option<string>, ogType: Option<string>)

  /** The tags the head receives. */
  datatype HeadTags = HeadTags(htmlLang: string, title: string, canonical: string, alternates: seq<AltLink>,
                               ogUrl: string, ogImage: string, ogType: string, ogLocale: string)

  /** The default of an omitted property; a property passed as `""` stays `""`. */
  function OrDefault(value: Option<string>, default: string): (r: string)
    ensures value.None? ==> r == default
    ensures value.Some? ==> r == value.value
  {
    if value.Some? then value.value else default
  }

  /** The head of a page. */
  function Head(props: SeoProps): (h: HeadTags)
    ensures h.htmlLang == Hreflang(props.lang) && h.ogLocale == OgLocale(props.lang)
    ensures h.title == FullTitle(props.title)
    ensures h.canonical == CanonicalUrl(props.lang, props.path) && h.ogUrl == h.canonical
    ensures h.alternates == HreflangLinks(props.path)
    ensures h.ogImage == OrDefault(props.image, DefaultImage) && h.ogType == OrDefault(props.ogType, DefaultType)
  {
    HeadTags(Hreflang(props.lang), FullTitle(props.title), CanonicalUrl(props.lang, props.path),
             HreflangLinks(props.path), CanonicalUrl(props.lang, props.path),
             OrDefault(props.image, DefaultImage), OrDefault(props.ogType, DefaultType), OgLocale(props.lang))
  }

  /** The alternate link in the page's own language points at the canonical URL,
      and the page's `html lang` is its `hreflang`. */
  lemma HeadIsSelfConsistent(props: SeoProps)
    ensures exists k :: 0 <= k < 3 && Head(props).alternates[k].href == Head(props).canonical
                                   && Head(props).alternates[k].hreflang == Head(props).htmlLang
  {
    var l := props.lang;
    var k := if l == UA then 0 else if l == EN then 1 else 2;
    assert AllLanguages[k] == l;
    assert Head(props).alternates[k] == AltLink("alternate", Hreflang(l), LocalizedUrl(l, props.path));
  }
}
