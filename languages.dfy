/** The three display languages of the site and their URL codes. */
module Languages {
  import opened Common

  datatype Language = UA | EN | DE

  /** The path segment that selects a language. */
  function Code(l: Language): string
  {
    match l
    case UA => "ua"
    case EN => "en"
    case DE => "de"
  }

  /** The order in which the language switcher, the alternate links and the
      sitemap enumerate the languages. */
  const AllLanguages: seq<Language> := [UA, EN, DE]

  /** `validLangs.includes(lang)`: the language a path segment names, if any. */
  function ParseLanguage(s: string): (r: Option<Language>)
    ensures r.Some? <==> (s == "ua" || s == "en" || s == "de")
    ensures r.Some? ==> Code(r.value) == s
  {
    if s == "ua" then Some(UA)
    else if s == "en" then Some(EN)
    else if s == "de" then Some(DE)
    else None
  }

  lemma ParseCode(l: Language)
    ensures ParseLanguage(Code(l)) == Some(l)
  {
  }

  /** No language code contains a slash, so a code is always one path segment. */
  lemma CodeIsSegment(l: Language)
    ensures |Code(l)| == 2 && '/' !in Code(l)
  {
  }
}
