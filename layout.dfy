/** The page frame around every localized page: the path below the locale
    prefix, the language switcher that rebuilds it under another locale, and
    the mobile menu flag. */
module SiteLayout {
  import opened Common
  import opened Languages
  import opened Routing

  /** `currentPath`: the pathname with its first `/${lang}` removed, or `/` when
      nothing is left. */
  function CurrentPath(pathname: string, lang: string): (r: string)
    ensures r != ""
  {
    var stripped := ReplaceFirst(pathname, "/" + lang, "");
    if stripped == "" then "/" else stripped
  }

  /** Where `toggleLanguage(newLang)` goes from `pathname` under the route's `lang`. */
  function SwitchTarget(pathname: string, lang: string, newLang: Language): string
  {
    "/" + Code(newLang) + CurrentPath(pathname, lang)
  }

  /** Below a locale prefix the current path is the rest of the pathname. */
  lemma StripLocalePrefix(lang: string, rest: string)
    requires rest != ""
    ensures CurrentPath("/" + lang + rest, lang) == rest
  {
    var p, prefix := "/" + lang + rest, "/" + lang;
    assert OccursAt(p, prefix, 0);
    ReplaceFirstPlain(p, prefix, "");
    assert p[|prefix|..] == rest;
  }

  /** At a locale root the current path is `/`. */
  lemma LocaleRootPath(lang: string)
    ensures CurrentPath("/" + lang, lang) == "/"
  {
    var p := "/" + lang;
    assert OccursAt(p, p, 0);
    ReplaceFirstPlain(p, p, "");
  }

  /** Switching from a locale root lands on the new locale's root with a trailing `/`. */
  lemma SwitchFromRoot(lang: string, newLang: Language)
    ensures SwitchTarget("/" + lang, lang, newLang) == "/" + Code(newLang) + "/"
  {
    LocaleRootPath(lang);
  }

  /** Switching keeps everything after the locale: `/de/news/42` becomes `/en/news/42`. */
  lemma SwitchKeepsRest(lang: string, rest: string, newLang: Language)
    requires rest != ""
    ensures SwitchTarget("/" + lang + rest, lang, newLang) == "/" + Code(newLang) + rest
  {
    StripLocalePrefix(lang, rest);
  }

  /** Switching to another locale and back restores a path below a locale root. */
  lemma {:induction false} SwitchRoundTrip(lang: Language, rest: string, other: Language)
    requires rest != ""
    ensures SwitchTarget(SwitchTarget("/" + Code(lang) + rest, Code(lang), other), Code(other), lang)
         == "/" + Code(lang) + rest
  {
    SwitchKeepsRest(Code(lang), rest, other);
    SwitchKeepsRest(Code(other), rest, lang);
  }

  /** A trailing `/` after a locale still names the locale's home page. */
  lemma TrailingSlashIsHome(lang: string)
    requires IsSegment(lang)
    ensures MatchRoute("/" + lang + "/") == Localized(lang, Home)
  {
    var parts := ["", lang, ""];
    assert parts[1..] == [lang, ""] && [lang, ""][1..] == [""];
    assert JoinWith([lang, ""], "/") == lang + "/" + "";
    assert JoinWith(parts, "/") == "/" + lang + "/";
    forall k | 0 <= k < |parts| ensures !Includes(parts[k], "/") {
      IncludesChar(parts[k], '/');
    }
    JoinSplit(parts, "/");
    assert parts == [""] + [lang] + [""];
    FilterAppend((seg: string) => seg != "", [""] + [lang], [""]);
    FilterAppend((seg: string) => seg != "", [""], [lang]);
    assert Segments("/" + lang + "/") == [lang];
  }

  /** Switching the language on any page of the site shows the same page under
      the new locale. */
  lemma SwitchKeepsPage(lang: string, page: Page, newLang: Language)
    requires IsSegment(lang) && PathablePage(page)
    ensures MatchRoute(SwitchTarget(PagePath(lang, page), lang, newLang)) == Localized(Code(newLang), page)
  {
    var code := Code(newLang);
    CodeIsSegment(newLang);
    if page == Home {
      assert PagePath(lang, page) == "/" + lang;
      SwitchFromRoot(lang, newLang);
      TrailingSlashIsHome(code);
    } else {
      var rest := "/" + JoinWith(PageSegments(page), "/");
      PagePathBelowLocale(lang, page);
      SwitchKeepsRest(lang, rest, newLang);
      PagePathBelowLocale(code, page);
      MatchPagePath(code, page);
    }
  }

  /** The nav links of the header, in order: home, projects, news, community,
      about, donate. */
  const NavPages := [Home, Projects, NewsList, Community, About, Donate]

  /** The header and mobile menu state, over the shared router. */
  class Layout {
    const router: Router
    var isMobileMenuOpen: bool

    /** The frame mounts with the menu closed. */
    constructor(router: Router)
      ensures this.router == router && !isMobileMenuOpen
    {
      this.router := router;
      isMobileMenuOpen := false;
    }

    /** `toggleLanguage(newLang)`: push the current path under the new locale,
        without the current query string, and close the menu. */
    method ToggleLanguage(lang: string, newLang: Language)
      requires router.Valid()
      modifies this, router
      ensures router.Valid()
      ensures router.history == old(router.history) + [Loc(SwitchTarget(old(router.Location()), lang, newLang), "")]
      ensures router.language == old(router.language)
      ensures !isMobileMenuOpen
    {
      var target := "/" + Code(newLang) + CurrentPath(router.Location(), lang);
      router.Navigate(target, false);
      isMobileMenuOpen := false;
    }

    /** The menu button flips the menu. */
    method ToggleMobileMenu()
      modifies this
      ensures isMobileMenuOpen == !old(isMobileMenuOpen)
    {
      isMobileMenuOpen := !isMobileMenuOpen;
    }

    /** A link of the header or the footer: it navigates to the page under the
        route's locale. Like every router link, a click whose target equals the
        whole current location (pathname and query string) replaces the entry
        instead of pushing a new one; from `/ua/news?page=3` the news link pushes. */
    method FollowNavLink(lang: string, page: Page)
      requires router.Valid()
      modifies router
      ensures router.Valid() && router.Current() == Loc(PagePath(lang, page), "")
      ensures old(router.Current()) == Loc(PagePath(lang, page), "") ==> router.history == old(router.history)
      ensures old(router.Current()) != Loc(PagePath(lang, page), "") ==>
        router.history == old(router.history) + [Loc(PagePath(lang, page), "")]
      ensures router.language == old(router.language)
    {
      var to := PagePath(lang, page);
      router.Navigate(to, router.Current() == Loc(to, ""));
    }

    /** A link of the mobile menu: the same navigation, and the menu closes. */
    method FollowMobileLink(lang: string, page: Page)
      requires router.Valid()
      modifies this, router
      ensures router.Valid() && router.Current() == Loc(PagePath(lang, page), "")
      ensures old(router.Current()) == Loc(PagePath(lang, page), "") ==> router.history == old(router.history)
      ensures old(router.Current()) != Loc(PagePath(lang, page), "") ==>
        router.history == old(router.history) + [Loc(PagePath(lang, page), "")]
      ensures router.language == old(router.language)
      ensures !isMobileMenuOpen
    {
      FollowNavLink(lang, page);
      isMobileMenuOpen := false;
    }
  }

  /** After a language switch from any page, the router settles on the same page
      under the new locale with the new language active, without further
      navigation. */
  method SwitchThenSettle(layout: Layout, lang: string, page: Page, newLang: Language)
    requires layout.router.Valid() && layout.router.Location() == PagePath(lang, page)
    requires IsSegment(lang) && PathablePage(page)
    modifies layout, layout.router
    ensures layout.router.Valid()
    ensures layout.router.Location() == SwitchTarget(PagePath(lang, page), lang, newLang)
    ensures layout.router.language == newLang && !layout.isMobileMenuOpen
  {
    layout.ToggleLanguage(lang, newLang);
    SwitchKeepsPage(lang, page, newLang);
    ParseCode(newLang);
    layout.router.Settle();
  }
}
