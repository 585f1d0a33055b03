/** The route table of the application and the locale wrapper around the
    localized pages: `/` and unmatched paths redirect to `/ua`, a `/:lang`
    prefix with a known locale sets the active language, and any other prefix
    redirects to `/ua`, replacing the current history entry. */
module Routing {
  import opened Common
  import opened Languages

  /** The pages nested under `/:lang`. */
  datatype Page = Home | Projects | NewsList | NewsPost(postId: string) | About | Donate | Community

  /** What the route table makes of a pathname. */
  datatype RouteMatch =
    | RootRedirect                           // `/`: redirect to `/ua`
    | Localized(lang: string, page: Page)    // `/:lang/...`: the locale wrapper around a page
    | Fallback                               // `*`: redirect to `/ua`

  /** The target of every redirect. */
  const DefaultPath := "/ua"

  /** A history entry: its pathname and its query string (`""` or `?...`).
      The site never writes a hash, so entries carry none. */
  datatype Loc = Loc(pathname: string, search: string)

  /** The non-empty `/`-separated segments of a pathname. */
  function Segments(path: string): (segs: seq<string>)
    ensures forall k :: 0 <= k < |segs| ==> segs[k] != "" && !Includes(segs[k], "/")
  {
    SplitPiecesHaveNoSeparator(path, "/");
    var segs := Filter((seg: string) => seg != "", SplitOn(path, "/"));
    forall k | 0 <= k < |segs| ensures !Includes(segs[k], "/") {
      assert segs[k] in SplitOn(path, "/");
    }
    segs
  }

  /** The child routes with a fixed path. */
  function StaticPage(name: string): (r: Option<Page>)
    ensures r.Some? ==> r.value != Home && !r.value.NewsPost?
  {
    if name == "projects" then Some(Projects)
    else if name == "news" then Some(NewsList)
    else if name == "about" then Some(About)
    else if name == "donate" then Some(Donate)
    else if name == "community" then Some(Community)
    else None
  }

  /** The route matched by a list of segments. */
  function MatchSegments(segs: seq<string>): (r: RouteMatch)
    ensures r == RootRedirect <==> segs == []
    ensures r.Localized? ==> |segs| >= 1 && r.lang == segs[0] && segs[1..] == PageSegments(r.page)
  {
    if |segs| == 0 then RootRedirect
    else if |segs| == 1 then Localized(segs[0], Home)
    else if |segs| == 2 && StaticPage(segs[1]).Some? then Localized(segs[0], StaticPage(segs[1]).value)
    else if |segs| == 3 && segs[1] == "news" then Localized(segs[0], NewsPost(segs[2]))
    else Fallback
  }

  /** The route of a pathname. */
  function MatchRoute(path: string): RouteMatch
  {
    MatchSegments(Segments(path))
  }

  /** The segments of a page below its locale. */
  function PageSegments(page: Page): seq<string>
  {
    match page
    case Home => []
    case Projects => ["projects"]
    case NewsList => ["news"]
    case NewsPost(id) => ["news", id]
    case About => ["about"]
    case Donate => ["donate"]
    case Community => ["community"]
  }

  /** A string that can stand as one path segment. */
  predicate IsSegment(s: string)
  {
    s != "" && '/' !in s
  }

  /** A page whose route parameter is a single segment. */
  predicate PathablePage(page: Page)
  {
    page.NewsPost? ==> IsSegment(page.postId)
  }

  /** The link to a page under a locale: `/${lang}`, `/${lang}/projects`, ...,
      `/${lang}/news/${postId}`. */
  function PagePath(lang: string, page: Page): string
  {
    "/" + JoinWith([lang] + PageSegments(page), "/")
  }

  /** The pathname of a page under a locale resolves to that page under that
      locale, so every link the site builds lands on the intended route. */
  lemma MatchPagePath(lang: string, page: Page)
    requires IsSegment(lang) && PathablePage(page)
    ensures MatchRoute(PagePath(lang, page)) == Localized(lang, page)
  {
    PagePathSegments(lang, page);
  }

  lemma PagePathSegments(lang: string, page: Page)
    requires IsSegment(lang) && PathablePage(page)
    ensures Segments(PagePath(lang, page)) == [lang] + PageSegments(page)
  {
    var parts := [lang] + PageSegments(page);
    forall k | 0 <= k < |parts| ensures !Includes(parts[k], "/") && parts[k] != "" {
      IncludesChar(parts[k], '/');
    }
    JoinSplit(parts, "/");
    IncludesChar("", '/');
    SplitOnHead("", "/", JoinWith(parts, "/"));
    assert PagePath(lang, page) == "" + "/" + JoinWith(parts, "/");
    FilterAppend((seg: string) => seg != "", [""], parts);
    FilterAllKept((seg: string) => seg != "", parts);
  }

  /** Every page but the home page lies below its locale prefix. */
  lemma PagePathBelowLocale(lang: string, page: Page)
    requires page != Home
    ensures PagePath(lang, page) == "/" + lang + ("/" + JoinWith(PageSegments(page), "/"))
  {
    var ps := PageSegments(page);
    var parts := [lang] + ps;
    assert |ps| >= 1;
    assert |parts| > 1 && parts[0] == lang && parts[1..] == ps;
  }

  /** The redirect target is the home page of `ua`. */
  lemma DefaultPathResolves()
    ensures MatchRoute(DefaultPath) == Localized("ua", Home)
  {
    assert DefaultPath == PagePath("ua", Home);
    MatchPagePath("ua", Home);
  }

  /** The root path redirects. */
  lemma RootRedirects()
    ensures MatchRoute("/") == RootRedirect
  {
    IncludesChar("", '/');
    SplitOnHead("", "/", "");
    assert "/" == "" + "/" + "";
    assert SplitOn("", "/") == [""];
  }

  /** The browser history as the router sees it, and the active language of the
      language context. */
  class Router {
    /** The history entries; the last one is the current location. */
    var history: seq<Loc>
    var language: Language

    predicate Valid()
      reads this
    {
      |history| >= 1
    }

    /** The current location. */
    function Current(): Loc
      reads this
      requires Valid()
    {
      history[|history| - 1]
    }

    /** The current location's pathname. */
    function Location(): string
      reads this
      requires Valid()
    {
      Current().pathname
    }

    /** A fresh page load at `path` with query string `search`, with the
        language context at its default. */
    constructor(path: string, search: string, initial: Language)
      ensures Valid() && history == [Loc(path, search)] && language == initial
    {
      history := [Loc(path, search)];
      language := initial;
    }

    /** `navigate(to, { replace })` to a pathname without a query: a push adds
        an entry, a replace overwrites the current one. */
    method Navigate(to: string, replace: bool)
      requires Valid()
      modifies this
      ensures Valid() && Current() == Loc(to, "") && language == old(language)
      ensures replace ==> history == old(history)[..|old(history)| - 1] + [Loc(to, "")]
      ensures !replace ==> history == old(history) + [Loc(to, "")]
    {
      if replace {
        history := history[..|history| - 1] + [Loc(to, "")];
      } else {
        history := history + [Loc(to, "")];
      }
    }

    /** `setSearchParams(params)`: push the current pathname with the new query string. */
    method SetSearchParams(search: string)
      requires Valid()
      modifies this
      ensures Valid() && Current() == Loc(old(Location()), search) && language == old(language)
      ensures history == old(history) + [Loc(old(Location()), search)]
    {
      history := history + [Loc(Location(), search)];
    }

    /** The effect of the locale wrapper: a known locale becomes the active
        language and nothing navigates; a missing or unknown one replaces the
        location by `/ua` and leaves the language alone. */
    method SyncLanguage(lang: Option<string>)
      requires Valid()
      modifies this
      ensures Valid()
      ensures lang.Some? && ParseLanguage(lang.value).Some? ==>
        language == ParseLanguage(lang.value).value && history == old(history)
      ensures !(lang.Some? && ParseLanguage(lang.value).Some?) ==>
        language == old(language) && history == old(history)[..|old(history)| - 1] + [Loc(DefaultPath, "")]
    {
      if lang.Some? && lang.value != "" && ParseLanguage(lang.value).Some? {
        language := ParseLanguage(lang.value).value;
      } else {
        Navigate(DefaultPath, true);
      }
    }

    /** One render of the route table at the current location: the two
        redirect routes replace the location by `/ua`; a localized route runs
        the locale wrapper's effect with its `:lang` segment. */
    method Resolve() returns (m: RouteMatch)
      requires Valid()
      modifies this
      ensures Valid() && m == MatchRoute(old(Location()))
      ensures m.Localized? && ParseLanguage(m.lang).Some? ==>
        language == ParseLanguage(m.lang).value && history == old(history)
      ensures !(m.Localized? && ParseLanguage(m.lang).Some?) ==>
        language == old(language) && history == old(history)[..|old(history)| - 1] + [Loc(DefaultPath, "")]
    {
      m := MatchRoute(Location());
      match m
      case RootRedirect => Navigate(DefaultPath, true);
      case Fallback => Navigate(DefaultPath, true);
      case Localized(lang, _) => SyncLanguage(Some(lang));
    }

    /** Rendering until nothing navigates takes at most two rounds; afterwards the
        location is a localized route with a known locale, that locale is the
        active language, and the history has not grown. */
    method Settle()
      requires Valid()
      modifies this
      ensures Valid() && |history| == |old(history)|
      ensures MatchRoute(Location()).Localized?
      ensures ParseLanguage(MatchRoute(Location()).lang) == Some(language)
      ensures MatchRoute(old(Location())).Localized? && ParseLanguage(MatchRoute(old(Location())).lang).Some? ==>
        history == old(history)
    {
      ghost var before := history;
      var m := Resolve();
      if m.Localized? && ParseLanguage(m.lang).Some? {
        assert history == before;
      } else {
        assert Location() == DefaultPath && |history| == |before|;
        RenderDefault();
        DefaultPathResolves();
      }
    }

    /** The render after a redirect: `/ua` activates `ua` and nothing navigates. */
    method RenderDefault()
      requires Valid() && Location() == DefaultPath
      modifies this
      ensures Valid() && history == old(history) && language == UA
    {
      DefaultPathResolves();
      var m := Resolve();
      assert m == Localized("ua", Home);
      assert ParseLanguage("ua") == Some(UA);
    }
  }
}
