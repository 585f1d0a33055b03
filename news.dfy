/** The news listing page: the compressed page bar, the listing controller that
    keeps the URL page, the search term and the displayed page consistent, and
    the result texts. */
module News {
  import opened Common
  import opened Posts
  import Routing

  /** Posts per listing page (a 4 x 2 grid). */
  const PostsPerPage := 8
  /** Up to this many pages the bar lists every page. */
  const MaxVisible := 7

  /** One entry of the pagination bar. */
  datatype Marker = Number(n: int) | Ellipsis

  // ---------------------------------------------------------------------------
  // The page bar

  /** The page bar: every page when there are at most seven;
      otherwise page 1, the last page and a window that depends on whether the
      current page is near the start, near the end, or in the middle. */
  function PageMarkers(currentPage: int, totalPages: int): seq<Marker>
  {
    if totalPages <= MaxVisible then seq(Max(totalPages, 0), k => Number(k + 1))
    else if currentPage <= 3 then
      [Number(1), Number(2), Number(3), Number(4), Ellipsis, Number(totalPages)]
    else if currentPage >= totalPages - 2 then
      [Number(1), Ellipsis, Number(totalPages - 3), Number(totalPages - 2), Number(totalPages - 1), Number(totalPages)]
    else
      [Number(1), Ellipsis, Number(currentPage - 1), Number(currentPage), Number(currentPage + 1), Ellipsis, Number(totalPages)]
  }

  /** `getPageNumbers()`: builds the bar entry by entry. */
  method GetPageNumbers(currentPage: int, totalPages: int) returns (pages: seq<Marker>)
    ensures totalPages <= MaxVisible ==> |pages| == Max(totalPages, 0) &&
                                         forall k :: 0 <= k < |pages| ==> pages[k] == Number(k + 1)
    ensures pages == PageMarkers(currentPage, totalPages)
  {
    pages := [];
    if totalPages <= MaxVisible {
      var i := 1;
      while i <= totalPages
        invariant 1 <= i <= Max(totalPages, 0) + 1
        invariant |pages| == i - 1
        invariant forall k :: 0 <= k < |pages| ==> pages[k] == Number(k + 1)
      {
        pages := pages + [Number(i)];
        i := i + 1;
      }
    } else {
      pages := pages + [Number(1)];
      if currentPage <= 3 {
        pages := pages + [Number(2), Number(3), Number(4), Ellipsis, Number(totalPages)];
      } else if currentPage >= totalPages - 2 {
        pages := pages + [Ellipsis, Number(totalPages - 3), Number(totalPages - 2), Number(totalPages - 1), Number(totalPages)];
      } else {
        pages := pages + [Ellipsis, Number(currentPage - 1), Number(currentPage), Number(currentPage + 1), Ellipsis, Number(totalPages)];
      }
    }
  }

  /** With more than seven pages the bar is well formed: it starts at page 1 and
      ends at the last page, every number is a page, the numbers strictly
      increase, no two ellipses touch, and it has at most seven entries. */
  lemma PageMarkersWellFormed(currentPage: int, totalPages: int)
    requires totalPages > MaxVisible
    ensures var m := PageMarkers(currentPage, totalPages);
      && 6 <= |m| <= 7
      && m[0] == Number(1) && m[|m| - 1] == Number(totalPages)
      && (forall k :: 0 <= k < |m| && m[k].Number? ==> 1 <= m[k].n <= totalPages)
      && (forall j, k :: 0 <= j < k < |m| && m[j].Number? && m[k].Number? ==> m[j].n < m[k].n)
      && (forall k :: 0 <= k < |m| - 1 ==> !(m[k].Ellipsis? && m[k + 1].Ellipsis?))
  {
  }

  /** A page in range is always shown, so the current page can be highlighted. */
  lemma CurrentPageShown(currentPage: int, totalPages: int)
    requires 1 <= currentPage <= totalPages
    ensures Number(currentPage) in PageMarkers(currentPage, totalPages)
  {
    var m := PageMarkers(currentPage, totalPages);
    if totalPages <= MaxVisible {
      assert m[currentPage - 1] == Number(currentPage);
    } else if currentPage <= 3 {
      assert m[currentPage - 1] == Number(currentPage);
    } else if currentPage >= totalPages - 2 {
      assert m[currentPage - totalPages + 5] == Number(currentPage);
    } else {
      assert m[3] == Number(currentPage);
    }
  }

  /** An ellipsis stands for at least one page that is not listed. */
  lemma EllipsisHidesPages(currentPage: int, totalPages: int, k: int)
    requires totalPages > MaxVisible
    requires 0 < k < |PageMarkers(currentPage, totalPages)| - 1 && PageMarkers(currentPage, totalPages)[k].Ellipsis?
    ensures PageMarkers(currentPage, totalPages)[k - 1].Number? && PageMarkers(currentPage, totalPages)[k + 1].Number?
    ensures PageMarkers(currentPage, totalPages)[k - 1].n + 1 < PageMarkers(currentPage, totalPages)[k + 1].n
  {
  }

  // ---------------------------------------------------------------------------
  // Result texts

  /** `showingResults` with the first `{count}` and `{total}` filled in. */
  function ResultsCount(showingResults: string, displayed: int, total: int): string
  {
    ReplaceFirst(ReplaceFirst(showingResults, "{count}", IntToString(displayed)), "{total}", IntToString(total))
  }

  /** `formatResultsText()`, as written: the count sentence, followed by a space
      and the query sentence exactly when the raw search term is non-empty. The
      search term is inserted with `replace`, so `$` patterns in it are expanded. */
  function FormatResultsText(showingResults: string, forQuery: string, displayed: int, total: int, searchTerm: string): (r: string)
    ensures searchTerm == "" ==> r == ResultsCount(showingResults, displayed, total)
    ensures searchTerm != "" ==> StartsWith(r, ResultsCount(showingResults, displayed, total) + " ")
    ensures searchTerm != "" ==>
      r[|ResultsCount(showingResults, displayed, total)| + 1..] == ReplaceFirst(forQuery, "{query}", searchTerm)
  {
    var resultsText := ResultsCount(showingResults, displayed, total);
    if searchTerm != "" then resultsText + " " + ReplaceFirst(forQuery, "{query}", searchTerm)
    else resultsText
  }

  /** The counts are inserted verbatim: digits hold no `$`. */
  lemma ResultsCountIsLiteral(showingResults: string, displayed: int, total: int)
    ensures ResultsCount(showingResults, displayed, total)
         == ReplaceFirstLiteral(ReplaceFirstLiteral(showingResults, "{count}", IntToString(displayed)), "{total}", IntToString(total))
  {
    IntToStringNoDollar(displayed);
    IntToStringNoDollar(total);
    ReplaceFirstPlain(showingResults, "{count}", IntToString(displayed));
    ReplaceFirstPlain(ReplaceFirst(showingResults, "{count}", IntToString(displayed)), "{total}", IntToString(total));
  }

  /** The English query sentence. */
  const ForQueryEn := "for \"{query}\""

  /** The placeholder of the English query sentence is at index 5. */
  lemma QueryPlaceholderAt()
    ensures IndexOf(ForQueryEn, "{query}") == 5
  {
    var s, t := ForQueryEn, "{query}";
    assert s[5..12] == t;
    assert IndexFrom(s, t, 5) == 5;
    assert s[4] != '{' && s[4..11][0] == s[4];
    assert IndexFrom(s, t, 4) == 5;
    assert s[3] != '{' && s[3..10][0] == s[3];
    assert IndexFrom(s, t, 3) == 5;
    assert s[2] != '{' && s[2..9][0] == s[2];
    assert IndexFrom(s, t, 2) == 5;
    assert s[1] != '{' && s[1..8][0] == s[1];
    assert IndexFrom(s, t, 1) == 5;
    assert s[0] != '{' && s[0..7][0] == s[0];
  }

  /** A search for `$&` shows the placeholder itself instead of the typed term:
      `replace` expands `$&` to the matched `{query}`, so the query sentence
      comes out unchanged. */
  lemma QueryDollarPatternShowsPlaceholder()
    ensures ReplaceFirst(ForQueryEn, "{query}", "$&") == ForQueryEn
    ensures FormatResultsText("Showing {count} of {total} results", ForQueryEn, 0, 0, "$&")
         == ResultsCount("Showing {count} of {total} results", 0, 0) + " " + ForQueryEn
  {
    QueryPlaceholderAt();
    var s := ForQueryEn;
    assert ExpandReplacement("$&", "{query}", s[..5], s[12..]) == "{query}" + ExpandReplacement("", "{query}", s[..5], s[12..]);
    assert s[..5] + "{query}" + s[12..] == s;
  }

  /** The intended formatting shows the same search verbatim. */
  lemma QueryDollarPatternIntended()
    ensures ReplaceFirstLiteral(ForQueryEn, "{query}", "$&") == "for \"$&\""
  {
    QueryPlaceholderAt();
  }

  /** `formatResultsText()` as intended: the search term is shown verbatim. */
  function FormatResultsTextIntended(showingResults: string, forQuery: string, displayed: int, total: int, searchTerm: string): (r: string)
    ensures searchTerm == "" ==> r == ResultsCount(showingResults, displayed, total)
    ensures searchTerm != "" ==> r == ResultsCount(showingResults, displayed, total) + " " + ReplaceFirstLiteral(forQuery, "{query}", searchTerm)
  {
    var resultsText := ResultsCount(showingResults, displayed, total);
    if searchTerm != "" then resultsText + " " + ReplaceFirstLiteral(forQuery, "{query}", searchTerm)
    else resultsText
  }

  /** With the intended formatting a query sentence that has a placeholder shows
      the search term exactly where the placeholder was. */
  lemma IntendedQueryShowsTerm(forQuery: string, searchTerm: string)
    requires Includes(forQuery, "{query}")
    ensures var i := IndexOf(forQuery, "{query}");
            var q := ReplaceFirstLiteral(forQuery, "{query}", searchTerm);
            q[..i] == forQuery[..i] && q[i..i + |searchTerm|] == searchTerm
  {
  }

  /** Both agree whenever the term holds no `$`. */
  lemma FormattingAgreesWithoutDollar(showingResults: string, forQuery: string, displayed: int, total: int, searchTerm: string)
    requires NoDollar(searchTerm)
    ensures FormatResultsText(showingResults, forQuery, displayed, total, searchTerm)
         == FormatResultsTextIntended(showingResults, forQuery, displayed, total, searchTerm)
  {
    ReplaceFirstPlain(forQuery, "{query}", searchTerm);
  }

  /** `formatPageOf()`: `pageOf` with the first `{current}` and `{total}` filled in. */
  function FormatPageOf(pageOf: string, currentPage: int, totalPages: int): (r: string)
    ensures r == ReplaceFirstLiteral(ReplaceFirstLiteral(pageOf, "{current}", IntToString(currentPage)), "{total}", IntToString(totalPages))
  {
    IntToStringNoDollar(currentPage);
    IntToStringNoDollar(totalPages);
    ReplaceFirstPlain(pageOf, "{current}", IntToString(currentPage));
    ReplaceFirstPlain(ReplaceFirst(pageOf, "{current}", IntToString(currentPage)), "{total}", IntToString(totalPages));
    ReplaceFirst(ReplaceFirst(pageOf, "{current}", IntToString(currentPage)), "{total}", IntToString(totalPages))
  }

  // ---------------------------------------------------------------------------
  // The listing controller

  /** The state of the listing page: the component's state variables and the
      `page` query parameter of the URL. */
  /** The query string `setSearchParams({ page: String(page) })` writes. */
  function PageQuery(page: int): string
  {
    "?page=" + IntToString(page)
  }

  /** The listing's own page arithmetic is the service's pagination. */
  lemma LocalPagination(filtered: seq<Post>, page: int, pages: nat, validPage: int, start: int)
    requires pages == CeilDiv(|filtered|, PostsPerPage) && validPage == ClampPage(page, pages)
    requires start == (validPage - 1) * PostsPerPage
    ensures GetPaginatedPosts(Some(filtered), page, PostsPerPage)
              == PageResult(JsSlice(filtered, start, start + PostsPerPage), pages, validPage, |filtered|)
  {
  }

  class NewsController {
    /** The runtime's `toLowerCase`. */
    const lower: string -> string
    /** The router whose location holds the `page` query parameter. */
    const router: Routing.Router

    var allPosts: seq<Post>
    var displayedPosts: seq<Post>
    var searchTerm: string
    var loading: bool
    var totalPages: int
    var totalPosts: int
    /** `parseInt(searchParams.get('page') || '1')`, read from the router's query string. */
    var urlPage: int

    /** The page mounts with its initial state and the page number from the URL. */
    constructor(lower: string -> string, router: Routing.Router, urlPage: int)
      ensures this.lower == lower && this.router == router && this.urlPage == urlPage
      ensures allPosts == [] && displayedPosts == [] && searchTerm == ""
      ensures loading && totalPages == 0 && totalPosts == 0
    {
      this.lower := lower;
      this.router := router;
      this.urlPage := urlPage;
      allPosts := [];
      displayedPosts := [];
      searchTerm := "";
      loading := true;
      totalPages := 0;
      totalPosts := 0;
    }

    /** The mount effect `fetchAllPosts`: a successful load stores every post
        and its count; a failed one changes nothing. */
    method LoadAllPosts(fetched: Option<seq<Post>>)
      modifies this
      ensures fetched.Some? ==> allPosts == fetched.value && totalPosts == |fetched.value|
      ensures fetched.None? ==> allPosts == old(allPosts) && totalPosts == old(totalPosts)
      ensures displayedPosts == old(displayedPosts) && searchTerm == old(searchTerm) && loading == old(loading)
      ensures totalPages == old(totalPages) && urlPage == old(urlPage)
    {
      if fetched.Some? {
        allPosts := fetched.value;
        totalPosts := |fetched.value|;
      }
    }

    /** The guard of the listing effect: all posts are loaded, or there is no search. */
    predicate ShouldFetch()
      reads this
    {
      |allPosts| > 0 || IsBlank(searchTerm)
    }

    /** The listing effect: when the guard holds, `fetchPosts` either pages
        through the locally filtered posts (a search is active) or asks the
        service for the page (`store` is what the service's own fetch returns);
        afterwards loading is over. */
    method RefreshPosts(store: Option<seq<Post>>) returns (ran: bool)
      modifies this
      ensures ran == old(ShouldFetch())
      ensures !ran ==> displayedPosts == old(displayedPosts) && totalPages == old(totalPages) &&
                       totalPosts == old(totalPosts) && loading == old(loading)
      ensures ran && !IsBlank(searchTerm) ==>
        var r := GetPaginatedPosts(Some(SearchPosts(allPosts, searchTerm, lower)), urlPage, PostsPerPage);
        displayedPosts == r.posts && totalPages == r.totalPages && totalPosts == r.totalPosts
      ensures ran && IsBlank(searchTerm) ==>
        var r := GetPaginatedPosts(store, urlPage, PostsPerPage);
        displayedPosts == r.posts && totalPages == r.totalPages && totalPosts == r.totalPosts
      ensures ran ==> !loading
      ensures allPosts == old(allPosts) && searchTerm == old(searchTerm) && urlPage == old(urlPage)
    {
      ran := |allPosts| > 0 || IsBlank(searchTerm);
      if ran {
        loading := true;
        if !IsBlank(searchTerm) {
          ShowSearchPage();
        } else {
          ShowServicePage(store);
        }
        loading := false;
      }
    }

    /** The search branch of `fetchPosts`: the matches of the term, paged here
        with the same arithmetic as the service. */
    method ShowSearchPage()
      modifies this
      ensures var r := GetPaginatedPosts(Some(SearchPosts(allPosts, searchTerm, lower)), urlPage, PostsPerPage);
        displayedPosts == r.posts && totalPages == r.totalPages && totalPosts == r.totalPosts
      ensures allPosts == old(allPosts) && searchTerm == old(searchTerm) && urlPage == old(urlPage)
      ensures loading == old(loading)
    {
      var filtered := SearchPosts(allPosts, searchTerm, lower);
      var total := |filtered|;
      var pages := CeilDiv(total, PostsPerPage);
      var validPage := Max(1, Min(urlPage, if pages == 0 then 1 else pages));
      var startIndex := (validPage - 1) * PostsPerPage;
      var endIndex := startIndex + PostsPerPage;
      LocalPagination(filtered, urlPage, pages, validPage, startIndex);
      displayedPosts := JsSlice(filtered, startIndex, endIndex);
      totalPages := pages;
      totalPosts := total;
    }

    /** The other branch of `fetchPosts`: the page the service returns. */
    method ShowServicePage(store: Option<seq<Post>>)
      modifies this
      ensures var r := GetPaginatedPosts(store, urlPage, PostsPerPage);
        displayedPosts == r.posts && totalPages == r.totalPages && totalPosts == r.totalPosts
      ensures allPosts == old(allPosts) && searchTerm == old(searchTerm) && urlPage == old(urlPage)
      ensures loading == old(loading)
    {
      var result := GetPaginatedPosts(store, urlPage, PostsPerPage);
      displayedPosts := result.posts;
      totalPages := result.totalPages;
      totalPosts := result.totalPosts;
    }

    /** `handleSearchChange(value)`: the term changes and the URL page becomes 1;
        the URL is written, with a new history entry, only when it was not
        already on page 1. */
    method HandleSearchChange(value: string) returns (urlWritten: bool)
      requires router.Valid()
      modifies this, router
      ensures searchTerm == value && urlPage == 1
      ensures urlWritten == (old(urlPage) != 1)
      ensures router.Valid() && router.language == old(router.language)
      ensures urlWritten ==> router.history == old(router.history) + [Routing.Loc(old(router.Location()), PageQuery(1))]
      ensures !urlWritten ==> router.history == old(router.history)
      ensures allPosts == old(allPosts) && displayedPosts == old(displayedPosts) && loading == old(loading)
      ensures totalPages == old(totalPages) && totalPosts == old(totalPosts)
    {
      searchTerm := value;
      urlWritten := urlPage != 1;
      if urlWritten {
        router.SetSearchParams(PageQuery(1));
        urlPage := 1;
      }
    }

    /** `handlePageChange(page)`: the URL page becomes `page`, in a new history
        entry on the same pathname. */
    method HandlePageChange(page: int)
      requires router.Valid()
      modifies this, router
      ensures urlPage == page
      ensures router.Valid() && router.language == old(router.language)
      ensures router.history == old(router.history) + [Routing.Loc(old(router.Location()), PageQuery(page))]
      ensures allPosts == old(allPosts) && displayedPosts == old(displayedPosts) && searchTerm == old(searchTerm)
      ensures loading == old(loading) && totalPages == old(totalPages) && totalPosts == old(totalPosts)
    {
      router.SetSearchParams(PageQuery(page));
      urlPage := page;
    }
  }

  /** After a new search term the listing shows the first page of the matches:
      the search resets the URL page, so the refresh pages from 1. */
  method SearchThenRefresh(c: NewsController, value: string, store: Option<seq<Post>>)
    requires |c.allPosts| > 0 && !IsBlank(value) && c.router.Valid()
    modifies c, c.router
    ensures c.urlPage == 1 && c.searchTerm == value && !c.loading
    ensures var matches := SearchPosts(c.allPosts, value, c.lower);
            c.displayedPosts == matches[..Min(PostsPerPage, |matches|)]
  {
    var _ := c.HandleSearchChange(value);
    var ran := c.RefreshPosts(store);
    assert ran;
  }
}
