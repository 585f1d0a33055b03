/** The post service: the posts snapshot, text search, excerpts and pagination.
    A fetch of the posts file is an `Option<seq<Post>>` argument: `None` stands
    for a failed request, a status that is not ok, or a body that is not the
    expected JSON. */
module Posts {
  import opened Common

  /** One preprocessed social-media post; `imageUrl` is `null` when absent. */
  datatype Post = Post(id: string, timestamp: int, date: string, text: string, imageUrl: Option<string>)

  /** Ids are unique in the list. */
  predicate DistinctIds(list: seq<Post>)
  {
    forall j, k :: 0 <= j < k < |list| ==> list[j].id != list[k].id
  }

  /** `posts`, `totalPages`, `currentPage` and `totalPosts` of one result page. */
  datatype PageResult = PageResult(posts: seq<Post>, totalPages: int, currentPage: int, totalPosts: int)

  const DefaultLoadLimit := 8
  const DefaultExcerptLength := 150
  const DefaultPerPage := 8

  function Min(a: int, b: int): int { if a < b then a else b }
  function Max(a: int, b: int): int { if a < b then b else a }

  // ---------------------------------------------------------------------------
  // Loading

  /** `loadFacebookPosts(limit)`: the first `limit` posts of the snapshot (a
      negative limit drops that many from the end, as `slice` does), or no posts
      when the file cannot be loaded. */
  function LoadFacebookPosts(loaded: Option<seq<Post>>, limit: int): (r: seq<Post>)
    ensures loaded.None? ==> r == []
    ensures loaded.Some? && limit >= 0 ==> r == loaded.value[..Min(limit, |loaded.value|)]
    ensures loaded.Some? && limit < 0 ==> r == loaded.value[..Max(|loaded.value| + limit, 0)]
  {
    match loaded
    case None => []
    case Some(posts) => JsSlice(posts, 0, limit)
  }

  /** `getTotalPostCount()`: the number of posts, or 0 when loading fails. */
  function TotalPostCount(loaded: Option<seq<Post>>): (n: nat)
    ensures loaded.None? ==> n == 0
    ensures loaded.Some? ==> n == |loaded.value|
  {
    match loaded
    case None => 0
    case Some(posts) => |posts|
  }

  // ---------------------------------------------------------------------------
  // Lookup

  /** `findIndex(p => p.id === id)`: the first index holding `id`, or -1. */
  function FindIndexById(posts: seq<Post>, id: string): (i: int)
    ensures -1 <= i < |posts|
    ensures i >= 0 ==> posts[i].id == id
    ensures i == -1 <==> forall j :: 0 <= j < |posts| ==> posts[j].id != id
    ensures forall j :: 0 <= j < i ==> posts[j].id != id
  {
    if posts == [] then -1
    else if posts[0].id == id then 0
    else var k := FindIndexById(posts[1..], id); if k == -1 then -1 else k + 1
  }

  /** `getPostById(id)`: the first post with that id, or `null` when none has it
      or the file cannot be loaded. */
  function GetPostById(loaded: Option<seq<Post>>, id: string): (r: Option<Post>)
    ensures loaded.None? ==> r.None?
    ensures loaded.Some? ==> (r.Some? <==> exists j :: 0 <= j < |loaded.value| && loaded.value[j].id == id)
    ensures r.Some? ==> r.value.id == id && r.value in loaded.value
    ensures r.Some? ==> exists i :: 0 <= i < |loaded.value| && loaded.value[i] == r.value &&
                                    forall j :: 0 <= j < i ==> loaded.value[j].id != id
  {
    match loaded
    case None => None
    case Some(posts) =>
      var i := FindIndexById(posts, id);
      if i == -1 then None else Some(posts[i])
  }

  // ---------------------------------------------------------------------------
  // Search

  /** A post matches a term when its lower-cased text contains the lower-cased
      term; `lower` is the runtime's `toLowerCase`. */
  predicate Matches(post: Post, term: string, lower: string -> string)
  {
    Includes(lower(post.text), lower(term))
  }

  /** `searchPosts(posts, searchTerm)`: every post for a blank term, otherwise the
      matching posts. The term itself is not trimmed. */
  function SearchPosts(posts: seq<Post>, searchTerm: string, lower: string -> string): (r: seq<Post>)
    ensures IsBlank(searchTerm) ==> r == posts
    ensures !IsBlank(searchTerm) ==> forall i :: 0 <= i < |r| ==> Matches(r[i], searchTerm, lower)
    ensures |r| <= |posts|
  {
    if IsBlank(searchTerm) then posts
    else Filter((p: Post) => Matches(p, searchTerm, lower), posts)
  }

  /** For a non-blank term the search keeps exactly the matching posts, in their order. */
  lemma SearchPostsSelectsMatches(posts: seq<Post>, searchTerm: string, lower: string -> string)
    requires !IsBlank(searchTerm)
    ensures IsSubsequence(SearchPosts(posts, searchTerm, lower), posts)
    ensures forall x :: x in SearchPosts(posts, searchTerm, lower) <==> x in posts && Matches(x, searchTerm, lower)
    ensures forall x :: multiset(SearchPosts(posts, searchTerm, lower))[x]
                     == if Matches(x, searchTerm, lower) then multiset(posts)[x] else 0
  {
    var p := (q: Post) => Matches(q, searchTerm, lower);
    FilterIsSubsequence(p, posts);
    forall x ensures x in Filter(p, posts) <==> x in posts && p(x) {
      FilterMembership(p, posts, x);
    }
    forall x ensures multiset(Filter(p, posts))[x] == if p(x) then multiset(posts)[x] else 0 {
      FilterCount(p, posts, x);
    }
  }

  // ---------------------------------------------------------------------------
  // Excerpts

  /** `truncateText(text, maxLength)`: the text itself when it fits; otherwise a
      prefix cut at the last space of the first `maxLength` characters (when that
      space is not at index 0), or at `maxLength`, followed by `...`. */
  function TruncateText(text: string, maxLength: int): (r: string)
    ensures |text| <= maxLength ==> r == text
    ensures |text| > maxLength ==>
      var m := Max(maxLength, 0);
      var k := |r| - 3;
      && |r| >= 3 && r[k..] == "..." && k <= m && r[..k] == text[..k]
      && (k < m ==> 0 < k && text[k] == ' ' && forall j :: k < j < m ==> text[j] != ' ')
      && (k == m ==> forall j :: 0 < j < m ==> text[j] != ' ')
    ensures |r| <= Max(maxLength, 0) + 3 || r == text
  {
    if |text| <= maxLength then text
    else
      var truncated := text[..Max(maxLength, 0)];
      var lastSpace := LastIndexOf(truncated, ' ');
      if lastSpace > 0 then truncated[..lastSpace] + "..." else truncated + "..."
  }

  // ---------------------------------------------------------------------------
  // Pagination

  /** `Math.ceil(n / d)` for a whole number of items and a positive page size. */
  function CeilDiv(n: nat, d: int): (r: nat)
    requires d >= 1
    ensures n <= r * d
    ensures r == 0 || (r - 1) * d < n
    ensures r == 0 <==> n == 0
  {
    if n == 0 then 0 else 1 + CeilDiv(if n < d then 0 else n - d, d)
  }

  /** `Math.max(1, Math.min(page, totalPages || 1))`. */
  function ClampPage(page: int, totalPages: nat): (r: int)
    ensures 1 <= r <= Max(totalPages, 1)
    ensures 1 <= page <= totalPages ==> r == page
    ensures page < 1 ==> r == 1
    ensures page > Max(totalPages, 1) ==> r == Max(totalPages, 1)
  {
    Max(1, Min(page, if totalPages == 0 then 1 else totalPages))
  }

  /** The one fact of multiplication the page arithmetic needs. */
  lemma MulStep(a: nat, b: nat)
    ensures a * b >= 0 && (a + 1) * b == a * b + b
  {
  }

  /** The posts, page count and clamped page number for `page` of `items`, as
      `getPaginatedPosts` computes them once the file is loaded. */
  function Paginate(items: seq<Post>, perPage: int, page: int): (r: PageResult)
    requires perPage >= 1
    ensures r.totalPosts == |items|
    ensures r.totalPages >= 0 && |items| <= r.totalPages * perPage
    ensures r.totalPages == 0 || (r.totalPages - 1) * perPage < |items|
    ensures r.totalPages == 0 <==> items == []
    ensures 1 <= r.currentPage <= Max(r.totalPages, 1)
    ensures 1 <= page <= r.totalPages ==> r.currentPage == page
    ensures |r.posts| <= perPage
    ensures var start := (r.currentPage - 1) * perPage;
            start >= 0 && r.posts == items[Min(start, |items|)..Min(start + perPage, |items|)]
  {
    var totalPages := CeilDiv(|items|, perPage);
    var currentPage := ClampPage(page, totalPages);
    var startIndex := (currentPage - 1) * perPage;
    var endIndex := startIndex + perPage;
    MulStep(currentPage - 1, perPage);
    PageResult(JsSlice(items, startIndex, endIndex), totalPages, currentPage, |items|)
  }

  /** `getPaginatedPosts(page, perPage)`: the page of the loaded snapshot; on a
      load failure no posts, zero pages and posts, and the requested page echoed
      back unclamped. */
  function GetPaginatedPosts(loaded: Option<seq<Post>>, page: int, perPage: int): (r: PageResult)
    requires perPage >= 1
    ensures loaded.None? ==> r == PageResult([], 0, page, 0)
    ensures loaded.Some? ==> r == Paginate(loaded.value, perPage, page)
  {
    match loaded
    case None => PageResult([], 0, page, 0)
    case Some(allPosts) => Paginate(allPosts, perPage, page)
  }

  /** The posts of pages 1 to `k`, one after another. */
  function PagesUpTo(items: seq<Post>, perPage: int, k: nat): seq<Post>
    requires perPage >= 1
  {
    if k == 0 then [] else PagesUpTo(items, perPage, k - 1) + Paginate(items, perPage, k).posts
  }

  /** Page `k` of `totalPages` holds the items from `(k - 1) * perPage` up to `k * perPage`. */
  lemma PageInRange(items: seq<Post>, perPage: int, k: int)
    requires perPage >= 1
    requires 1 <= k <= CeilDiv(|items|, perPage)
    ensures (k - 1) * perPage < |items|
    ensures Paginate(items, perPage, k).posts == items[(k - 1) * perPage..Min(k * perPage, |items|)]
  {
    var r := Paginate(items, perPage, k);
    assert r.currentPage == k;
    MulStep(k - 1, perPage);
    MulMono(k - 1, r.totalPages - 1, perPage);
  }

  lemma {:induction false} PagesUpToIsPrefix(items: seq<Post>, perPage: int, k: nat)
    requires perPage >= 1
    requires k <= CeilDiv(|items|, perPage)
    ensures PagesUpTo(items, perPage, k) == items[..Min(k * perPage, |items|)]
  {
    if k > 0 {
      PagesUpToIsPrefix(items, perPage, k - 1);
      PageInRange(items, perPage, k);
      MulStep(k - 1, perPage);
      var start, end := (k - 1) * perPage, Min(k * perPage, |items|);
      assert Min(start, |items|) == start;
      SliceJoin(items, start, end);
    } else {
      assert k * perPage == 0;
    }
  }

  /** The items before `start` followed by those from `start` to `end` are the items before `end`. */
  lemma SliceJoin(items: seq<Post>, start: int, end: int)
    requires 0 <= start <= end <= |items|
    ensures items[..start] + items[start..end] == items[..end]
  {
  }

  lemma MulMono(a: nat, b: nat, c: nat)
    requires a <= b
    ensures a * c <= b * c
  {
  }

  /** The pages 1..totalPages partition the items: concatenated in order they
      give back exactly the item sequence. */
  lemma PagesPartitionItems(items: seq<Post>, perPage: int)
    requires perPage >= 1
    ensures PagesUpTo(items, perPage, Paginate(items, perPage, 1).totalPages) == items
  {
    var t := Paginate(items, perPage, 1).totalPages;
    assert t == CeilDiv(|items|, perPage);
    PagesUpToIsPrefix(items, perPage, t);
    assert Min(t * perPage, |items|) == |items|;
  }

  /** Every page in range holds at least one item; all but the last are full. */
  lemma PagesInRangeAreFilled(items: seq<Post>, perPage: int, page: int)
    requires perPage >= 1
    requires 1 <= page <= Paginate(items, perPage, page).totalPages
    ensures 1 <= |Paginate(items, perPage, page).posts|
    ensures page < Paginate(items, perPage, page).totalPages ==> |Paginate(items, perPage, page).posts| == perPage
  {
    var r := Paginate(items, perPage, page);
    assert r.currentPage == page;
    var start := (page - 1) * perPage;
    MulMono(page - 1, r.totalPages - 1, perPage);
    assert start < |items|;
    if page < r.totalPages {
      MulMono(page, r.totalPages - 1, perPage);
      MulStep(page - 1, perPage);
      assert start + perPage <= (r.totalPages - 1) * perPage;
    }
  }
}
