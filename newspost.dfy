/** The page of one post: loading it with its neighbours and related posts,
    splitting its text into paragraphs and links, the link to another post and
    the image fallback. */
module NewsPostPage {
  import opened Common
  import opened Languages
  import opened Posts
  import opened Routing

  /** The image shown for a post without one. */
  const DefaultPostImage := "/images/posts/default-post.jpg"
  /** The listing fetched to find neighbours: page 1 with this many posts. */
  const NeighbourWindow := 100
  /** At most this many related posts. */
  const RelatedCount := 4

  // ---------------------------------------------------------------------------
  // Related posts and neighbours

  /** The related posts: the first four posts of the list with another id. */
  function RelatedPosts(list: seq<Post>, postId: string): (r: seq<Post>)
    ensures var others := Filter((p: Post) => p.id != postId, list);
            r == others[..Min(RelatedCount, |others|)]
  {
    JsSlice(Filter((p: Post) => p.id != postId, list), 0, RelatedCount)
  }

  /** Related posts never include the post itself, come from the list in list
      order, and number four unless fewer other posts exist. */
  lemma RelatedPostsProperties(list: seq<Post>, postId: string)
    ensures var r := RelatedPosts(list, postId);
      && (forall k :: 0 <= k < |r| ==> r[k].id != postId && r[k] in list)
      && IsSubsequence(r, list)
      && |r| == Min(RelatedCount, |list| - CountWithId(list, postId))
  {
    var p := (p: Post) => p.id != postId;
    var others := Filter(p, list);
    var r := RelatedPosts(list, postId);
    FilterIsSubsequence(p, list);
    PrefixIsSubsequence(r, others[Min(RelatedCount, |others|)..]);
    assert r + others[Min(RelatedCount, |others|)..] == others;
    SubsequenceTransitive(r, others, list);
    OthersCount(list, postId);
  }

  /** How many posts of the list carry `id`. */
  function CountWithId(list: seq<Post>, id: string): nat
  {
    if list == [] then 0 else (if list[0].id == id then 1 else 0) + CountWithId(list[1..], id)
  }

  lemma {:induction false} OthersCount(list: seq<Post>, postId: string)
    ensures |Filter((p: Post) => p.id != postId, list)| == |list| - CountWithId(list, postId)
  {
    if list != [] {
      OthersCount(list[1..], postId);
    }
  }

  /** The post after the current one in the newest-first list is the newer
      neighbour, the post before it the older one. */
  predicate NeighboursAt(list: seq<Post>, i: int, newer: Option<Post>, older: Option<Post>)
    requires 0 <= i < |list|
  {
    && (if i > 0 then newer == Some(list[i - 1]) else newer.None?)
    && (if i < |list| - 1 then older == Some(list[i + 1]) else older.None?)
  }

  /** With unique ids, looking a post's id up finds that post. */
  lemma FindOwnIndex(list: seq<Post>, k: int)
    requires DistinctIds(list) && 0 <= k < |list|
    ensures FindIndexById(list, list[k].id) == k
  {
    var i := FindIndexById(list, list[k].id);
    assert i != -1 by {
      assert list[k].id == list[k].id;
    }
  }

  // ---------------------------------------------------------------------------
  // Paragraphs and links

  /** A piece of a paragraph: plain text or a URL shown as a link. */
  datatype Part = Text(text: string) | Link(url: string)

  /** The length of an `https://` or `http://` scheme at `i`, or 0. */
  function SchemeLength(s: string, i: nat): nat
  {
    if i <= |s| && StartsWith(s[i..], "https://") then 8
    else if i <= |s| && StartsWith(s[i..], "http://") then 7
    else 0
  }

  /** The pattern `https?:\/\/[^\s]+` matches at `i`: a scheme followed by at
      least one character that is not whitespace. */
  predicate UrlAt(s: string, i: nat)
  {
    var n := SchemeLength(s, i);
    n > 0 && i + n < |s| && !IsWhitespace(s[i + n])
  }

  /** The first match of the URL pattern at or after `from`, or -1. */
  function FirstUrl(s: string, from: nat): (r: int)
    ensures r == -1 || (from <= r < |s| && UrlAt(s, r))
    ensures forall j :: from <= j && (r == -1 || j < r) ==> !UrlAt(s, j)
    decreases |s| - from
  {
    if from >= |s| then -1
    else if UrlAt(s, from) then from
    else FirstUrl(s, from + 1)
  }

  /** The end of the greedy `[^\s]+`: the first whitespace at or after `i`, or the end. */
  function UrlEnd(s: string, i: nat): (r: nat)
    requires i <= |s|
    ensures i <= r <= |s|
    ensures r < |s| ==> IsWhitespace(s[r])
    ensures forall j :: i <= j < r ==> !IsWhitespace(s[j])
    decreases |s| - i
  {
    if i == |s| || IsWhitespace(s[i]) then i else UrlEnd(s, i + 1)
  }

  /** Where a match of the URL pattern starts and ends. */
  datatype Span = Span(start: nat, end: nat)

  /** The leftmost match of `https?:\/\/[^\s]+`: it starts at the first place
      the pattern can match and runs to the next whitespace or the end of the
      text; `None` when the pattern matches nowhere. */
  function NextUrl(s: string): (r: Option<Span>)
    ensures r.None? ==> forall j: nat :: !UrlAt(s, j)
    ensures r.Some? ==> var i, e := r.value.start, r.value.end;
      && i < e <= |s|
      && UrlAt(s, i) && (forall j: nat :: j < i ==> !UrlAt(s, j))
      && (StartsWith(s[i..e], "https://") || StartsWith(s[i..e], "http://"))
      && i + SchemeLength(s, i) < e
      && (forall j :: i <= j < e ==> !IsWhitespace(s[j]))
      && (e < |s| ==> IsWhitespace(s[e]))
  {
    var i := FirstUrl(s, 0);
    if i == -1 then None
    else
      var e := UrlEnd(s, i);
      var n := SchemeLength(s, i);
      SchemeNotWhitespace(s, i);
      assert e > i + n;
      assert s[i..e][..n] == s[i..][..n];
      Some(Span(i, e))
  }

  /** The scheme of a match and the character after it are not whitespace. */
  lemma SchemeNotWhitespace(s: string, i: nat)
    requires UrlAt(s, i)
    ensures forall j :: i <= j <= i + SchemeLength(s, i) ==> !IsWhitespace(s[j])
  {
    var n := SchemeLength(s, i);
    var scheme := if n == 8 then "https://" else "http://";
    assert s[i..i + n] == scheme;
    forall j | i <= j < i + n ensures !IsWhitespace(s[j]) {
      assert s[j] == scheme[j - i];
    }
  }

  /** One step of the split: the text before the match, the match, the rest. */
  lemma LinkPartsStep(s: string)
    requires NextUrl(s).Some?
    ensures var sp := NextUrl(s).value;
      LinkParts(s) == [Text(s[..sp.start]), Link(s[sp.start..sp.end])] + LinkParts(s[sp.end..])
  {
  }

  /** `text.split(/(https?:\/\/[^\s]+)/g)`, each piece tagged as it is rendered:
      the text before the first match, the match, and the split of the rest. */
  function LinkParts(s: string): (parts: seq<Part>)
    decreases |s|
  {
    match NextUrl(s)
    case None => [Text(s)]
    case Some(Span(i, e)) => [Text(s[..i]), Link(s[i..e])] + LinkParts(s[e..])
  }

  /** The text of the pieces, one after another. */
  function Concat(parts: seq<Part>): string
  {
    if parts == [] then "" else (match parts[0] case Text(t) => t case Link(u) => u) + Concat(parts[1..])
  }

  /** The pieces rebuild the paragraph. */
  lemma {:induction false} LinkPartsConcat(s: string)
    ensures Concat(LinkParts(s)) == s
    decreases |s|
  {
    if NextUrl(s).Some? {
      var i, e := NextUrl(s).value.start, NextUrl(s).value.end;
      LinkPartsConcat(s[e..]);
      LinkPartsStep(s);
      ConcatTextLink(s[..i], s[i..e], LinkParts(s[e..]));
      SplitThree(s, i, e);
    }
  }

  lemma SplitThree(s: string, i: int, e: int)
    requires 0 <= i <= e <= |s|
    ensures s == s[..i] + (s[i..e] + s[e..])
  {
  }

  lemma ConcatTextLink(x: string, u: string, rest: seq<Part>)
    ensures Concat([Text(x), Link(u)] + rest) == x + (u + Concat(rest))
  {
    var parts := [Text(x), Link(u)] + rest;
    assert parts[1..] == [Link(u)] + rest;
    assert ([Link(u)] + rest)[1..] == rest;
  }

  /** Text and links alternate, starting and ending with text. */
  lemma {:induction false} LinkPartsAlternate(s: string)
    ensures Alternating(LinkParts(s))
    decreases |s|
  {
    if NextUrl(s).Some? {
      var i, e := NextUrl(s).value.start, NextUrl(s).value.end;
      LinkPartsAlternate(s[e..]);
      LinkPartsStep(s);
      AlternateTextLink(s[..i], s[i..e], LinkParts(s[e..]));
    }
  }

  /** Pieces that start and end with text and alternate. */
  predicate Alternating(parts: seq<Part>)
  {
    && |parts| >= 1 && parts[0].Text? && parts[|parts| - 1].Text?
    && forall k :: 0 <= k < |parts| - 1 ==> parts[k].Link? != parts[k + 1].Link?
  }

  lemma AlternateTextLink(x: string, u: string, rest: seq<Part>)
    requires Alternating(rest)
    ensures Alternating([Text(x), Link(u)] + rest)
  {
    var parts := [Text(x), Link(u)] + rest;
    forall k | 2 <= k < |parts| ensures parts[k] == rest[k - 2] {
    }
  }

  /** Every link starts with `http://` or `https://`, holds no whitespace and
      ends where the text has whitespace or ends. */
  lemma {:induction false} LinkPartsLinks(s: string)
    ensures forall k :: 0 <= k < |LinkParts(s)| && LinkParts(s)[k].Link? ==> LinkShaped(LinkParts(s), k)
    decreases |s|
  {
    if NextUrl(s).Some? {
      var i, e := NextUrl(s).value.start, NextUrl(s).value.end;
      LinkPartsLinks(s[e..]);
      LinkPartsStep(s);
      var rest := LinkParts(s[e..]);
      PrefixOfFirstPart(s[e..]);
      var u := s[i..e];
      forall j | 0 <= j < |u| ensures !IsWhitespace(u[j]) {
        assert u[j] == s[i + j];
      }
      assert rest[0].text == "" || rest[0].text[0] == s[e..][0];
      UrlAtSlice(s, i, e);
      LinksTextLink(s[..i], u, rest);
    }
  }

  /** A match cut out of the text still matches at its start. */
  lemma UrlAtSlice(s: string, i: nat, e: nat)
    requires UrlAt(s, i) && i + SchemeLength(s, i) < e <= |s|
    ensures UrlAt(s[i..e], 0)
  {
    var u, n := s[i..e], SchemeLength(s, i);
    assert u[0..] == u;
    assert u[..n] == s[i..][..n];
    assert u[n] == s[i + n];
  }

  lemma LinksTextLink(x: string, u: string, rest: seq<Part>)
    requires UrlAt(u, 0)
    requires forall j :: 0 <= j < |u| ==> !IsWhitespace(u[j])
    requires |rest| >= 1 && rest[0].Text? && (rest[0].text == "" || IsWhitespace(rest[0].text[0]))
    requires forall k :: 0 <= k < |rest| && rest[k].Link? ==> LinkShaped(rest, k)
    ensures var parts := [Text(x), Link(u)] + rest;
      forall k :: 0 <= k < |parts| && parts[k].Link? ==> LinkShaped(parts, k)
  {
    var parts := [Text(x), Link(u)] + rest;
    assert LinkShaped(parts, 1);
    forall k | 2 <= k < |parts| && parts[k].Link? ensures LinkShaped(parts, k) {
      assert parts[k] == rest[k - 2];
      assert LinkShaped(rest, k - 2);
      assert parts[k + 1] == rest[k - 1];
    }
  }

  /** The piece at `k` is a URL: the pattern matches at its start (a scheme and
      at least one more character), it holds no whitespace, and it is followed
      by text that is empty or starts with whitespace. */
  predicate LinkShaped(parts: seq<Part>, k: int)
    requires 0 <= k < |parts| && parts[k].Link?
  {
    var u := parts[k].url;
    && UrlAt(u, 0)
    && (forall j :: 0 <= j < |u| ==> !IsWhitespace(u[j]))
    && k + 1 < |parts| && parts[k + 1].Text?
    && (parts[k + 1].text == "" || IsWhitespace(parts[k + 1].text[0]))
  }

  /** The first piece is a prefix of the text. */
  lemma PrefixOfFirstPart(s: string)
    ensures LinkParts(s)[0].Text? && StartsWith(s, LinkParts(s)[0].text)
  {
  }

  /** A match inside a prefix is a match in the whole text. */
  lemma UrlInPrefix(s: string, i: nat, j: nat)
    requires i <= |s| && UrlAt(s[..i], j)
    ensures UrlAt(s, j)
  {
    var n := SchemeLength(s[..i], j);
    assert s[..i][j..][..n] == s[j..][..n];
  }

  /** No text piece holds a match, so exactly the link pieces are rendered as links. */
  lemma {:induction false} LinkPartsTextsHaveNoUrl(s: string)
    ensures forall k, j :: 0 <= k < |LinkParts(s)| && LinkParts(s)[k].Text? ==> !UrlAt(LinkParts(s)[k].text, j)
    decreases |s|
  {
    if NextUrl(s).Some? {
      var i, e := NextUrl(s).value.start, NextUrl(s).value.end;
      LinkPartsTextsHaveNoUrl(s[e..]);
      LinkPartsStep(s);
      forall j: nat | UrlAt(s[..i], j) ensures false {
        UrlInPrefix(s, i, j);
      }
      forall k | 2 <= k < |LinkParts(s)| ensures LinkParts(s)[k] == LinkParts(s[e..])[k - 2] {
      }
    }
  }

  /** `formatText`: the `\n\n`-separated pieces that are not blank, in order. */
  function Paragraphs(text: string): seq<string>
  {
    Filter((p: string) => !IsBlank(p), SplitOn(text, "\n\n"))
  }

  /** The paragraphs are exactly the non-blank pieces between blank lines, in
      their order of appearance, and joining all pieces rebuilds the text. */
  lemma ParagraphsOfText(text: string, p: string)
    ensures p in Paragraphs(text) <==> p in SplitOn(text, "\n\n") && !IsBlank(p)
    ensures IsSubsequence(Paragraphs(text), SplitOn(text, "\n\n"))
    ensures multiset(Paragraphs(text))[p] == if IsBlank(p) then 0 else multiset(SplitOn(text, "\n\n"))[p]
    ensures forall k :: 0 <= k < |Paragraphs(text)| ==> !IsBlank(Paragraphs(text)[k]) && !Includes(Paragraphs(text)[k], "\n\n")
    ensures JoinWith(SplitOn(text, "\n\n"), "\n\n") == text
  {
    var f := (p: string) => !IsBlank(p);
    FilterMembership(f, SplitOn(text, "\n\n"), p);
    FilterIsSubsequence(f, SplitOn(text, "\n\n"));
    FilterCount(f, SplitOn(text, "\n\n"), p);
    SplitPiecesHaveNoSeparator(text, "\n\n");
    forall k | 0 <= k < |Paragraphs(text)| ensures !Includes(Paragraphs(text)[k], "\n\n") {
      assert Paragraphs(text)[k] in SplitOn(text, "\n\n");
    }
    SplitJoin(text, "\n\n");
  }

  /** The rendered body: each paragraph linkified on its own, so the pieces of
      every paragraph alternate text and links and rebuild that paragraph. */
  function FormatText(text: string): (body: seq<seq<Part>>)
    ensures |body| == |Paragraphs(text)|
    ensures forall k :: 0 <= k < |body| ==> body[k] == LinkParts(Paragraphs(text)[k])
    ensures forall k :: 0 <= k < |body| ==> Concat(body[k]) == Paragraphs(text)[k] && Alternating(body[k])
  {
    var ps := Paragraphs(text);
    var body := seq(|ps|, k requires 0 <= k < |ps| => LinkParts(ps[k]));
    forall k | 0 <= k < |body| ensures Concat(body[k]) == ps[k] && Alternating(body[k]) {
      LinkPartsConcat(ps[k]);
      LinkPartsAlternate(ps[k]);
    }
    body
  }

  /** In the rendered body, every link piece is a match of the URL pattern
      ending at whitespace or at the end of its paragraph, and no text piece
      contains a match. */
  lemma FormatTextPieces(text: string, k: int)
    requires 0 <= k < |FormatText(text)|
    ensures var parts := FormatText(text)[k];
      && (forall j :: 0 <= j < |parts| && parts[j].Link? ==> LinkShaped(parts, j))
      && (forall j, i :: 0 <= j < |parts| && parts[j].Text? ==> !UrlAt(parts[j].text, i))
  {
    var p := Paragraphs(text)[k];
    assert FormatText(text)[k] == LinkParts(p);
    LinkPartsLinks(p);
    LinkPartsTextsHaveNoUrl(p);
  }

  // ---------------------------------------------------------------------------
  // Links and images

  /** `handleNavigatePost(postId)`: the path of a post under the active language. */
  function NewsPostPath(language: Language, postId: string): (r: string)
    ensures r == "/" + Code(language) + "/news/" + postId
    ensures IsSegment(postId) ==> MatchRoute(r) == Localized(Code(language), NewsPost(postId))
  {
    var r := "/" + Code(language) + "/news/" + postId;
    if IsSegment(postId) then
      CodeIsSegment(language);
      var code := Code(language);
      assert [code, "news", postId][1..] == ["news", postId] && ["news", postId][1..] == [postId];
      assert JoinWith(["news", postId], "/") == "news" + "/" + postId;
      assert JoinWith([code, "news", postId], "/") == code + "/" + ("news" + "/" + postId);
      assert [code] + PageSegments(NewsPost(postId)) == [code, "news", postId];
      assert r == PagePath(code, NewsPost(postId));
      MatchPagePath(Code(language), NewsPost(postId));
      r
    else r
  }

  /** `getImageUrl(imageUrl)`: the post's image, or the default one when it has none. */
  function GetImageUrl(imageUrl: Option<string>): (r: string)
    ensures r != ""
    ensures imageUrl.Some? && imageUrl.value != "" ==> r == imageUrl.value
    ensures imageUrl.None? || imageUrl.value == "" ==> r == DefaultPostImage
  {
    if imageUrl.Some? && imageUrl.value != "" then imageUrl.value else DefaultPostImage
  }

  // ---------------------------------------------------------------------------
  // The page state

  /** The state variables of the post page. */
  class PostDetail {
    var post: Option<Post>
    var relatedPosts: seq<Post>
    var loading: bool
    var notFound: bool
    var prevPost: Option<Post>
    var nextPost: Option<Post>

    /** The page mounts loading, with nothing found yet. */
    constructor()
      ensures post.None? && relatedPosts == [] && loading && !notFound
      ensures prevPost.None? && nextPost.None?
    {
      post := None;
      relatedPosts := [];
      loading := true;
      notFound := false;
      prevPost := None;
      nextPost := None;
    }

    /** `fetchPost()`: `byId` and `listing` are what the service's two loads of
        the posts file return. A missing id or an unknown post is not found;
        otherwise the post is shown, and when it is among the first hundred
        posts its neighbours and related posts are set from that list. */
    method FetchPost(postId: Option<string>, byId: Option<seq<Post>>, listing: Option<seq<Post>>)
      modifies this
      ensures !loading
      ensures postId.None? || postId.value == "" || GetPostById(byId, postId.value).None? ==>
        notFound && post == old(post) && relatedPosts == old(relatedPosts) &&
        prevPost == old(prevPost) && nextPost == old(nextPost)
      ensures postId.Some? && postId.value != "" && GetPostById(byId, postId.value).Some? ==>
        var id := postId.value;
        var list := GetPaginatedPosts(listing, 1, NeighbourWindow).posts;
        var i := FindIndexById(list, id);
        && !notFound && post == GetPostById(byId, id)
        && (i == -1 ==> relatedPosts == old(relatedPosts) && prevPost == old(prevPost) && nextPost == old(nextPost))
        && (i != -1 ==> NeighboursAt(list, i, nextPost, prevPost) && relatedPosts == RelatedPosts(list, id))
    {
      if postId.None? || postId.value == "" {
        notFound := true;
        loading := false;
        return;
      }
      var id := postId.value;
      loading := true;
      notFound := false;
      var fetchedPost := GetPostById(byId, id);
      if fetchedPost.None? {
        notFound := true;
        loading := false;
        return;
      }
      post := fetchedPost;
      var allPosts := GetPaginatedPosts(listing, 1, NeighbourWindow).posts;
      ShowNeighbours(allPosts, id);
      loading := false;
    }

    /** The neighbours and related posts of post `id` in the listing `list`;
        nothing changes when the post is not in it. */
    method ShowNeighbours(list: seq<Post>, id: string)
      modifies this
      ensures post == old(post) && notFound == old(notFound) && loading == old(loading)
      ensures var i := FindIndexById(list, id);
        && (i == -1 ==> relatedPosts == old(relatedPosts) && prevPost == old(prevPost) && nextPost == old(nextPost))
        && (i != -1 ==> NeighboursAt(list, i, nextPost, prevPost) && relatedPosts == RelatedPosts(list, id))
    {
      var currentIndex := FindIndexById(list, id);
      if currentIndex != -1 {
        if currentIndex > 0 {
          nextPost := Some(list[currentIndex - 1]);
        } else {
          nextPost := None;
        }
        if currentIndex < |list| - 1 {
          prevPost := Some(list[currentIndex + 1]);
        } else {
          prevPost := None;
        }
        relatedPosts := RelatedPosts(list, id);
      }
    }

    /** `handleNavigatePost(postId)`: push the post's path. */
    method NavigatePost(router: Router, postId: string)
      requires router.Valid()
      modifies router
      ensures router.Valid() && router.history == old(router.history) + [Loc(NewsPostPath(router.language, postId), "")]
      ensures router.language == old(router.language)
    {
      router.Navigate(NewsPostPath(router.language, postId), false);
    }
  }

  /** With unique ids, following the older neighbour and then its newer
      neighbour comes back to the same post. */
  lemma NeighboursAreMutual(list: seq<Post>, i: int, newer: Option<Post>, older: Option<Post>)
    requires DistinctIds(list) && 0 <= i < |list| && NeighboursAt(list, i, newer, older) && older.Some?
    ensures var j := FindIndexById(list, older.value.id);
      && 0 <= j < |list|
      && forall newer2, older2 :: NeighboursAt(list, j, newer2, older2) ==> newer2 == Some(list[i])
  {
    FindOwnIndex(list, i + 1);
  }
}
