/** The sitemap generator: one `<url>` entry of the Sitemap protocol 0.9
    (sitemaps.org) per language and static page, then one per language and
    post, wrapped in a `<urlset>` document. */
module Sitemap {
  import opened Common
  import opened Posts
  import opened Routing

  const SiteUrl := "https://neusatz.online"
  /** The languages of the generator, in order. */
  const SitemapLanguages := ["ua", "en", "de"]
  /** The static pages; `""` is the locale's home page. */
  const StaticPages := ["", "projects", "news", "about", "donate", "community"]

  /** The four child elements of a `<url>` element. */
  datatype UrlEntry = UrlEntry(loc: string, lastmod: string, changefreq: string, priority: string)

  // ---------------------------------------------------------------------------
  // One entry

  const UrlOpen := "  <url>\n    <loc>"
  const LocClose := "</loc>\n    <lastmod>"
  const LastmodClose := "</lastmod>\n    <changefreq>"
  const ChangefreqClose := "</changefreq>\n    <priority>"
  const UrlClose := "</priority>\n  </url>"

  /** `generateUrl(loc, lastmod, changefreq, priority)`: the fixed `<url>` template. */
  function GenerateUrl(e: UrlEntry): string
  {
    UrlOpen + (e.loc + (LocClose + (e.lastmod + (LastmodClose + (e.changefreq + (ChangefreqClose + (e.priority + UrlClose)))))))
  }

  /** The text before the first `<`, or all of it. */
  function UpToTag(s: string): (r: string)
    ensures |r| <= |s| && r == s[..|r|] && '<' !in r
    ensures |r| < |s| ==> s[|r|] == '<'
  {
    if s == [] || s[0] == '<' then [] else [s[0]] + UpToTag(s[1..])
  }

  lemma {:induction false} UpToTagConcat(x: string, rest: string)
    requires '<' !in x && rest != [] && rest[0] == '<'
    ensures UpToTag(x + rest) == x
  {
    if x != [] {
      assert (x + rest)[1..] == x[1..] + rest;
      UpToTagConcat(x[1..], rest);
    } else {
      assert x + rest == rest;
    }
  }

  /** A field and the text after its closing markup. */
  datatype Field = Field(value: string, rest: string)

  /** Reads a field up to the next `<` and then the closing markup `close`. */
  function ReadField(s: string, close: string): Option<Field>
  {
    var value := UpToTag(s);
    var tail := s[|value|..];
    if StartsWith(tail, close) then Some(Field(value, tail[|close|..])) else None
  }

  /** Reads a `<url>` element back: the inverse of the template for fields free of `<`. */
  function ParseUrl(s: string): Option<UrlEntry>
  {
    if !StartsWith(s, UrlOpen) then None
    else
      match ReadField(s[|UrlOpen|..], LocClose)
      case None => None
      case Some(Field(loc, s2)) =>
        match ReadField(s2, LastmodClose)
        case None => None
        case Some(Field(lastmod, s3)) =>
          match ReadField(s3, ChangefreqClose)
          case None => None
          case Some(Field(changefreq, s4)) =>
            match ReadField(s4, UrlClose)
            case None => None
            case Some(Field(priority, end)) =>
              if end == "" then Some(UrlEntry(loc, lastmod, changefreq, priority)) else None
  }

  /** No field holds a `<`. */
  predicate PlainFields(e: UrlEntry)
  {
    '<' !in e.loc && '<' !in e.lastmod && '<' !in e.changefreq && '<' !in e.priority
  }

  /** A field followed by its closing markup reads back as that field. */
  lemma ReadFieldBack(x: string, close: string, rest: string)
    requires '<' !in x && close != [] && close[0] == '<'
    ensures ReadField(x + (close + rest), close) == Some(Field(x, rest))
  {
    var s := x + (close + rest);
    UpToTagConcat(x, close + rest);
    assert s[|x|..] == close + rest;
    assert (close + rest)[..|close|] == close;
    assert (close + rest)[|close|..] == rest;
  }

  /** The template can be read back, so distinct entries give distinct text. */
  lemma ParseGenerateUrl(e: UrlEntry)
    requires PlainFields(e)
    ensures ParseUrl(GenerateUrl(e)) == Some(e)
  {
    var s4 := e.priority + UrlClose;
    var s3 := e.changefreq + (ChangefreqClose + s4);
    var s2 := e.lastmod + (LastmodClose + s3);
    var s1 := e.loc + (LocClose + s2);
    var s := GenerateUrl(e);
    assert s == UrlOpen + s1;
    assert StartsWith(s, UrlOpen) && s[|UrlOpen|..] == s1;
    ReadFieldBack(e.loc, LocClose, s2);
    ReadFieldBack(e.lastmod, LastmodClose, s3);
    ReadFieldBack(e.changefreq, ChangefreqClose, s4);
    assert UrlClose + "" == UrlClose;
    ReadFieldBack(e.priority, UrlClose, "");
    assert ReadField(s4, UrlClose) == Some(Field(e.priority, ""));
  }

  // ---------------------------------------------------------------------------
  // The entries

  /** The entry of a static page: the locale root at priority 1.0, the other
      pages at 0.8, all monthly. */
  function StaticEntry(lang: string, page: string, date: string): UrlEntry
  {
    var path := if page == "" then "/" + lang else "/" + lang + "/" + page;
    UrlEntry(SiteUrl + path, date, "monthly", if page == "" then "1.0" else "0.8")
  }

  /** The entry of a post: weekly at priority 0.6. */
  function PostEntry(lang: string, post: Post, date: string): UrlEntry
  {
    UrlEntry(SiteUrl + "/" + lang + "/news/" + post.id, date, "weekly", "0.6")
  }

  function StaticBlock(lang: string, date: string): (b: seq<UrlEntry>)
    ensures |b| == |StaticPages|
  {
    seq(|StaticPages|, j requires 0 <= j < |StaticPages| => StaticEntry(lang, StaticPages[j], date))
  }

  function PostBlock(lang: string, posts: seq<Post>, date: string): (b: seq<UrlEntry>)
    ensures |b| == |posts|
  {
    seq(|posts|, j requires 0 <= j < |posts| => PostEntry(lang, posts[j], date))
  }

  /** The static entries, language by language. */
  function StaticEntries(langs: seq<string>, date: string): seq<UrlEntry>
  {
    if langs == [] then []
    else StaticEntries(langs[..|langs| - 1], date) + StaticBlock(langs[|langs| - 1], date)
  }

  /** The post entries, language by language. */
  function PostEntries(langs: seq<string>, posts: seq<Post>, date: string): seq<UrlEntry>
  {
    if langs == [] then []
    else PostEntries(langs[..|langs| - 1], posts, date) + PostBlock(langs[|langs| - 1], posts, date)
  }

  /** Every entry of the sitemap, in the order the generator writes them. */
  function AllEntries(posts: seq<Post>, date: string): seq<UrlEntry>
  {
    StaticEntries(SitemapLanguages, date) + PostEntries(SitemapLanguages, posts, date)
  }

  /** The rendered entries. */
  function Render(entries: seq<UrlEntry>): (r: seq<string>)
    ensures |r| == |entries| && forall k :: 0 <= k < |r| ==> r[k] == GenerateUrl(entries[k])
  {
    seq(|entries|, k requires 0 <= k < |entries| => GenerateUrl(entries[k]))
  }

  lemma RenderSnoc(entries: seq<UrlEntry>, e: UrlEntry)
    ensures Render(entries + [e]) == Render(entries) + [GenerateUrl(e)]
  {
  }

  lemma RenderAppend(a: seq<UrlEntry>, b: seq<UrlEntry>)
    ensures Render(a + b) == Render(a) + Render(b)
  {
  }

  // ---------------------------------------------------------------------------
  // The generator

  /** The two nested loop pairs of `generateSitemap`: the static pages of every
      language, then the posts of every language. */
  method CollectUrls(posts: seq<Post>, currentDate: string) returns (urls: seq<string>)
    ensures urls == Render(AllEntries(posts, currentDate))
  {
    urls := [];
    urls := AddStaticUrls(urls, SitemapLanguages, currentDate);
    urls := AddPostUrls(urls, SitemapLanguages, posts, currentDate);
    RenderAppend(StaticEntries(SitemapLanguages, currentDate), PostEntries(SitemapLanguages, posts, currentDate));
  }

  /** The first loop pair: every static page of every language. */
  method AddStaticUrls(urls0: seq<string>, langs: seq<string>, currentDate: string) returns (urls: seq<string>)
    ensures urls == urls0 + Render(StaticEntries(langs, currentDate))
  {
    urls := urls0;
    for i := 0 to |langs|
      invariant urls == urls0 + Render(StaticEntries(langs[..i], currentDate))
    {
      ghost var mid := urls;
      urls := AddStaticBlock(urls, langs[i], currentDate);
      StaticRound(urls0, mid, urls, langs, i, currentDate);
    }
    assert langs[..|langs|] == langs;
  }

  /** One round of the outer loop of the first pair. */
  lemma StaticRound(urls0: seq<string>, mid: seq<string>, urls: seq<string>, langs: seq<string>, i: int, date: string)
    requires 0 <= i < |langs|
    requires mid == urls0 + Render(StaticEntries(langs[..i], date))
    requires urls == mid + Render(StaticBlock(langs[i], date))
    ensures urls == urls0 + Render(StaticEntries(langs[..i + 1], date))
  {
    assert langs[..i + 1][..i] == langs[..i];
    RenderRound(urls0, mid, urls, StaticEntries(langs[..i], date), StaticBlock(langs[i], date));
  }

  /** Appending the rendering of a block to the rendering of what came before. */
  lemma RenderRound(urls0: seq<string>, mid: seq<string>, urls: seq<string>, before: seq<UrlEntry>, block: seq<UrlEntry>)
    requires mid == urls0 + Render(before)
    requires urls == mid + Render(block)
    ensures urls == urls0 + Render(before + block)
  {
    RenderAppend(before, block);
    AppendAssoc(urls0, Render(before), Render(block));
  }

  lemma AppendAssoc<T>(a: seq<T>, b: seq<T>, c: seq<T>)
    ensures (a + b) + c == a + (b + c)
  {
  }

  /** One round of the outer loop of the second pair. */
  lemma PostRound(urls0: seq<string>, mid: seq<string>, urls: seq<string>, langs: seq<string>, i: int,
                  posts: seq<Post>, date: string)
    requires 0 <= i < |langs|
    requires mid == urls0 + Render(PostEntries(langs[..i], posts, date))
    requires urls == mid + Render(PostBlock(langs[i], posts, date))
    ensures urls == urls0 + Render(PostEntries(langs[..i + 1], posts, date))
  {
    assert langs[..i + 1][..i] == langs[..i];
    RenderRound(urls0, mid, urls, PostEntries(langs[..i], posts, date), PostBlock(langs[i], posts, date));
  }

  /** The inner loop of the first pair: the static pages of one language. */
  method AddStaticBlock(urls0: seq<string>, lang: string, currentDate: string) returns (urls: seq<string>)
    ensures urls == urls0 + Render(StaticBlock(lang, currentDate))
  {
    ghost var block := StaticBlock(lang, currentDate);
    urls := urls0;
    for j := 0 to |StaticPages|
      invariant urls == urls0 + Render(block[..j])
    {
      var page := StaticPages[j];
      var path := if page == "" then "/" + lang else "/" + lang + "/" + page;
      var priority := if page == "" then "1.0" else "0.8";
      RenderSnoc(block[..j], block[j]);
      assert block[..j + 1] == block[..j] + [block[j]];
      urls := urls + [GenerateUrl(UrlEntry(SiteUrl + path, currentDate, "monthly", priority))];
    }
    assert block[..|StaticPages|] == block;
  }

  /** The second loop pair: every post in every language. */
  method AddPostUrls(urls0: seq<string>, langs: seq<string>, posts: seq<Post>, currentDate: string) returns (urls: seq<string>)
    ensures urls == urls0 + Render(PostEntries(langs, posts, currentDate))
  {
    urls := urls0;
    for i := 0 to |langs|
      invariant urls == urls0 + Render(PostEntries(langs[..i], posts, currentDate))
    {
      ghost var mid := urls;
      urls := AddPostBlock(urls, langs[i], posts, currentDate);
      PostRound(urls0, mid, urls, langs, i, posts, currentDate);
    }
    assert langs[..|langs|] == langs;
  }

  /** The inner loop of the second pair: every post in one language. */
  method AddPostBlock(urls0: seq<string>, lang: string, posts: seq<Post>, currentDate: string) returns (urls: seq<string>)
    ensures urls == urls0 + Render(PostBlock(lang, posts, currentDate))
  {
    ghost var block := PostBlock(lang, posts, currentDate);
    urls := urls0;
    for j := 0 to |posts|
      invariant urls == urls0 + Render(block[..j])
    {
      var post := posts[j];
      RenderSnoc(block[..j], block[j]);
      assert block[..j + 1] == block[..j] + [block[j]];
      urls := urls + [GenerateUrl(UrlEntry(SiteUrl + "/" + lang + "/news/" + post.id, currentDate, "weekly", "0.6"))];
    }
    assert block[..|posts|] == block;
  }

  const XmlHead := "<?xml version=\"1.0\" encoding=\"UTF-8\"?>\n<urlset xmlns=\"http://www.sitemaps.org/schemas/sitemap/0.9\">\n"
  const XmlTail := "\n</urlset>"

  /** The document: the XML declaration, the `<urlset>` element and the entries
      joined by newlines. */
  function Document(urls: seq<string>): (xml: string)
    ensures StartsWith(xml, XmlHead) && EndsWith(xml, XmlTail)
    ensures xml == XmlHead + JoinWith(urls, "\n") + XmlTail
  {
    var xml := XmlHead + JoinWith(urls, "\n") + XmlTail;
    assert xml[..|XmlHead|] == XmlHead;
    assert xml[|xml| - |XmlTail|..] == XmlTail;
    xml
  }

  /** `generateSitemap()` with the posts file's contents and today's date as inputs. */
  method GenerateSitemap(posts: seq<Post>, currentDate: string) returns (xml: string)
    ensures xml == Document(Render(AllEntries(posts, currentDate)))
  {
    var urls := CollectUrls(posts, currentDate);
    xml := Document(urls);
  }

  // ---------------------------------------------------------------------------
  // Properties of the entries

  /** The three language blocks, seen from the top. */
  lemma Unfold3(posts: seq<Post>, date: string)
    ensures StaticEntries(SitemapLanguages, date)
         == StaticBlock("ua", date) + StaticBlock("en", date) + StaticBlock("de", date)
    ensures PostEntries(SitemapLanguages, posts, date)
         == PostBlock("ua", posts, date) + PostBlock("en", posts, date) + PostBlock("de", posts, date)
  {
    var l := SitemapLanguages;
    assert l[..2] == ["ua", "en"] && ["ua", "en"][..1] == ["ua"] && ["ua"][..0] == [];
    assert StaticEntries(["ua"], date) == StaticBlock("ua", date);
    assert StaticEntries(["ua", "en"], date) == StaticBlock("ua", date) + StaticBlock("en", date);
    assert PostEntries(["ua"], posts, date) == PostBlock("ua", posts, date);
    assert PostEntries(["ua", "en"], posts, date) == PostBlock("ua", posts, date) + PostBlock("en", posts, date);
  }

  /** There are `3 * 6` static entries and `3 * |posts|` post entries. */
  lemma EntryCount(posts: seq<Post>, date: string)
    ensures |AllEntries(posts, date)| == 18 + 3 * |posts|
  {
    Unfold3(posts, date);
  }

  /** The static entries come first: language `i` of `ua`, `en`, `de` and page
      `j` of the static pages is entry `6 * i + j`. */
  lemma StaticEntryAt(posts: seq<Post>, date: string, i: int, j: int)
    requires 0 <= i < 3 && 0 <= j < 6
    ensures 6 * i + j < |AllEntries(posts, date)|
    ensures AllEntries(posts, date)[6 * i + j] == StaticEntry(SitemapLanguages[i], StaticPages[j], date)
  {
    Unfold3(posts, date);
    var all := AllEntries(posts, date);
    var a, b, c := StaticBlock("ua", date), StaticBlock("en", date), StaticBlock("de", date);
    assert all[..18] == a + b + c;
    if i == 0 {
      assert all[j] == a[j];
    } else if i == 1 {
      assert all[6 + j] == b[j];
    } else {
      assert all[12 + j] == c[j];
    }
  }

  /** The post entries follow, language by language: post `j` in language `i` is
      entry `18 + |posts| * i + j`. */
  lemma PostEntryAt(posts: seq<Post>, date: string, i: int, j: int)
    requires 0 <= i < 3 && 0 <= j < |posts|
    ensures 18 + |posts| * i + j < |AllEntries(posts, date)|
    ensures AllEntries(posts, date)[18 + |posts| * i + j] == PostEntry(SitemapLanguages[i], posts[j], date)
  {
    Unfold3(posts, date);
    var all := AllEntries(posts, date);
    var a, b, c := PostBlock("ua", posts, date), PostBlock("en", posts, date), PostBlock("de", posts, date);
    assert all[18..] == a + b + c;
    PickBlock(a, b, c, i, j);
    assert all[18 + |posts| * i + j] == (a + b + c)[|posts| * i + j];
  }

  /** Entry `j` of block `i` among three blocks of equal length. */
  lemma PickBlock<T>(a: seq<T>, b: seq<T>, c: seq<T>, i: int, j: int)
    requires |a| == |b| == |c| && 0 <= i < 3 && 0 <= j < |a|
    ensures |a| * i + j < |a + b + c|
    ensures (a + b + c)[|a| * i + j] == (if i == 0 then a[j] else if i == 1 then b[j] else c[j])
  {
    var n := |a|;
    if i == 0 {
      assert n * i == 0;
    } else if i == 1 {
      assert n * i == n;
    } else {
      assert n * i == n + n;
    }
  }

  /** Every entry carries the same `lastmod`, the date of the run. */
  lemma SameLastmod(posts: seq<Post>, date: string)
    ensures forall k :: 0 <= k < |AllEntries(posts, date)| ==> AllEntries(posts, date)[k].lastmod == date
  {
    Unfold3(posts, date);
  }

  /** The first eighteen entries are the monthly static pages at priority 1.0 or
      0.8; every entry after them is a weekly post at priority 0.6. */
  lemma EntrySchedules(posts: seq<Post>, date: string)
    ensures forall k :: 0 <= k < 18 && k < |AllEntries(posts, date)| ==>
      AllEntries(posts, date)[k].changefreq == "monthly" &&
      (AllEntries(posts, date)[k].priority == "1.0" || AllEntries(posts, date)[k].priority == "0.8")
    ensures forall k :: 18 <= k < |AllEntries(posts, date)| ==>
      AllEntries(posts, date)[k].changefreq == "weekly" && AllEntries(posts, date)[k].priority == "0.6"
  {
    Unfold3(posts, date);
    var all := AllEntries(posts, date);
    assert all[..18] == StaticEntries(SitemapLanguages, date);
    assert all[18..] == PostEntries(SitemapLanguages, posts, date);
    forall k | 18 <= k < |all|
      ensures all[k].changefreq == "weekly" && all[k].priority == "0.6"
    {
      assert all[k] == all[18..][k - 18];
    }
  }

  /** Every static entry points at a route of the site: the root of its language
      for the empty page, and that page below it otherwise. */
  lemma StaticLocsAreRoutes(lang: string, page: string, date: string)
    requires IsSegment(lang) && page in StaticPages
    ensures var e := StaticEntry(lang, page, date);
      && StartsWith(e.loc, SiteUrl)
      && MatchRoute(e.loc[|SiteUrl|..]).Localized?
      && MatchRoute(e.loc[|SiteUrl|..]).lang == lang
      && (MatchRoute(e.loc[|SiteUrl|..]).page == Home <==> page == "")
      && (e.priority == "1.0" <==> page == "")
  {
    var e := StaticEntry(lang, page, date);
    var p := if page == "" then Home else StaticPage(page).value;
    if page == "" {
      assert e.loc == SiteUrl + PagePath(lang, Home);
    } else {
      assert StaticPage(page).Some?;
      PagePathBelowLocale(lang, p);
      assert PageSegments(p) == [page];
      assert e.loc == SiteUrl + PagePath(lang, p);
    }
    assert e.loc[|SiteUrl|..] == PagePath(lang, p);
    MatchPagePath(lang, p);
  }

  /** Every post entry points at the post's page, provided the id is one segment. */
  lemma PostLocsAreRoutes(lang: string, post: Post, date: string)
    requires IsSegment(lang) && IsSegment(post.id)
    ensures var e := PostEntry(lang, post, date);
      StartsWith(e.loc, SiteUrl) && MatchRoute(e.loc[|SiteUrl|..]) == Localized(lang, NewsPost(post.id))
  {
    var e := PostEntry(lang, post, date);
    PagePathBelowLocale(lang, NewsPost(post.id));
    assert ["news", post.id][1..] == [post.id];
    assert JoinWith(["news", post.id], "/") == "news" + "/" + post.id;
    assert e.loc == SiteUrl + PagePath(lang, NewsPost(post.id));
    assert e.loc[|SiteUrl|..] == PagePath(lang, NewsPost(post.id));
    MatchPagePath(lang, NewsPost(post.id));
  }
}
