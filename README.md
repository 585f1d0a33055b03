# Neusatz site core, modelled in Dafny

This project models the logic of the Neusatz NGO website. The site is a
React single-page application in three languages (`ua`, `en`, `de`), with a
news section fed from a preprocessed export of social-media posts. Two
build-time scripts belong to the site: one preprocesses that export, the
other writes the sitemap. The model covers:

- **Posts** (`posts.dfy`) is the post service. It covers loading the
  snapshot, the text search, excerpts, and pagination with its clamping and
  its failure result.
- **News** (`news.dfy`) is the listing page:
  - the compressed page bar (a loop method proved against its specification);
  - the listing controller as a class whose fields are the component's
    state and the URL `page` parameter; its handlers write the `?page=`
    query through the shared router, one history entry each;
  - the result texts with JavaScript's `replace` semantics.
- **Routing** (`routing.dfy`) is the route table of `App.tsx` and the locale
  wrapper. It is a `Router` class holding the browser history, each entry a
  pathname with its query string, and the active language. There are redirects to `/ua`, replace and push navigation, and
  the proof that at most two rounds of rendering settle the router.
- **SiteLayout** (`layout.dfy`) is the language switcher and the mobile
  menu. It includes the proof that switching languages keeps the page and
  that switching back restores the path.
- **NewsPostPage** (`newspost.dfy`) is the post page:
  - loading a post with its neighbours and related posts (a class);
  - paragraphs, and the URL split of `text.split(/(https?:\/\/[^\s]+)/g)`
    specified by the split's output: the leftmost match running greedily
    to the next whitespace;
  - the link to another post, and the image fallback.
- **ProjectsPage** (`projects.dfy`) is the category filter and the status
  badges of the projects page.
- **Seo** (`seo.dfy`) builds the head tags: title, canonical URL, the
  `hreflang` alternates with `x-default`, and the Open Graph locale.
- **Sitemap** (`sitemap.dfy`) is the sitemap generator in the format of the
  Sitemap protocol 0.9. Its nested loops are proved against a specification
  of the entry list. The lemmas cover the entry layout and count, that every
  entry's address resolves to a route of the site, and that an entry can be
  read back, which makes the template injective.
- **Preprocess** (`preprocess.dfy`) is the Python preprocessing script:
  - text and image extraction as loop methods with early returns;
  - keeping posts with enough text and naming them `fb-{timestamp}-{index}`;
  - the stable newest-first sort and the optional limit;
  - proofs that the output is ordered, has distinct ids, is stable for
    equal timestamps, and keeps only substantial posts.
- **Common** and **Languages** hold shared definitions. Common models the
  JavaScript and Python library behaviour the code relies on:
  - `String.prototype.replace` with a string pattern, including the
    expansion of `$&`, `` $` ``, `$'` and `$$` in the replacement;
  - `indexOf`/`includes`;
  - `split`/`join` with a string separator;
  - `slice` with negative bounds;
  - `trim` blankness;
  - `toString` of integers.

Loaded data, the current date and library routines without a useful
definition are parameters:
- a fetch of the posts file is an `Option<seq<Post>>`, where `None` is a
  failed request or an unreadable body;
- `toLowerCase` and `lower()` are a `string -> string` parameter;
- the Latin-1/UTF-8 text repair and the date formatting are also parameters.

Two behaviours of the code are easy to misread:
- The locale wrapper renders its children on the first render. It only
  redirects afterwards, in an effect. Page content is therefore not gated
  on a valid locale. The model has no rendering, and `Router.Resolve` is
  the effect alone.
- An unknown locale redirects to `/ua` itself. The rest of the path is dropped (`/xx/projects` goes to `/ua`), as the wrapper's effect does.

## Model

| member | source | states |
|---|---|---|
| Posts.LoadFacebookPosts | services/facebookPostsService.ts:23-42 | the first `limit` posts of the snapshot (negative limits drop from the end), none on a failed load |
| Posts.TotalPostCount | services/facebookPostsService.ts:90-104 | the number of posts, 0 on a failed load |
| Posts.FindIndexById | services/facebookPostsService.ts:121 | the first index holding the id, -1 exactly when no post has it |
| Posts.GetPostById | services/facebookPostsService.ts:112-128 | the first post with the id; `None` exactly when none has it or the load fails |
| Posts.SearchPosts | services/facebookPostsService.ts:51-60 | a blank term returns the posts unchanged; otherwise every result matches, and there are never more results than posts |
| Posts.SearchPostsSelectsMatches | services/facebookPostsService.ts:56-59 | for a non-blank term the result is an ordered subsequence holding exactly the matching posts, each as many times as in the input |
| Posts.TruncateText | services/facebookPostsService.ts:69-83 | text that fits is unchanged; otherwise a prefix cut at the last space after index 0 within `maxLength` (or at `maxLength`) plus `...`, at most `maxLength + 3` long |
| Posts.CeilDiv | services/facebookPostsService.ts:155 | `Math.ceil(n / d)`: the least `r` with `n <= r * d` |
| Posts.ClampPage | services/facebookPostsService.ts:158 | the page lies in `[1, max(totalPages, 1)]`, a page in range is kept, out-of-range pages go to the nearest bound |
| Posts.Paginate | services/facebookPostsService.ts:153-172 | total counts, page count bounds, clamped page, and the posts are the slice `[(page-1)*perPage, page*perPage)`, at most `perPage` of them |
| Posts.GetPaginatedPosts | services/facebookPostsService.ts:137-183 | a loaded snapshot gives `Paginate`; a failed load gives no posts, 0 pages, 0 posts and the requested page unclamped |
| Posts.PageInRange | services/facebookPostsService.ts:161-165 | page `k` in range starts inside the list and holds items `(k-1)*perPage` up to `k*perPage` |
| Posts.PagesUpToIsPrefix | services/facebookPostsService.ts:161-165 | pages 1..k concatenated are the first `k * perPage` items |
| Posts.PagesPartitionItems | services/facebookPostsService.ts:155-165 | pages 1..totalPages concatenated give back the whole list |
| Posts.PagesInRangeAreFilled | services/facebookPostsService.ts:155-165 | every page in range is non-empty and every page but the last is full |
| News.PageMarkers | pages/News.tsx:103-129 | the bar as a value, with one branch per shape of `getPageNumbers`: seven pages or fewer, near the start, near the end, in the middle. GetPageNumbers, PageMarkersWellFormed, CurrentPageShown and EllipsisHidesPages carry its properties |
| News.GetPageNumbers | pages/News.tsx:103-129 | the loop builds exactly `PageMarkers`: `1..totalPages` up to seven pages, otherwise `[1,2,3,4,…,T]` near the start, `[1,…,T-3,T-2,T-1,T]` near the end and `[1,…,c-1,c,c+1,…,T]` between |
| News.PageMarkersWellFormed | pages/News.tsx:112-126 | with more than seven pages: 6 or 7 entries, first page 1, last page last, numbers in range and strictly increasing, no two ellipses adjacent |
| News.CurrentPageShown | pages/News.tsx:103-129 | a current page in range appears in the bar |
| News.EllipsisHidesPages | pages/News.tsx:118-124 | every ellipsis sits between two numbers that skip at least one page |
| News.FormatResultsText | pages/News.tsx:132-143 | as written: the count sentence alone for an empty term, otherwise the count sentence, a space and then exactly the query sentence with the term put in by `replace` (so `$` patterns expand) |
| News.ResultsCountIsLiteral | pages/News.tsx:134-136 | the counts are inserted verbatim, since digits hold no `$` |
| News.QueryPlaceholderAt | constants.ts:85 | the English query sentence has its placeholder at index 5 |
| News.QueryDollarPatternShowsPlaceholder | pages/News.tsx:137-138 | as written, searching for `$&` shows `for "{query}"` instead of the term |
| News.QueryDollarPatternIntended | pages/News.tsx:137 | with literal insertion, searching for `$&` shows `for "$&"` |
| News.FormatResultsTextIntended | pages/News.tsx:132-143 | corrected: the query sentence has the term inserted literally |
| News.IntendedQueryShowsTerm | pages/News.tsx:137 | with literal insertion the term appears exactly where the placeholder was, and the text before it is kept |
| News.FormattingAgreesWithoutDollar | pages/News.tsx:132-143 | as written and corrected agree on every term without `$` |
| News.FormatPageOf | pages/News.tsx:146-150 | the page indicator is `pageOf` with both numbers inserted literally |
| News.NewsController.constructor | pages/News.tsx:14-23 | the initial state: nothing loaded, loading, zero counts, the URL page |
| News.NewsController.LoadAllPosts | pages/News.tsx:26-42 | a successful load stores all posts and their count; a failed one changes nothing |
| News.NewsController.ShouldFetch | pages/News.tsx:78 | the effect's guard: the posts are loaded or the term trims to empty. RefreshPosts does nothing exactly when it fails |
| News.NewsController.RefreshPosts | pages/News.tsx:45-81 | runs exactly when posts are loaded or the term is blank; a search pages the local matches and otherwise the service's page is shown; loading ends |
| News.NewsController.ShowSearchPage | pages/News.tsx:49-62 | the displayed page and counts are the service's pagination of the matches, computed locally |
| News.NewsController.ShowServicePage | pages/News.tsx:63-69 | the displayed page and counts are the service result |
| News.NewsController.HandleSearchChange | pages/News.tsx:84-89 | the term is set and the URL page becomes 1; only when it was not 1 is `?page=1` pushed as a new history entry on the same pathname, otherwise the history is untouched |
| News.NewsController.HandlePageChange | pages/News.tsx:92-95 | the URL page becomes the chosen page, and `?page=N` is pushed as a new history entry on the same pathname; nothing else changes |
| News.SearchThenRefresh | pages/News.tsx:45-89 | after a new non-blank search the listing shows the first eight matches on page 1 |
| Languages.ParseLanguage | App.tsx:24-25 | a segment names a language exactly when it is `ua`, `en` or `de`, and then its code is the segment |
| Languages.ParseCode | App.tsx:24-25 | every language code is recognised as that language |
| Languages.CodeIsSegment | App.tsx:42 | every code is one path segment |
| Routing.Segments | App.tsx:40-52 | the path's segments are non-empty and free of `/` |
| Routing.StaticPage | App.tsx:44-49 | the fixed child paths name pages other than home and post |
| Routing.MatchRoute | App.tsx:40-52 | the route of a pathname is the match of its segments. MatchPagePath, DefaultPathResolves and RootRedirects state what it gives |
| Routing.MatchSegments | App.tsx:40-52 | only `/` is the root redirect; a localized match keeps the first segment as `:lang` and the rest as the page's path |
| Routing.MatchPagePath | App.tsx:42-50 | every link the site builds for a page under a locale resolves to that page under that locale |
| Routing.PagePathSegments | App.tsx:42-50 | a page's path splits back into its locale and page segments |
| Routing.PagePathBelowLocale | App.tsx:44-49 | every page but the home page lies below `/{lang}` |
| Routing.DefaultPathResolves | App.tsx:28 | the redirect target `/ua` resolves to the Ukrainian home page |
| Routing.RootRedirects | App.tsx:41 | `/` is the root redirect |
| Routing.Router.constructor | App.tsx:39 | a page load starts a one-entry history holding the loaded pathname and query string |
| Routing.Router.Navigate | App.tsx:28 | navigating to a pathname leaves no query string; a push appends the entry, a replace overwrites the current one |
| Routing.Router.SetSearchParams | pages/News.tsx:87-93 | `setSearchParams` pushes an entry with the current pathname and the new query string |
| Routing.Router.SyncLanguage | App.tsx:23-30 | a known locale sets the language without navigating; anything else replaces the location with `/ua` |
| Routing.Router.Resolve | App.tsx:23-30 | one render: redirect routes replace the location with `/ua`; a localized route runs the locale effect |
| Routing.Router.RenderDefault | App.tsx:23-30 | the render after a redirect to `/ua` activates `ua` and does not navigate |
| Routing.Router.Settle | App.tsx:23-51 | after at most two rounds the location is a localized route whose locale is the active language; the history has not grown and is untouched when it was already valid |
| SiteLayout.SwitchTarget | components/Layout.tsx:16-19 | the target of `toggleLanguage`: `/` + the new code + the current path. SwitchFromRoot, SwitchKeepsRest, SwitchRoundTrip and SwitchKeepsPage carry its properties |
| SiteLayout.CurrentPath | components/Layout.tsx:16 | the current path is never empty |
| SiteLayout.StripLocalePrefix | components/Layout.tsx:16 | below a locale prefix the current path is the rest of the pathname |
| SiteLayout.LocaleRootPath | components/Layout.tsx:16 | at the locale root the current path is `/` |
| SiteLayout.SwitchFromRoot | components/Layout.tsx:16-21 | switching from a locale root goes to the new locale's root with a trailing `/` |
| SiteLayout.SwitchKeepsRest | components/Layout.tsx:16-21 | switching keeps everything after the locale (`/de/news/42` becomes `/en/news/42`) |
| SiteLayout.SwitchRoundTrip | components/Layout.tsx:16-21 | switching to another language and back restores the path |
| SiteLayout.TrailingSlashIsHome | components/Layout.tsx:19 | `/{lang}/` still resolves to the home page |
| SiteLayout.SwitchKeepsPage | components/Layout.tsx:16-21 | from any page the switch target resolves to the same page under the new locale |
| SiteLayout.Layout.constructor | components/Layout.tsx:13 | the menu starts closed |
| SiteLayout.Layout.ToggleLanguage | components/Layout.tsx:18-21 | pushes the switch target, built from the pathname alone so any query string is dropped, and closes the menu |
| SiteLayout.Layout.ToggleMobileMenu | components/Layout.tsx:76 | the menu button flips the menu flag |
| SiteLayout.Layout.FollowNavLink | components/Layout.tsx:44-52 | a header link goes to the page's path with no query string. It replaces the entry only when the whole current location (pathname and query string) equals that target, and pushes otherwise, so from `/ua/news?page=3` the news link pushes. The language is unchanged |
| SiteLayout.Layout.FollowMobileLink | components/Layout.tsx:87-92 | a mobile link navigates as a header link does (replace only when the whole current location is the target, push otherwise) and closes the menu |
| SiteLayout.SwitchThenSettle | components/Layout.tsx:18-21 | after a switch the router settles on the same page with the new language active and does not navigate again |
| NewsPostPage.RelatedPosts | pages/NewsPost.tsx:69-71 | the related posts are the first four posts with another id |
| NewsPostPage.RelatedPostsProperties | pages/NewsPost.tsx:69-71 | related posts never include the post, keep list order, and number four unless fewer others exist |
| NewsPostPage.OthersCount | pages/NewsPost.tsx:70 | the other posts are the list minus the posts carrying the id |
| NewsPostPage.FindOwnIndex | pages/NewsPost.tsx:52 | with distinct ids, looking up a post's id finds its own index |
| NewsPostPage.FirstUrl | pages/NewsPost.tsx:87-88 | the first place at or after `from` where the URL pattern matches, or -1 when there is none |
| NewsPostPage.UrlEnd | pages/NewsPost.tsx:87 | the greedy `[^\s]+` ends at the first whitespace or at the end of the text |
| NewsPostPage.NextUrl | pages/NewsPost.tsx:87-88 | the leftmost match: it starts where the pattern first matches, begins with the scheme, holds no whitespace and ends at whitespace or the end; `None` exactly when the pattern matches nowhere |
| NewsPostPage.SchemeNotWhitespace | pages/NewsPost.tsx:87 | the scheme of a match and the character after it are not whitespace |
| NewsPostPage.LinkParts | pages/NewsPost.tsx:86-105 | `linkifyText`: the pieces of `split` with the capturing URL pattern, each tagged as a link or as text. LinkPartsStep, LinkPartsConcat, LinkPartsAlternate, LinkPartsLinks and LinkPartsTextsHaveNoUrl carry its properties |
| NewsPostPage.LinkPartsStep | pages/NewsPost.tsx:88 | one split step: text before the match, the match, then the split of the rest |
| NewsPostPage.LinkPartsConcat | pages/NewsPost.tsx:88-105 | the pieces concatenate back to the paragraph |
| NewsPostPage.LinkPartsAlternate | pages/NewsPost.tsx:88-105 | pieces alternate between text and link, starting and ending with text |
| NewsPostPage.LinkPartsLinks | pages/NewsPost.tsx:87-103 | every link piece matches the URL pattern at its start (a scheme and at least one more character), holds no whitespace and is followed by text that is empty or starts with whitespace |
| NewsPostPage.PrefixOfFirstPart | pages/NewsPost.tsx:88 | the first piece is text and a prefix of the paragraph |
| NewsPostPage.UrlInPrefix | pages/NewsPost.tsx:87 | a match inside a prefix is a match in the whole text |
| NewsPostPage.LinkPartsTextsHaveNoUrl | pages/NewsPost.tsx:91-104 | no text piece contains a match, so links are exactly the matched pieces |
| NewsPostPage.Paragraphs | pages/NewsPost.tsx:110 | the `\n\n` pieces that do not trim to empty, in order. ParagraphsOfText carries its properties |
| NewsPostPage.ParagraphsOfText | pages/NewsPost.tsx:110 | paragraphs are exactly the non-blank `\n\n` pieces in order, each as often as it occurs, none contains `\n\n`, and the pieces rebuild the text |
| NewsPostPage.FormatText | pages/NewsPost.tsx:109-117 | one rendered paragraph per paragraph, each being `LinkParts` of that paragraph: its pieces alternate text and links and concatenate back to it |
| NewsPostPage.FormatTextPieces | pages/NewsPost.tsx:86-117 | in the rendered body every link piece is a match of the URL pattern ending at whitespace or at the paragraph's end, and no text piece contains a match |
| NewsPostPage.NewsPostPath | pages/NewsPost.tsx:135-137 | the link is `/` + the language code + `/news/` + the id, and for an id that is one path segment it resolves to that post under the active language |
| NewsPostPage.GetImageUrl | pages/NewsPost.tsx:140-142 | the post's image when present and non-empty, otherwise the default image; the listing's copy in pages/News.tsx:98-100 is the same |
| NewsPostPage.PostDetail.constructor | pages/NewsPost.tsx:14-22 | the page starts loading with nothing found |
| NewsPostPage.PostDetail.FetchPost | pages/NewsPost.tsx:24-83 | a missing id or unknown post is not found and nothing else changes; otherwise the post is shown, and when it is among the first hundred its neighbours and related posts are set; loading ends |
| NewsPostPage.PostDetail.ShowNeighbours | pages/NewsPost.tsx:52-72 | at index `i` of the list: the newer neighbour is `list[i-1]` or none, the older `list[i+1]` or none, and the related posts are set; a post not in the list changes nothing |
| NewsPostPage.PostDetail.NavigatePost | pages/NewsPost.tsx:135-137 | pushes the post's path under the active language |
| NewsPostPage.NeighboursAreMutual | pages/NewsPost.tsx:52-66 | with distinct ids, the newer neighbour of the older neighbour is the post itself |
| ProjectsPage.FilteredProjects | pages/Projects.tsx:14-16 | `All` shows every project; a category shows only projects of that category |
| ProjectsPage.FilterSelectsCategory | pages/Projects.tsx:14-16 | under a category, a project is shown exactly when it has that category, in order |
| ProjectsPage.UnlistedCategoryOnlyUnderAll | pages/Projects.tsx:12-16 | a project whose category has no button shows only under `All` |
| ProjectsPage.StatusColor | pages/Projects.tsx:18-25 | the default badge exactly for unknown statuses |
| ProjectsPage.StatusColorsDistinct | pages/Projects.tsx:19-22 | the three known statuses get three different badges |
| ProjectsPage.LocalizedStatus | pages/Projects.tsx:27-31 | a known status shows its label unless the label is empty; anything else shows the raw status |
| ProjectsPage.ProjectsView.constructor | pages/Projects.tsx:10 | the page opens on `All` |
| ProjectsPage.ProjectsView.SetFilter | pages/Projects.tsx:50 | a button sets the filter |
| Seo.FullTitle | components/SEO.tsx:28 | the title followed by ` \| Neusatz` |
| Seo.Hreflang | components/SEO.tsx:31-35 | `hreflangMap`: `uk`, `en`, `de`. LanguageCodes shows the map is injective and never `x-default` |
| Seo.OgLocale | components/SEO.tsx:38-42 | `localeMap`: `uk_UA`, `en_US`, `de_DE`. LanguageCodes shows each is the hreflang code, `_` and a territory |
| Seo.LanguageCodes | components/SEO.tsx:31-42 | the `hreflang` and locale maps are injective; each locale is the code, `_` and a territory; no code is `x-default` |
| Seo.LocalizedUrl | components/SEO.tsx:45 | the address is the base URL, `/`, the language code and the path, one after another (prefix, suffix and total length) |
| Seo.CanonicalUrl | components/SEO.tsx:45 | `canonicalUrl` is the localized address of the page's path. HreflangLinksProperties and HeadIsSelfConsistent show it is among the alternates under the page's language |
| Seo.HreflangLinks | components/SEO.tsx:48-60 | four links: one per language in order `ua`, `en`, `de`, then `x-default` to the Ukrainian page |
| Seo.HreflangLinksProperties | components/SEO.tsx:48-60 | distinct `hreflang` keys; `x-default` equals the Ukrainian alternate; each language's canonical URL is its alternate |
| Seo.OrDefault | components/SEO.tsx:21-22 | an omitted property takes its default |
| Seo.Head | components/SEO.tsx:62-89 | the head's language, title, canonical and `og:url`, alternates, image, type and locale |
| Seo.HeadIsSelfConsistent | components/SEO.tsx:45-70 | the alternate in the page's own language is the canonical URL under the page's `html lang` |
| Sitemap.GenerateUrl | scripts/generate-sitemap.ts:21-33 | the `<url>` template with its four fields. ParseGenerateUrl and ReadFieldBack prove it reads back, so it is injective on `<`-free fields |
| Sitemap.UpToTag | scripts/generate-sitemap.ts:27-32 | the longest `<`-free prefix |
| Sitemap.ReadFieldBack | scripts/generate-sitemap.ts:27-32 | a `<`-free field followed by its closing markup reads back |
| Sitemap.ParseGenerateUrl | scripts/generate-sitemap.ts:21-33 | an entry with `<`-free fields is read back from its `<url>` element, so the template is injective on such entries |
| Sitemap.StaticBlock | scripts/generate-sitemap.ts:41-53 | one entry per static page |
| Sitemap.PostBlock | scripts/generate-sitemap.ts:63-72 | one entry per post |
| Sitemap.Render | scripts/generate-sitemap.ts:45-71 | one `<url>` element per entry, in order |
| Sitemap.RenderAppend | scripts/generate-sitemap.ts:45-71 | rendering distributes over concatenation |
| Sitemap.CollectUrls | scripts/generate-sitemap.ts:37-73 | the loops collect the rendering of every entry, static entries first |
| Sitemap.AddStaticUrls | scripts/generate-sitemap.ts:40-54 | the first loop pair appends the static entries of every language |
| Sitemap.AddStaticBlock | scripts/generate-sitemap.ts:41-53 | the inner loop appends the static entries of one language |
| Sitemap.AddPostBlock | scripts/generate-sitemap.ts:63-72 | the inner loop appends the post entries of one language |
| Sitemap.AddPostUrls | scripts/generate-sitemap.ts:62-73 | the second loop pair appends the post entries of every language |
| Sitemap.Document | scripts/generate-sitemap.ts:76-79 | the document starts with the XML declaration and `<urlset>`, ends with `</urlset>`, and holds the elements joined by newlines |
| Sitemap.GenerateSitemap | scripts/generate-sitemap.ts:35-82 | the document of all entries for the posts and the date |
| Sitemap.Unfold3 | scripts/generate-sitemap.ts:40-73 | the entries are the `ua`, `en` and `de` blocks in that order |
| Sitemap.EntryCount | scripts/generate-sitemap.ts:40-73 | `3 * 6 + 3 * |posts|` entries |
| Sitemap.StaticEntryAt | scripts/generate-sitemap.ts:40-54 | entry `6i + j` is static page `j` of language `i` |
| Sitemap.PostEntryAt | scripts/generate-sitemap.ts:62-73 | entry `18 + |posts| i + j` is post `j` in language `i` |
| Sitemap.EntrySchedules | scripts/generate-sitemap.ts:40-73 | the eighteen static entries are monthly at priority 1.0 or 0.8; every post entry is weekly at priority 0.6 |
| Sitemap.SameLastmod | scripts/generate-sitemap.ts:36-69 | every entry carries the run's date |
| Sitemap.StaticLocsAreRoutes | scripts/generate-sitemap.ts:42-47 | a static entry's address resolves to its page under its language; the home page exactly when priority is 1.0 |
| Sitemap.PostLocsAreRoutes | scripts/generate-sitemap.ts:66 | a post entry's address resolves to that post's page |
| Preprocess.FirstSome | scripts/process-facebook-posts.py:28-31 | the first element's result in order, `None` exactly when every element gives none |
| Preprocess.PostTextIsFirst | scripts/process-facebook-posts.py:26-31 | the text of the first entry with a non-empty `post`, repaired; `None` exactly when no entry has one |
| Preprocess.ExtractPostText | scripts/process-facebook-posts.py:26-31 | the loop with early return computes that text |
| Preprocess.ExtractImageUrl | scripts/process-facebook-posts.py:33-59 | the nested loops return the image of the first attachment entry that gives one |
| Preprocess.FileNameAfterSlash | scripts/process-facebook-posts.py:45 | `split('/')[-1]` is the text after the last `/` |
| Preprocess.FileNameHasNoSlash | scripts/process-facebook-posts.py:45 | a file name holds no `/` |
| Preprocess.MediaImage | scripts/process-facebook-posts.py:39-51 | the image of a media `uri`. LocalImage, RemoteImage and EntryImageForm carry its properties |
| Preprocess.LocalImage | scripts/process-facebook-posts.py:43-47 | a relative media path to an image file maps to `/images/posts/{filename}` |
| Preprocess.RemoteImage | scripts/process-facebook-posts.py:50-51 | an `http` media address is used as it is, whatever the external link |
| Preprocess.EntryImage | scripts/process-facebook-posts.py:39-58 | the image of one attachment entry: its media first, then an external link with an image extension. EntryImageForm carries its properties |
| Preprocess.EntryImageForm | scripts/process-facebook-posts.py:39-58 | an entry's image is a local image file, an `http` address, or a link mentioning an image extension |
| Preprocess.ImageUrlForm | scripts/process-facebook-posts.py:33-59 | every image found has one of those three forms |
| Preprocess.NoImage | scripts/process-facebook-posts.py:33-59 | when no attachment entry gives an image, the result is `None` |
| Preprocess.Kept | scripts/process-facebook-posts.py:82-104 | the list after the loop: the records of the raw posts with substantial text, in export order. KeptLast, KeptMembers, KeptTexts and KeptDistinct carry its properties |
| Preprocess.KeptLast | scripts/process-facebook-posts.py:83-104 | the last raw post adds at most its own record |
| Preprocess.KeptMembers | scripts/process-facebook-posts.py:83-104 | a post is kept exactly when it is the record of a raw post with substantial text |
| Preprocess.KeptTexts | scripts/process-facebook-posts.py:87-89 | every kept post has non-empty text of at least `min_text_length` characters |
| Preprocess.PostId | scripts/process-facebook-posts.py:97 | `fb-{timestamp}-{i}`. PostIdsDiffer and PostIdIsSegment carry its properties |
| Preprocess.PostIdsDiffer | scripts/process-facebook-posts.py:97 | ids of different positions differ, whatever the timestamps |
| Preprocess.PostIdIsSegment | scripts/process-facebook-posts.py:97 | an id is one path segment |
| Preprocess.KeptDistinct | scripts/process-facebook-posts.py:83-104 | the kept posts have distinct ids |
| Preprocess.InsertByTime | scripts/process-facebook-posts.py:107 | insertion adds exactly the new post |
| Preprocess.InsertKeepsOrder | scripts/process-facebook-posts.py:107 | insertion keeps newest-first order |
| Preprocess.SortNewestFirst | scripts/process-facebook-posts.py:107 | the result is newest first and a permutation of its input |
| Preprocess.InsertStable | scripts/process-facebook-posts.py:107 | insertion keeps the relative order of each timestamp's posts |
| Preprocess.SortStable | scripts/process-facebook-posts.py:107 | the sort is stable: each timestamp's posts keep their order |
| Preprocess.InsertDistinct | scripts/process-facebook-posts.py:107 | insertion keeps ids distinct |
| Preprocess.SortDistinct | scripts/process-facebook-posts.py:107 | sorting keeps ids distinct |
| Preprocess.Limit | scripts/process-facebook-posts.py:110-111 | a prefix: `None` or 0 keep everything; a positive limit keeps that many (or all); a negative one drops that many from the end |
| Preprocess.Output | scripts/process-facebook-posts.py:106-111 | the kept posts, sorted newest first, then limited. ProcessPosts, OutputOrdered, OutputFromKept, OutputComplete and OutputStable carry its properties |
| Preprocess.ProcessPosts | scripts/process-facebook-posts.py:66-111 | the loop, sort and limit compute `Output` |
| Preprocess.OutputOrdered | scripts/process-facebook-posts.py:107-111 | the output is newest first with distinct ids |
| Preprocess.OutputFromKept | scripts/process-facebook-posts.py:83-111 | each output post is the record of a raw post with substantial text |
| Preprocess.OutputComplete | scripts/process-facebook-posts.py:106-111 | without a limit the output holds every kept post |
| Preprocess.DefaultRun | scripts/process-facebook-posts.py:66-111 | the script's own run with its defaults (50 characters, no limit) writes exactly the records of raw posts with text of at least 50 characters |
| Preprocess.OutputStable | scripts/process-facebook-posts.py:107-111 | a timestamp's output posts are the first of that timestamp among the kept posts, in export order |

## Left out

- Network and file access: fetching the posts file, reading and writing in both scripts, and JSON parsing. Loaded data is an argument; a failed load is `None`.
- The two effects of the listing page resolve in any order. Each run is modelled as one synchronous step, and the order is up to the caller.
- Rendering: JSX, class names other than the status badges, scrolling, clipboard, sharing, `window.open`, timers and the emission of Helmet tags.
- `toLowerCase` and `lower()`, the Latin-1/UTF-8 repair `fix_encoding`, `toLocaleDateString`, `datetime.fromtimestamp` and `getCurrentDate`: uninterpreted parameters. The model does not capture Unicode casing.
- `parseInt` of the `page` parameter: the URL page is an integer. The `NaN` of a malformed parameter is not modelled.
- Routing.Router: history entries are a pathname and a query string, with no hash, because the site never writes one. `News.NewsController.urlPage` is the page parsed from the query string when the page mounts; it is a field of its own, not recomputed from the router's location.
- Posts.TruncateText: JavaScript's `length` and `substring` count UTF-16 code units, while the model counts Unicode scalar values (which is what Python's `len` counts in the preprocessing script). A character outside the Basic Multilingual Plane, such as an emoji, counts as two in the source and can be cut in half there. The same applies to the index arithmetic of the URL splitting in `linkifyText` and of `replace`.
- Routing.MatchSegments: empty segments are dropped, so `//` and a trailing `/` are ignored. The router library's own path normalisation, its case-insensitive matching and the percent-decoding of segments are not modelled.
- ProjectsPage.LocalizedStatus: only the three known statuses have labels. A status that names an inherited property of a JavaScript object (such as `constructor`) is treated as unknown and shown as it is.
- Preprocess.SortNewestFirst: `list.sort` works in place; the model computes the sorted list as a value. Only the outcome of the library sort is modelled, not its algorithm.
- Preprocess.DataItem: a `post` or `uri` value that is not a string (which the script would reject) is not modelled. `null` and a missing key are the same `None`. Preprocess.TimestampOf is different: a `timestamp` key holding `null` makes `post.get('timestamp', 0)` return `None`, and `format_date` then fails. `RawPost` cannot express that case, so a `null` timestamp is treated like a missing one (0).
- NewsPostPage.PostDetail.FetchPost: the `catch` branch is not modelled. A failed load is `None`, and the service functions return their failure results instead of throwing.
- The URL count that the sitemap script logs, and all console output.
- The AI assistant (`services/geminiService.ts`, `components/GeminiAssistant.tsx`) and the static content pages. `constants.ts` is data.

## Findings

| source | as written | input that shows it | evidently intended | confidence | as-written member | corrected member |
|---|---|---|---|---|---|---|
| pages/News.tsx:137 | the search term is the replacement string of `forQuery.replace('{query}', searchTerm)`, so `$&`, `` $` ``, `$'` and `$$` in it are expanded | searching for `$&` in English shows `for "{query}"` | the query sentence shows the typed term verbatim | not executed | News.QueryDollarPatternShowsPlaceholder | News.QueryDollarPatternIntended |
