/** The preprocessing script that turns the social-media export into the posts
    file of the site: it keeps the posts with enough text, gives each an id
    made of its timestamp and its position in the export, finds an image for
    it, sorts the result newest first and optionally keeps only the first few.
    Reading and writing the JSON files is outside the model: the export is a
    `seq<RawPost>` argument and the result is returned. */
module Preprocess {
  import opened Common
  import opened Posts
  import opened Routing

  // ---------------------------------------------------------------------------
  // The export

  /** An entry of a post's `data` list; `post` is `None` when the key is absent
      or its value is `null`. */
  datatype DataItem = DataItem(post: Option<string>)

  /** The `media` object of an attachment entry; `uri` as for `DataItem.post`. */
  datatype Media = Media(uri: Option<string>)

  /** The `external_context` object of an attachment entry. */
  datatype ExternalContext = ExternalContext(url: Option<string>)

  /** An entry of an attachment's `data` list. */
  datatype AttData = AttData(media: Option<Media>, externalContext: Option<ExternalContext>)

  /** An attachment; a missing `data` key is the empty list. */
  datatype Attachment = Attachment(data: seq<AttData>)

  /** A post of the export; missing `data` and `attachments` keys are empty lists. */
  datatype RawPost = RawPost(timestamp: Option<int>, data: seq<DataItem>, attachments: seq<Attachment>)

  /** The library routines the script relies on and that the model leaves
      uninterpreted: the Latin-1/UTF-8 repair of the text, `str.lower()`, and
      the `%Y-%m-%d` rendering of a timestamp in local time. */
  datatype Env = Env(fixEncoding: string -> string, lower: string -> string, formatDate: int -> string)

  /** The default of `min_text_length`. */
  const DefaultMinTextLength := 50

  // ---------------------------------------------------------------------------
  // The text of a post

  /** `'post' in item and item['post']`: the key is there and its text is not empty. */
  predicate HasText(item: DataItem)
  {
    item.post.Some? && item.post.value != ""
  }

  // ---------------------------------------------------------------------------
  // The image of a post

  const ImageExtensions := [".jpg", ".jpeg", ".png", ".gif"]

  /** The directory the site serves the exported images from. */
  const LocalImageDir := "/images/posts/"

  /** `filename.endswith(('.jpg', '.jpeg', '.png', '.gif'))`, case-sensitive. */
  predicate HasImageExtension(name: string)
  {
    exists k :: 0 <= k < |ImageExtensions| && EndsWith(name, ImageExtensions[k])
  }

  /** `any(ext in url.lower() for ext in [...])`. */
  predicate MentionsImageExtension(url: string, lower: string -> string)
  {
    exists k :: 0 <= k < |ImageExtensions| && Includes(lower(url), ImageExtensions[k])
  }

  /** `uri.split('/')[-1]`. */
  function FileName(uri: string): string
  {
    var parts := SplitOn(uri, "/");
    parts[|parts| - 1]
  }

  /** The image a media `uri` gives: a relative path to an image file is served
      from the site's image directory, an `http` address is used as it is, and
      anything else gives nothing. */
  function MediaImage(uri: string): Option<string>
  {
    if uri != "" && !StartsWith(uri, "http") && HasImageExtension(FileName(uri)) then
      Some(LocalImageDir + FileName(uri))
    else if uri != "" && StartsWith(uri, "http") then Some(uri)
    else None
  }

  /** The image one attachment entry gives: its media first, then an external
      link whose lower-cased form mentions an image extension. */
  function EntryImage(d: AttData, lower: string -> string): Option<string>
  {
    var fromMedia := if d.media.Some? && d.media.value.uri.Some? then MediaImage(d.media.value.uri.value) else None;
    if fromMedia.Some? then fromMedia
    else if d.externalContext.Some? && d.externalContext.value.url.Some?
         && d.externalContext.value.url.value != ""
         && MentionsImageExtension(d.externalContext.value.url.value, lower)
    then Some(d.externalContext.value.url.value)
    else None
  }

  /** The first `Some` that `f` gives on the elements of `s`, in order: the
      result of a loop that returns as soon as an element gives one. */
  function FirstSome<T>(s: seq<T>, f: T -> Option<string>): (r: Option<string>)
    ensures r.None? <==> forall k :: 0 <= k < |s| ==> f(s[k]).None?
    ensures r.Some? ==> exists k :: 0 <= k < |s| && r == f(s[k]) && forall j :: 0 <= j < k ==> f(s[j]).None?
  {
    if s == [] then None
    else if f(s[0]).Some? then f(s[0])
    else
      var r := FirstSome(s[1..], f);
      assert forall k :: 1 <= k < |s| ==> s[k] == s[1..][k - 1];
      if r.Some? then
        var k :| 0 <= k < |s[1..]| && r == f(s[1..][k]) && forall j :: 0 <= j < k ==> f(s[1..][j]).None?;
        assert r == f(s[k + 1]);
        r
      else r
  }

  /** What one `data` entry contributes: its repaired text when it has one. */
  function ItemText(item: DataItem, fix: string -> string): Option<string>
  {
    if HasText(item) then Some(fix(item.post.value)) else None
  }

  /** `extract_post_text`: the repaired text of the first `data` entry with
      text, or `None` when there is none. */
  function PostText(items: seq<DataItem>, fix: string -> string): Option<string>
  {
    FirstSome(items, (item: DataItem) => ItemText(item, fix))
  }

  /** The text of a post is that of its first entry with text, and there is
      none exactly when no entry has text. */
  lemma PostTextIsFirst(items: seq<DataItem>, fix: string -> string)
    ensures PostText(items, fix).None? <==> forall k :: 0 <= k < |items| ==> !HasText(items[k])
    ensures PostText(items, fix).Some? ==>
      exists k :: 0 <= k < |items| && HasText(items[k]) && PostText(items, fix).value == fix(items[k].post.value)
                  && forall j :: 0 <= j < k ==> !HasText(items[j])
  {
    var f := (item: DataItem) => ItemText(item, fix);
    assert forall k :: 0 <= k < |items| ==> (f(items[k]).None? <==> !HasText(items[k]));
  }

  /** The loop of `extract_post_text`, returning at the first entry with text. */
  method ExtractPostText(post: RawPost, fix: string -> string) returns (text: Option<string>)
    ensures text == PostText(post.data, fix)
  {
    var i := 0;
    while i < |post.data|
      invariant 0 <= i <= |post.data|
      invariant PostText(post.data, fix) == PostText(post.data[i..], fix)
    {
      var item := post.data[i];
      if item.post.Some? && item.post.value != "" {
        assert post.data[i..][0] == item;
        return Some(fix(item.post.value));
      }
      assert post.data[i..][1..] == post.data[i + 1..];
      i := i + 1;
    }
    return None;
  }

  /** The image of the first entry of an attachment that gives one. */
  function EntriesImage(entries: seq<AttData>, lower: string -> string): Option<string>
  {
    FirstSome(entries, (d: AttData) => EntryImage(d, lower))
  }

  /** `extract_image_url`: the image of the first attachment that gives one. */
  function AttachmentsImage(atts: seq<Attachment>, lower: string -> string): Option<string>
  {
    FirstSome(atts, (a: Attachment) => EntriesImage(a.data, lower))
  }

  /** The nested loops of `extract_image_url`, returning at the first image. */
  method ExtractImageUrl(post: RawPost, lower: string -> string) returns (url: Option<string>)
    ensures url == AttachmentsImage(post.attachments, lower)
  {
    var atts := post.attachments;
    var i := 0;
    while i < |atts|
      invariant 0 <= i <= |atts|
      invariant AttachmentsImage(atts, lower) == AttachmentsImage(atts[i..], lower)
    {
      var entries := atts[i].data;
      var j := 0;
      while j < |entries|
        invariant 0 <= j <= |entries|
        invariant EntriesImage(entries, lower) == EntriesImage(entries[j..], lower)
      {
        var found := EntryImage(entries[j], lower);
        if found.Some? {
          assert atts[i..][0] == atts[i];
          return found;
        }
        assert entries[j..][1..] == entries[j + 1..];
        j := j + 1;
      }
      assert atts[i..][0] == atts[i] && atts[i..][1..] == atts[i + 1..];
      i := i + 1;
    }
    return None;
  }

  /** `uri.split('/')[-1]` is the text after the last `/`. */
  lemma FileNameAfterSlash(dir: string, name: string)
    requires '/' !in name
    ensures FileName(dir + "/" + name) == name
  {
    var parts := SplitOn(dir, "/");
    SplitJoin(dir, "/");
    JoinSnoc(parts, "/", name);
    SplitPiecesHaveNoSeparator(dir, "/");
    IncludesChar(name, '/');
    var all := parts + [name];
    forall k | 0 <= k < |all| ensures !Includes(all[k], "/") {
      if k == |parts| { assert all[k] == name; } else { assert all[k] == parts[k]; }
    }
    JoinSplit(all, "/");
  }

  /** A file name holds no `/`. */
  lemma FileNameHasNoSlash(uri: string)
    ensures '/' !in FileName(uri)
  {
    SplitPiecesHaveNoSeparator(uri, "/");
    IncludesChar(FileName(uri), '/');
  }

  /** A relative media path to an image file is served from the site's image
      directory under its own file name. */
  lemma LocalImage(dir: string, name: string)
    requires '/' !in name && HasImageExtension(name) && !StartsWith(dir + "/" + name, "http")
    ensures MediaImage(dir + "/" + name) == Some(LocalImageDir + name)
  {
    FileNameAfterSlash(dir, name);
  }

  /** An `http` media address is used as it is, whatever the entry's external link. */
  lemma RemoteImage(uri: string, external: Option<ExternalContext>, lower: string -> string)
    requires StartsWith(uri, "http")
    ensures EntryImage(AttData(Some(Media(Some(uri))), external), lower) == Some(uri)
  {
    assert uri != "" by { assert |uri| >= 4; }
  }

  lemma EndsWithAfter(a: string, name: string, ext: string)
    requires EndsWith(name, ext)
    ensures EndsWith(a + name, ext)
  {
    assert (a + name)[|a + name| - |ext|..] == name[|name| - |ext|..];
  }

  /** What an image of a post can be: a file of the site's image directory
      with an image extension, an `http` address, or an external link that
      mentions an image extension. */
  predicate ImageForm(url: string, lower: string -> string)
  {
    || (StartsWith(url, LocalImageDir) && '/' !in url[|LocalImageDir|..] && HasImageExtension(url))
    || StartsWith(url, "http")
    || MentionsImageExtension(url, lower)
  }

  lemma EntryImageForm(d: AttData, lower: string -> string)
    ensures EntryImage(d, lower).Some? ==> ImageForm(EntryImage(d, lower).value, lower)
  {
    if d.media.Some? && d.media.value.uri.Some? {
      var uri := d.media.value.uri.value;
      if uri != "" && !StartsWith(uri, "http") && HasImageExtension(FileName(uri)) {
        var name := FileName(uri);
        var url := LocalImageDir + name;
        FileNameHasNoSlash(uri);
        var k :| 0 <= k < |ImageExtensions| && EndsWith(name, ImageExtensions[k]);
        EndsWithAfter(LocalImageDir, name, ImageExtensions[k]);
        assert url[..|LocalImageDir|] == LocalImageDir && url[|LocalImageDir|..] == name;
      }
    }
  }

  /** Every image `extract_image_url` finds has one of the three forms. */
  lemma ImageUrlForm(atts: seq<Attachment>, lower: string -> string)
    ensures AttachmentsImage(atts, lower).Some? ==> ImageForm(AttachmentsImage(atts, lower).value, lower)
  {
    var r := AttachmentsImage(atts, lower);
    if r.Some? {
      var k :| 0 <= k < |atts| && r == EntriesImage(atts[k].data, lower);
      var entries := atts[k].data;
      var j :| 0 <= j < |entries| && r == EntryImage(entries[j], lower);
      EntryImageForm(entries[j], lower);
    }
  }

  /** No attachment entry that gives an image means no image. */
  lemma NoImage(atts: seq<Attachment>, lower: string -> string)
    requires forall k, j :: 0 <= k < |atts| && 0 <= j < |atts[k].data| ==> EntryImage(atts[k].data[j], lower).None?
    ensures AttachmentsImage(atts, lower).None?
  {
    forall k | 0 <= k < |atts| ensures EntriesImage(atts[k].data, lower).None? {
      var f := (d: AttData) => EntryImage(d, lower);
      assert forall j :: 0 <= j < |atts[k].data| ==> f(atts[k].data[j]).None?;
    }
    var g := (a: Attachment) => EntriesImage(a.data, lower);
    assert forall k :: 0 <= k < |atts| ==> g(atts[k]).None?;
  }

  // ---------------------------------------------------------------------------
  // Keeping posts and naming them

  /** `post.get('timestamp', 0)`. */
  function TimestampOf(raw: RawPost): int
  {
    if raw.timestamp.Some? then raw.timestamp.value else 0
  }

  /** `f'fb-{timestamp}-{i}'`. */
  function PostId(timestamp: int, index: nat): string
  {
    "fb-" + IntToString(timestamp) + "-" + NatToString(index)
  }

  /** The opposite of `not text or len(text) < min_text_length`. */
  predicate Substantial(text: Option<string>, minTextLength: int)
  {
    text.Some? && text.value != "" && |text.value| >= minTextLength
  }

  /** The processed record of the raw post at `index` with its text. */
  function Processed(raw: RawPost, index: nat, text: string, env: Env): Post
  {
    var timestamp := TimestampOf(raw);
    Post(PostId(timestamp, index), timestamp, env.formatDate(timestamp), text, AttachmentsImage(raw.attachments, env.lower))
  }

  /** The raw post at `i` is kept and processed into `p`. */
  predicate KeptAt(raw: seq<RawPost>, i: int, env: Env, minTextLength: int, p: Post)
    requires 0 <= i < |raw|
  {
    var text := PostText(raw[i].data, env.fixEncoding);
    Substantial(text, minTextLength) && p == Processed(raw[i], i, text.value, env)
  }

  /** The `processed_posts` list after the loop over the export, in export order. */
  function Kept(raw: seq<RawPost>, env: Env, minTextLength: int): seq<Post>
    decreases |raw|
  {
    if raw == [] then []
    else
      var i := |raw| - 1;
      var text := PostText(raw[i].data, env.fixEncoding);
      Kept(raw[..i], env, minTextLength)
        + (if Substantial(text, minTextLength) then [Processed(raw[i], i, text.value, env)] else [])
  }

  /** The last raw post contributes at most its own processed record. */
  lemma KeptLast(raw: seq<RawPost>, env: Env, minTextLength: int, p: Post)
    requires raw != []
    ensures p in Kept(raw, env, minTextLength) <==>
      p in Kept(raw[..|raw| - 1], env, minTextLength) || KeptAt(raw, |raw| - 1, env, minTextLength, p)
  {
  }

  /** A post is in the list exactly when it is the processed form of a raw post
      with enough text. */
  lemma KeptMembers(raw: seq<RawPost>, env: Env, minTextLength: int, p: Post)
    ensures p in Kept(raw, env, minTextLength) <==> exists i :: 0 <= i < |raw| && KeptAt(raw, i, env, minTextLength, p)
  {
    if p in Kept(raw, env, minTextLength) {
      KeptSound(raw, env, minTextLength, p);
    }
    if exists i :: 0 <= i < |raw| && KeptAt(raw, i, env, minTextLength, p) {
      var i :| 0 <= i < |raw| && KeptAt(raw, i, env, minTextLength, p);
      KeptComplete(raw, i, env, minTextLength, p);
    }
  }

  lemma {:induction false} KeptSound(raw: seq<RawPost>, env: Env, minTextLength: int, p: Post)
    requires p in Kept(raw, env, minTextLength)
    ensures exists i :: 0 <= i < |raw| && KeptAt(raw, i, env, minTextLength, p)
    decreases |raw|
  {
    var n := |raw| - 1;
    KeptLast(raw, env, minTextLength, p);
    if p in Kept(raw[..n], env, minTextLength) {
      KeptSound(raw[..n], env, minTextLength, p);
      var i :| 0 <= i < n && KeptAt(raw[..n], i, env, minTextLength, p);
      KeptAtFront(raw, n, i, env, minTextLength, p);
    } else {
      assert KeptAt(raw, n, env, minTextLength, p);
    }
  }

  lemma KeptComplete(raw: seq<RawPost>, i: int, env: Env, minTextLength: int, p: Post)
    requires 0 <= i < |raw| && KeptAt(raw, i, env, minTextLength, p)
    ensures p in Kept(raw, env, minTextLength)
  {
    KeptInPrefix(raw, |raw|, i, env, minTextLength, p);
    assert raw[..|raw|] == raw;
  }

  /** A post kept at index `i` is in the list of every prefix that reaches past `i`. */
  lemma {:induction false} KeptInPrefix(raw: seq<RawPost>, n: int, i: int, env: Env, minTextLength: int, p: Post)
    requires 0 <= i < n <= |raw| && KeptAt(raw, i, env, minTextLength, p)
    ensures p in Kept(raw[..n], env, minTextLength)
    decreases n
  {
    KeptLast(raw[..n], env, minTextLength, p);
    assert raw[..n][..n - 1] == raw[..n - 1];
    if i < n - 1 {
      KeptInPrefix(raw, n - 1, i, env, minTextLength, p);
    } else {
      KeptAtFront(raw, n, i, env, minTextLength, p);
    }
  }

  lemma KeptAtFront(raw: seq<RawPost>, n: int, i: int, env: Env, minTextLength: int, p: Post)
    requires 0 <= i < n <= |raw|
    ensures KeptAt(raw[..n], i, env, minTextLength, p) <==> KeptAt(raw, i, env, minTextLength, p)
  {
    assert raw[..n][i] == raw[i];
  }

  /** Every kept post has at least `min_text_length` characters of text. */
  lemma KeptTexts(raw: seq<RawPost>, env: Env, minTextLength: int, p: Post)
    requires p in Kept(raw, env, minTextLength)
    ensures p.text != "" && |p.text| >= minTextLength
  {
    KeptMembers(raw, env, minTextLength, p);
  }

  /** A `-` followed by digits: the digits are determined by the text. */
  lemma DigitsAfterDash(a1: string, d1: string, a2: string, d2: string)
    requires |a1| >= 1 && a1[|a1| - 1] == '-' && |a2| >= 1 && a2[|a2| - 1] == '-'
    requires forall i :: 0 <= i < |d1| ==> IsDigit(d1[i])
    requires forall i :: 0 <= i < |d2| ==> IsDigit(d2[i])
    requires a1 + d1 == a2 + d2
    ensures d1 == d2
  {
    var s := a1 + d1;
    assert s[|a1| - 1] == '-' && s[|a2| - 1] == '-';
    assert |a1| == |a2| ==> d1 == s[|a1|..] && d2 == (a2 + d2)[|a2|..];
  }

  /** Ids of different positions differ, whatever the timestamps. */
  lemma PostIdsDiffer(t1: int, i1: nat, t2: int, i2: nat)
    requires i1 != i2
    ensures PostId(t1, i1) != PostId(t2, i2)
  {
    if PostId(t1, i1) == PostId(t2, i2) {
      DigitsAfterDash("fb-" + IntToString(t1) + "-", NatToString(i1), "fb-" + IntToString(t2) + "-", NatToString(i2));
      NatToStringInjective(i1, i2);
    }
  }

  /** An id is one path segment, so the post's page and its sitemap entry
      resolve to the post route. */
  lemma PostIdIsSegment(timestamp: int, index: nat)
    ensures IsSegment(PostId(timestamp, index))
  {
    var id := PostId(timestamp, index);
    var digits := IntToString(timestamp);
    assert forall k :: 0 <= k < |digits| ==> digits[k] == '-' || IsDigit(digits[k]);
    assert forall k :: 0 <= k < |id| ==> id[k] != '/';
  }

  /** The kept posts have pairwise distinct ids. */
  lemma {:induction false} KeptDistinct(raw: seq<RawPost>, env: Env, minTextLength: int)
    ensures DistinctIds(Kept(raw, env, minTextLength))
    decreases |raw|
  {
    if raw != [] {
      var n := |raw| - 1;
      var front := raw[..n];
      var text := PostText(raw[n].data, env.fixEncoding);
      KeptDistinct(front, env, minTextLength);
      if Substantial(text, minTextLength) {
        var q := Processed(raw[n], n, text.value, env);
        var before := Kept(front, env, minTextLength);
        forall p | p in before ensures p.id != q.id {
          KeptMembers(front, env, minTextLength, p);
          var i :| 0 <= i < n && KeptAt(front, i, env, minTextLength, p);
          PostIdsDiffer(TimestampOf(raw[i]), i, TimestampOf(raw[n]), n);
        }
        SnocDistinct(before, q);
      }
    }
  }

  lemma SnocDistinct(list: seq<Post>, q: Post)
    requires DistinctIds(list) && forall p :: p in list ==> p.id != q.id
    ensures DistinctIds(list + [q])
  {
    forall j, k | 0 <= j < k < |list| + 1 ensures (list + [q])[j].id != (list + [q])[k].id {
      if k == |list| { assert list[j] in list; }
    }
  }

  lemma ConsDistinct(q: Post, list: seq<Post>)
    requires DistinctIds(list) && forall p :: p in list ==> p.id != q.id
    ensures DistinctIds([q] + list)
  {
    forall j, k | 0 <= j < k < |list| + 1 ensures ([q] + list)[j].id != ([q] + list)[k].id {
      if j == 0 { assert list[k - 1] in list; } else { assert ([q] + list)[j] == list[j - 1]; }
    }
  }

  // ---------------------------------------------------------------------------
  // Newest first

  /** Non-increasing timestamps. */
  predicate NewestFirst(list: seq<Post>)
  {
    forall j, k :: 0 <= j < k < |list| ==> list[j].timestamp >= list[k].timestamp
  }

  /** Puts `x` before the first post that is not newer than it. */
  function InsertByTime(x: Post, list: seq<Post>): (r: seq<Post>)
    ensures multiset(r) == multiset{x} + multiset(list)
  {
    if list == [] || list[0].timestamp <= x.timestamp then [x] + list
    else
      assert list == [list[0]] + list[1..];
      [list[0]] + InsertByTime(x, list[1..])
  }

  lemma {:induction false} InsertKeepsOrder(x: Post, list: seq<Post>)
    requires NewestFirst(list)
    ensures NewestFirst(InsertByTime(x, list))
  {
    if !(list == [] || list[0].timestamp <= x.timestamp) {
      var rest := InsertByTime(x, list[1..]);
      InsertKeepsOrder(x, list[1..]);
      forall q | q in rest ensures q.timestamp <= list[0].timestamp {
        assert q in multiset(rest);
        if q != x {
          assert q in list[1..];
        }
      }
    }
  }

  /** `sort(key=timestamp, reverse=True)`: newest first; the result and
      `list` hold the same posts. */
  function SortNewestFirst(list: seq<Post>): (r: seq<Post>)
    ensures NewestFirst(r) && multiset(r) == multiset(list)
  {
    if list == [] then []
    else
      var rest := SortNewestFirst(list[1..]);
      InsertKeepsOrder(list[0], rest);
      assert list == [list[0]] + list[1..];
      InsertByTime(list[0], rest)
  }

  /** The posts with timestamp `t`. */
  function AtTime(t: int): Post -> bool
  {
    (p: Post) => p.timestamp == t
  }

  lemma {:induction false} InsertStable(x: Post, list: seq<Post>, t: int)
    ensures Filter(AtTime(t), InsertByTime(x, list)) == Filter(AtTime(t), [x] + list)
  {
    if !(list == [] || list[0].timestamp <= x.timestamp) {
      var y, tail := list[0], list[1..];
      InsertStable(x, tail, t);
      assert InsertByTime(x, list) == [y] + InsertByTime(x, tail);
      assert list == [y] + tail;
      FilterSwap(AtTime(t), x, y, InsertByTime(x, tail), tail);
    }
  }

  /** Two neighbours that `f` does not both keep can trade places without
      changing what `f` keeps. */
  lemma FilterSwap<T>(f: T -> bool, x: T, y: T, rest: seq<T>, tail: seq<T>)
    requires !(f(x) && f(y))
    requires Filter(f, rest) == Filter(f, [x] + tail)
    ensures Filter(f, [y] + rest) == Filter(f, [x] + ([y] + tail))
  {
    FilterAppend(f, [y], rest);
    FilterAppend(f, [x], tail);
    FilterAppend(f, [x], [y] + tail);
    FilterAppend(f, [y], tail);
    assert [x][1..] == [] && [y][1..] == [];
    var fx, fy, ft := Filter(f, [x]), Filter(f, [y]), Filter(f, tail);
    assert fx == [] || fy == [];
  }

  /** The sort is stable: the posts of each timestamp keep their order. */
  lemma {:induction false} SortStable(list: seq<Post>, t: int)
    ensures Filter(AtTime(t), SortNewestFirst(list)) == Filter(AtTime(t), list)
  {
    if list != [] {
      var f := AtTime(t);
      var y, tail := list[0], list[1..];
      var rest := SortNewestFirst(tail);
      assert SortNewestFirst(list) == InsertByTime(y, rest);
      SortStable(tail, t);
      InsertStable(y, rest, t);
      FilterAppend(f, [y], rest);
      assert list == [y] + tail;
      FilterAppend(f, [y], tail);
    }
  }

  lemma {:induction false} InsertDistinct(x: Post, list: seq<Post>)
    requires DistinctIds(list) && forall p :: p in list ==> p.id != x.id
    ensures DistinctIds(InsertByTime(x, list))
  {
    if list == [] || list[0].timestamp <= x.timestamp {
      ConsDistinct(x, list);
    } else {
      var tail := list[1..];
      assert forall p :: p in tail ==> p in list;
      assert DistinctIds(tail) by {
        forall j, k | 0 <= j < k < |tail| ensures tail[j].id != tail[k].id {
          assert tail[j] == list[j + 1] && tail[k] == list[k + 1];
        }
      }
      InsertDistinct(x, tail);
      var rest := InsertByTime(x, tail);
      forall p | p in rest ensures p.id != list[0].id {
        assert p in multiset(rest);
        if p != x {
          assert p in tail;
          var k :| 0 <= k < |tail| && tail[k] == p;
          assert list[k + 1] == p;
        } else {
          assert list[0] in list;
        }
      }
      ConsDistinct(list[0], rest);
    }
  }

  /** Sorting keeps the ids distinct. */
  lemma {:induction false} SortDistinct(list: seq<Post>)
    requires DistinctIds(list)
    ensures DistinctIds(SortNewestFirst(list))
  {
    if list != [] {
      var tail := list[1..];
      assert DistinctIds(tail) by {
        forall j, k | 0 <= j < k < |tail| ensures tail[j].id != tail[k].id {
          assert tail[j] == list[j + 1] && tail[k] == list[k + 1];
        }
      }
      SortDistinct(tail);
      var rest := SortNewestFirst(tail);
      forall p | p in rest ensures p.id != list[0].id {
        assert p in multiset(rest);
        assert p in tail;
        var k :| 0 <= k < |tail| && tail[k] == p;
        assert list[k + 1] == p;
      }
      InsertDistinct(list[0], rest);
    }
  }

  // ---------------------------------------------------------------------------
  // The limit and the whole run

  /** `if max_posts: processed_posts = processed_posts[:max_posts]`: `None` and
      `0` keep everything, a positive limit keeps that many, a negative one
      drops that many from the end. */
  function Limit(list: seq<Post>, maxPosts: Option<int>): (r: seq<Post>)
    ensures |r| <= |list| && r == list[..|r|]
    ensures maxPosts.None? || maxPosts.value == 0 ==> r == list
    ensures maxPosts.Some? && maxPosts.value > 0 ==> |r| == Min(maxPosts.value, |list|)
    ensures maxPosts.Some? && maxPosts.value < 0 ==> |r| == Max(0, |list| + maxPosts.value)
  {
    if maxPosts.Some? && maxPosts.value != 0 then JsSlice(list, 0, maxPosts.value) else list
  }

  /** The list `process_posts` writes out. */
  function Output(raw: seq<RawPost>, env: Env, minTextLength: int, maxPosts: Option<int>): seq<Post>
  {
    Limit(SortNewestFirst(Kept(raw, env, minTextLength)), maxPosts)
  }

  /** `process_posts(min_text_length, max_posts)` on a loaded export. */
  method ProcessPosts(raw: seq<RawPost>, env: Env, minTextLength: int, maxPosts: Option<int>) returns (out: seq<Post>)
    ensures out == Output(raw, env, minTextLength, maxPosts)
  {
    var processed: seq<Post> := [];
    var i := 0;
    while i < |raw|
      invariant 0 <= i <= |raw|
      invariant processed == Kept(raw[..i], env, minTextLength)
    {
      var post := raw[i];
      var text := ExtractPostText(post, env.fixEncoding);
      assert raw[..i + 1][..i] == raw[..i] && raw[..i + 1][i] == post;
      if text.Some? && text.value != "" && |text.value| >= minTextLength {
        var timestamp := if post.timestamp.Some? then post.timestamp.value else 0;
        var imageUrl := ExtractImageUrl(post, env.lower);
        processed := processed + [Post("fb-" + IntToString(timestamp) + "-" + NatToString(i), timestamp,
                                       env.formatDate(timestamp), text.value, imageUrl)];
      }
      i := i + 1;
    }
    assert raw[..|raw|] == raw;
    processed := SortNewestFirst(processed);
    if maxPosts.Some? && maxPosts.value != 0 {
      processed := JsSlice(processed, 0, maxPosts.value);
    }
    out := processed;
  }

  /** The output is newest first and its ids are distinct. */
  lemma OutputOrdered(raw: seq<RawPost>, env: Env, minTextLength: int, maxPosts: Option<int>)
    ensures NewestFirst(Output(raw, env, minTextLength, maxPosts))
    ensures DistinctIds(Output(raw, env, minTextLength, maxPosts))
  {
    var sorted := SortNewestFirst(Kept(raw, env, minTextLength));
    var out := Output(raw, env, minTextLength, maxPosts);
    KeptDistinct(raw, env, minTextLength);
    SortDistinct(Kept(raw, env, minTextLength));
    assert out == sorted[..|out|];
    forall j, k | 0 <= j < k < |out| ensures out[j].timestamp >= out[k].timestamp && out[j].id != out[k].id {
      assert out[j] == sorted[j] && out[k] == sorted[k];
    }
  }

  /** Every output post is a kept post: it has enough text and its id names its
      position in the export. */
  lemma OutputFromKept(raw: seq<RawPost>, env: Env, minTextLength: int, maxPosts: Option<int>, p: Post)
    requires p in Output(raw, env, minTextLength, maxPosts)
    ensures p.text != "" && |p.text| >= minTextLength
    ensures exists i :: 0 <= i < |raw| && KeptAt(raw, i, env, minTextLength, p)
  {
    var kept := Kept(raw, env, minTextLength);
    var sorted := SortNewestFirst(kept);
    var out := Output(raw, env, minTextLength, maxPosts);
    assert out == sorted[..|out|];
    assert p in multiset(sorted);
    assert p in kept;
    KeptMembers(raw, env, minTextLength, p);
    KeptTexts(raw, env, minTextLength, p);
  }

  /** Without a limit the output holds every kept post. */
  lemma OutputComplete(raw: seq<RawPost>, env: Env, minTextLength: int)
    ensures multiset(Output(raw, env, minTextLength, None)) == multiset(Kept(raw, env, minTextLength))
  {
  }

  /** The script's own run, `process_posts()` with its defaults: a post is
      written exactly when it is the record of a raw post whose text has at
      least 50 characters. */
  lemma DefaultRun(raw: seq<RawPost>, env: Env, p: Post)
    ensures p in Output(raw, env, DefaultMinTextLength, None) <==>
      exists i :: 0 <= i < |raw| && KeptAt(raw, i, env, DefaultMinTextLength, p)
    ensures p in Output(raw, env, DefaultMinTextLength, None) ==> |p.text| >= 50
  {
    var out := Output(raw, env, DefaultMinTextLength, None);
    var kept := Kept(raw, env, DefaultMinTextLength);
    OutputComplete(raw, env, DefaultMinTextLength);
    assert multiset(out) == multiset(kept);
    assert p in out <==> p in multiset(out);
    assert p in kept <==> p in multiset(kept);
    KeptMembers(raw, env, DefaultMinTextLength, p);
  }

  /** Posts with the same timestamp appear in export order: those in the output
      are the first ones of that timestamp among the kept posts. */
  lemma OutputStable(raw: seq<RawPost>, env: Env, minTextLength: int, maxPosts: Option<int>, t: int)
    ensures var same := Filter(AtTime(t), Output(raw, env, minTextLength, maxPosts));
            |same| <= |Filter(AtTime(t), Kept(raw, env, minTextLength))|
            && same == Filter(AtTime(t), Kept(raw, env, minTextLength))[..|same|]
  {
    var kept := Kept(raw, env, minTextLength);
    var sorted := SortNewestFirst(kept);
    var out := Output(raw, env, minTextLength, maxPosts);
    SortStable(kept, t);
    assert |out| <= |sorted| && out == sorted[..|out|];
    FilterPrefix(AtTime(t), out, sorted);
  }

  /** Filtering a prefix gives a prefix of the filtered sequence. */
  lemma FilterPrefix<T>(f: T -> bool, a: seq<T>, b: seq<T>)
    requires |a| <= |b| && a == b[..|a|]
    ensures |Filter(f, a)| <= |Filter(f, b)| && Filter(f, a) == Filter(f, b)[..|Filter(f, a)|]
  {
    assert b == a + b[|a|..];
    FilterAppend(f, a, b[|a|..]);
  }
}
