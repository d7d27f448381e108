/** The news feed reader: each configured RSS feed (fetched through the
    rss2json proxy) contributes at most five normalised news items, a failing
    feed contributes none, and the combined items are shown newest first, with
    the bundled offline news standing in when nothing at all arrives. */
module GamingNews {
  import opened Wrappers
  import opened Strings
  import opened Sequences
  import opened Category
  import opened ImageScan
  import opened Sorting

  /** A news item as the dashboard shows it. The feed reader leaves out both
      `tags` and `likes`, so they are undefined on its items; `None` stands
      for that. */
  datatype NewsItem = NewsItem(
    id: string,
    title: string,
    summary: string,
    sourceUrl: string,
    imageUrl: string,
    category: string,
    timestamp: string,
    source: string,
    author: string,
    tags: Option<seq<string>>,
    likes: Option<int>)

  datatype Enclosure = Enclosure(link: string)

  /** One entry of a feed as rss2json delivers it. */
  datatype RssItem = RssItem(
    title: string,
    link: string,
    description: string,
    content: Option<string>,
    pubDate: string,
    enclosure: Option<Enclosure>,
    thumbnail: Option<string>,
    author: Option<string>)

  datatype FeedSource = FeedSource(url: string, source: string)

  const RssFeeds: seq<FeedSource> := [
    FeedSource("https://feeds.ign.com/ign/news", "IGN"),
    FeedSource("https://www.gamespot.com/feeds/news/", "GameSpot"),
    FeedSource("https://kotaku.com/rss", "Kotaku"),
    FeedSource("https://www.polygon.com/rss/index.xml", "Polygon")
  ]

  const FallbackImage := "https://images.unsplash.com/photo-1538481199705-c710c4e965fc?w=800&h=400&fit=crop"
  const SummaryPlaceholder := "Click to read the full article for more details."
  const DefaultAuthor := "Staff Writer"
  const MaxItemsPerFeed := 5
  const MaxSummaryLength := 400
  const LoadErrorMessage := "Could not load live news. Showing offline archives."

  /** What fetching one feed yields: a rejected request or body, or a response
      with its `ok` flag, the envelope's `status` and its items. */
  datatype FeedReply = Rejected | Response(ok: bool, status: string, items: seq<RssItem>)

  /** `content || description || ""`: the markup the category and the image are
      taken from. */
  function ItemContent(item: RssItem): string {
    OrElse(item.content, item.description)
  }

  /** The first non-empty of the enclosure link, the thumbnail, the first image
      in the content markup, and the fixed fallback image. */
  function PickImage(item: RssItem): (url: string)
    ensures url != ""
    ensures item.enclosure.Some? && item.enclosure.value.link != "" ==> url == item.enclosure.value.link
    ensures !(item.enclosure.Some? && item.enclosure.value.link != "") && Truthy(item.thumbnail) ==>
              url == item.thumbnail.value
    ensures !(item.enclosure.Some? && item.enclosure.value.link != "") && !Truthy(item.thumbnail)
            && ExtractImageFromHtml(ItemContent(item)).Some? ==>
              url == ExtractImageFromHtml(ItemContent(item)).value
    ensures !(item.enclosure.Some? && item.enclosure.value.link != "") && !Truthy(item.thumbnail)
            && ExtractImageFromHtml(ItemContent(item)).None? ==>
              url == FallbackImage
  {
    if item.enclosure.Some? && item.enclosure.value.link != "" then item.enclosure.value.link
    else if Truthy(item.thumbnail) then item.thumbnail.value
    else match ExtractImageFromHtml(ItemContent(item))
      case Some(found) => found
      case None => FallbackImage
  }

  /** The summary: the description with its markup removed, cut to 400
      characters, or the placeholder when that leaves nothing. */
  function Summary(item: RssItem, stripHtml: string -> string): (summary: string)
    ensures 0 < |summary| <= MaxSummaryLength
    ensures summary == SummaryPlaceholder || summary <= stripHtml(item.description)
    ensures stripHtml(item.description) != "" ==> summary == Take(stripHtml(item.description), MaxSummaryLength)
  {
    var cut := Take(stripHtml(item.description), MaxSummaryLength);
    if cut == "" then SummaryPlaceholder else cut
  }

  /** `${source}-${index}-${now}`. */
  function ItemId(source: string, index: nat, now: int): string {
    source + "-" + IntToDecimal(index) + "-" + IntToDecimal(now)
  }

  /** The per-entry mapping of `fetchFeed`; `now` is the clock reading taken
      while mapping this entry. */
  function ToNewsItem(feed: FeedSource, index: nat, item: RssItem,
                      stripHtml: string -> string, now: int): (n: NewsItem)
    ensures n.id == ItemId(feed.source, index, now)
    ensures n.title == item.title && n.sourceUrl == item.link
    ensures n.timestamp == item.pubDate && n.source == feed.source
    ensures n.category == InferCategory(item.title, ItemContent(item)).Name()
    ensures n.imageUrl == PickImage(item) && n.imageUrl != ""
    ensures n.summary == Summary(item, stripHtml) && 0 < |n.summary| <= MaxSummaryLength
    ensures n.author != ""
    ensures Truthy(item.author) ==> n.author == item.author.value
    ensures !Truthy(item.author) ==> n.author == DefaultAuthor
    ensures n.tags.None? && n.likes.None?
  {
    NewsItem(
      ItemId(feed.source, index, now),
      item.title,
      Summary(item, stripHtml),
      item.link,
      PickImage(item),
      InferCategory(item.title, ItemContent(item)).Name(),
      item.pubDate,
      feed.source,
      OrElse(item.author, DefaultAuthor),
      None,
      None)
  }

  /** `fetchFeed`: a rejection, a non-ok response or a status other than "ok"
      gives no items; otherwise the first five entries are mapped in order.
      `clock(source, index)` is the time read while mapping entry `index`. */
  function FetchFeed(feed: FeedSource, reply: FeedReply, stripHtml: string -> string,
                     clock: (string, nat) -> int): (r: seq<NewsItem>)
    ensures |r| <= MaxItemsPerFeed
    ensures !(reply.Response? && reply.ok && reply.status == "ok") ==> r == []
    ensures reply.Response? && reply.ok && reply.status == "ok" ==>
              |r| == (if |reply.items| < MaxItemsPerFeed then |reply.items| else MaxItemsPerFeed)
              && forall i :: 0 <= i < |r| ==>
                   r[i] == ToNewsItem(feed, i, reply.items[i], stripHtml, clock(feed.source, i))
  {
    if reply.Response? && reply.ok && reply.status == "ok" then
      var kept := Take(reply.items, MaxItemsPerFeed);
      seq(|kept|, i requires 0 <= i < |kept| => ToNewsItem(feed, i, kept[i], stripHtml, clock(feed.source, i)))
    else []
  }

  /** The items of each feed, in the order the feeds are configured. */
  function PerFeed(reply: FeedSource -> FeedReply, stripHtml: string -> string,
                   clock: (string, nat) -> int): (r: seq<seq<NewsItem>>)
    ensures |r| == |RssFeeds|
    ensures forall k :: 0 <= k < |r| ==> r[k] == FetchFeed(RssFeeds[k], reply(RssFeeds[k]), stripHtml, clock)
    ensures forall k :: 0 <= k < |r| ==> |r[k]| <= MaxItemsPerFeed
    ensures forall k, j :: 0 <= k < |r| && 0 <= j < |r[k]| ==> r[k][j].source == RssFeeds[k].source
  {
    seq(|RssFeeds|, k requires 0 <= k < |RssFeeds| =>
      FetchFeed(RssFeeds[k], reply(RssFeeds[k]), stripHtml, clock))
  }

  /** Every feed, fetched and mapped, flattened in feed order. */
  function FetchAllFeeds(reply: FeedSource -> FeedReply, stripHtml: string -> string,
                         clock: (string, nat) -> int): seq<NewsItem> {
    Flatten(PerFeed(reply, stripHtml, clock))
  }

  /** The state the hook publishes. */
  datatype NewsState = NewsState(
    news: seq<NewsItem>,
    isLoading: bool,
    error: Option<string>,
    isUsingFallback: bool)

  /** The sort key: the parsed publication time of an item. */
  function ByTime(parseTime: string -> int): NewsItem -> int {
    (n: NewsItem) => parseTime(n.timestamp)
  }

  /** The outcome of the initial load, given everything the feeds delivered:
      the offline news and an error when nothing arrived, otherwise the items
      newest first. */
  function LoadNews(all: seq<NewsItem>, offline: seq<NewsItem>, parseTime: string -> int): (s: NewsState)
    ensures !s.isLoading
    ensures |all| == 0 ==> s.news == offline && s.error == Some(LoadErrorMessage) && s.isUsingFallback
    ensures |all| > 0 ==> && multiset(s.news) == multiset(all)
                          && NewestFirst(s.news, ByTime(parseTime))
                          && s.error.None? && !s.isUsingFallback
    ensures |all| > 0 ==> s.news == SortNewestFirst(all, ByTime(parseTime))
  {
    if |all| == 0 then NewsState(offline, false, Some(LoadErrorMessage), true)
    else NewsState(SortNewestFirst(all, ByTime(parseTime)), false, None, false)
  }

  /** A refresh: when nothing arrives, everything but the loading flag stays as
      it was; otherwise news, error and fallback flag are all replaced. */
  function RefreshNews(prev: NewsState, all: seq<NewsItem>, parseTime: string -> int): (s: NewsState)
    ensures !s.isLoading
    ensures |all| == 0 ==> s == prev.(isLoading := false)
    ensures |all| > 0 ==> && multiset(s.news) == multiset(all)
                          && NewestFirst(s.news, ByTime(parseTime))
                          && s.error.None? && !s.isUsingFallback
    ensures |all| > 0 ==> s.news == SortNewestFirst(all, ByTime(parseTime))
  {
    if |all| > 0 then NewsState(SortNewestFirst(all, ByTime(parseTime)), false, None, false)
    else prev.(isLoading := false)
  }

  /** The initial load falls back to the offline news exactly when every feed
      came back empty. */
  lemma FallbackIffEveryFeedEmpty(reply: FeedSource -> FeedReply, stripHtml: string -> string,
                                  clock: (string, nat) -> int, offline: seq<NewsItem>,
                                  parseTime: string -> int)
    ensures LoadNews(FetchAllFeeds(reply, stripHtml, clock), offline, parseTime).isUsingFallback <==>
              forall k :: 0 <= k < |RssFeeds| ==>
                FetchFeed(RssFeeds[k], reply(RssFeeds[k]), stripHtml, clock) == []
  {
    var perFeed := PerFeed(reply, stripHtml, clock);
    assert |Flatten(perFeed)| == 0 <==> forall k :: 0 <= k < |perFeed| ==> |perFeed[k]| == 0;
  }

  /** Nothing a feed delivers is lost on the way to the screen: every item of
      every feed is among the news the initial load publishes. */
  lemma EveryFeedItemShown(reply: FeedSource -> FeedReply, stripHtml: string -> string,
                           clock: (string, nat) -> int, offline: seq<NewsItem>,
                           parseTime: string -> int, k: int, item: NewsItem)
    requires 0 <= k < |RssFeeds|
    requires item in FetchFeed(RssFeeds[k], reply(RssFeeds[k]), stripHtml, clock)
    ensures item in LoadNews(FetchAllFeeds(reply, stripHtml, clock), offline, parseTime).news
  {
    var perFeed := PerFeed(reply, stripHtml, clock);
    var all := FetchAllFeeds(reply, stripHtml, clock);
    FlattenContains(perFeed, k, item);
    assert item in multiset(all);
  }

  /** Ids within one cycle are distinct: with sources free of '-', an id
      determines its source and its index in the feed, whatever the clock
      read. */
  lemma {:induction false} ItemIdDetermines(s1: string, i1: nat, t1: int, s2: string, i2: nat, t2: int)
    requires '-' !in s1 && '-' !in s2
    requires ItemId(s1, i1, t1) == ItemId(s2, i2, t2)
    ensures s1 == s2 && i1 == i2
  {
    var a1, a2 := IntToDecimal(i1), IntToDecimal(i2);
    var b1, b2 := IntToDecimal(t1), IntToDecimal(t2);
    assert ItemId(s1, i1, t1) == s1 + "-" + (a1 + "-" + b1);
    assert ItemId(s2, i2, t2) == s2 + "-" + (a2 + "-" + b2);
    SplitAtFirstDash(s1, a1 + "-" + b1, s2, a2 + "-" + b2);
    DigitsHaveNoDash(i1);
    DigitsHaveNoDash(i2);
    SplitAtFirstDash(a1, b1, a2, b2);
    IntToDecimalInjective(i1, i2);
  }

  /** Splitting at the first '-' recovers both halves. */
  lemma SplitAtFirstDash(a1: string, b1: string, a2: string, b2: string)
    requires '-' !in a1 && '-' !in a2
    requires a1 + "-" + b1 == a2 + "-" + b2
    ensures a1 == a2 && b1 == b2
  {
    var id := a1 + "-" + b1;
    FirstDashAfter(a1, b1);
    FirstDashAfter(a2, b2);
    assert a1 == id[..|a1|] && a2 == id[..|a2|];
    assert b1 == id[|a1| + 1..] && b2 == id[|a2| + 1..];
  }

  /** In `a + "-" + b` with no '-' in `a`, the first '-' is the one after `a`. */
  lemma FirstDashAfter(a: string, b: string)
    requires '-' !in a
    ensures IndexOf(a + "-" + b, '-') == |a|
  {
    var s := a + "-" + b;
    assert s[|a|] == '-';
  }

  lemma DigitsHaveNoDash(n: nat)
    ensures '-' !in IntToDecimal(n)
  {
  }
}
