/**
 * The news collector: summary cleaning, date normalisation, and the
 * selection, ordering and capping of articles over the entries the feeds
 * return. Fetching and parsing the feeds, the HTML parser and `strptime`
 * are parameters.
 */
module NewsCollector {
  import opened Wrappers
  import opened PyText
  import opened StableSort
  import opened Seqs

  // ---------------------------------------------------------------------
  // clean_summary
  // ---------------------------------------------------------------------

  const SummaryMaxLength: nat := 300

  /** `clean_summary(summary)`, given what the parser made of it; when the
      parser fails the summary comes back unchanged. */
  function CleanSummary(summary: string, parsed: Option<string>): string {
    match parsed
    case None => summary
    case Some(text) =>
      var collapsed := Collapse(text);
      if |collapsed| > SummaryMaxLength then collapsed[..SummaryMaxLength] + "..." else collapsed
  }

  /** A summary the parser fails on comes back unchanged. A parsed
      summary is at most 303 characters long; one whose collapsed text
      fits in 300 is that text, with its words in order and single spaces
      between them; a longer one is its first 300 characters and an
      ellipsis. */
  lemma CleanSummaryShape(summary: string, text: string)
    ensures CleanSummary(summary, None) == summary
    ensures |CleanSummary(summary, Some(text))| <= SummaryMaxLength + 3
    ensures |Collapse(text)| <= SummaryMaxLength ==>
      && CleanSummary(summary, Some(text)) == Collapse(text)
      && Collapsed(CleanSummary(summary, Some(text)))
      && Split(CleanSummary(summary, Some(text))) == Split(text)
    ensures |Collapse(text)| > SummaryMaxLength ==>
      CleanSummary(summary, Some(text)) == Collapse(text)[..SummaryMaxLength] + "..."
  {
    CollapseShape(text);
  }

  /** An already clean short summary is left as it is. */
  lemma CleanSummaryKeepsShort(summary: string, text: string)
    requires Collapsed(text) && |text| <= SummaryMaxLength
    ensures CleanSummary(summary, Some(text)) == text
  {
    CollapseFixpoint(text);
  }

  // ---------------------------------------------------------------------
  // parse_date
  // ---------------------------------------------------------------------

  /** The formats tried, in order. */
  const DateFormats: seq<string> :=
    ["%a, %d %b %Y %H:%M:%S %z", "%a, %d %b %Y %H:%M:%S GMT", "%Y-%m-%dT%H:%M:%S%z", "%Y-%m-%d %H:%M:%S"]

  /** What comes back when no format matches. */
  const FallbackDate: string := "2025-02-08 22:30:35"

  /** `render(date, fmt)` is `strptime(date, fmt)` rendered with
      `'%Y-%m-%d %H:%M:%S'`, or `None` when the date does not match. */
  type Renderer = (string, string) -> Option<string>

  /** The rendering by the first format that matches, or the fallback. */
  function FirstRendering(date: string, formats: seq<string>, render: Renderer): string {
    if formats == [] then FallbackDate
    else if render(date, formats[0]).Some? then render(date, formats[0]).value
    else FirstRendering(date, formats[1..], render)
  }

  /** The first matching format decides: a format that matches after only
      failures gives the result; when none matches, the fallback. */
  lemma {:induction false} FirstRenderingChoice(date: string, formats: seq<string>, render: Renderer)
    ensures (forall k :: 0 <= k < |formats| ==> render(date, formats[k]).None?) ==>
      FirstRendering(date, formats, render) == FallbackDate
    ensures forall k ::
      (0 <= k < |formats| && render(date, formats[k]).Some? && forall j :: 0 <= j < k ==> render(date, formats[j]).None?)
      ==> FirstRendering(date, formats, render) == render(date, formats[k]).value
  {
    if formats != [] {
      FirstRenderingChoice(date, formats[1..], render);
      assert forall k :: 0 < k < |formats| ==> formats[k] == formats[1..][k - 1];
    }
  }

  /** `parse_date(date_str)` */
  method ParseDate(date: string, render: Renderer) returns (r: string)
    ensures r == FirstRendering(date, DateFormats, render)
  {
    var i := 0;
    while i < |DateFormats|
      invariant 0 <= i <= |DateFormats|
      invariant FirstRendering(date, DateFormats[i..], render) == FirstRendering(date, DateFormats, render)
    {
      var attempt := render(date, DateFormats[i]);
      if attempt.Some? {
        return attempt.value;
      }
      assert DateFormats[i..][1..] == DateFormats[i + 1..];
      i := i + 1;
    }
    r := FallbackDate;
  }

  // ---------------------------------------------------------------------
  // fetch_crypto_news
  // ---------------------------------------------------------------------

  const NewsFeeds: seq<string> :=
    ["https://cointelegraph.com/rss", "https://coindesk.com/arc/outboundfeeds/rss/", "https://cryptonews.com/news/feed"]

  /** One feed entry; a missing field reads as the empty string. */
  datatype FeedEntry = FeedEntry(title: string, summary: string, link: string, published: string)

  /** What fetching and parsing one feed gives: its status (if any) and
      entries, or an exception. */
  datatype FeedResponse = FetchFailed | Feed(status: Option<int>, entries: seq<FeedEntry>)

  datatype Article = Article(title: string, summary: string, link: string, publishedDate: string, source: string)

  /** The collaborators: the feed fetcher, the HTML parser's text for a
      summary, and date rendering. */
  datatype World = World(fetch: string -> FeedResponse, summaryText: string -> Option<string>, render: Renderer)

  /** The article dictionary built from one entry. */
  function MakeArticle(e: FeedEntry, source: string, w: World): Article {
    Article(Strip(e.title), CleanSummary(e.summary, w.summaryText(e.summary)), e.link,
      FirstRendering(e.published, DateFormats, w.render), source)
  }

  /** How an entry of a feed becomes an article; the selection below does
      not depend on how, only on the title it gets. */
  type Maker = (FeedEntry, string) -> Article

  function ArticleMaker(w: World): Maker {
    (e: FeedEntry, source: string) => MakeArticle(e, source, w)
  }

  /** The article for each entry of a feed, in feed order. */
  function Articles(entries: seq<FeedEntry>, source: string, make: Maker): (arts: seq<Article>)
    ensures |arts| == |entries|
  {
    seq(|entries|, k requires 0 <= k < |entries| => make(entries[k], source))
  }

  predicate FeedOk(r: FeedResponse) {
    r.Feed? && r.status == Some(200)
  }

  /** The articles of one feed that are kept when `have` are already
      collected: each one with a non-empty title, until the count reaches
      `max`. */
  function Select(arts: seq<Article>, have: int, max: int): seq<Article> {
    if arts == [] then []
    else
      var added := if arts[0].title != [] then [arts[0]] else [];
      if have + |added| >= max then added
      else added + Select(arts[1..], have + |added|, max)
  }

  /** Only articles with a title are kept, and only articles of the feed. */
  lemma {:induction false} SelectProvenance(arts: seq<Article>, have: int, max: int)
    ensures forall a :: a in Select(arts, have, max) ==> a in arts && a.title != []
  {
    if arts != [] {
      var added := if arts[0].title != [] then [arts[0]] else [];
      if have + |added| < max {
        SelectProvenance(arts[1..], have + |added|, max);
      }
    }
  }

  /** The articles of `arts` that have a title, in order. */
  function Titled(arts: seq<Article>): (r: seq<Article>)
    ensures forall a :: multiset(r)[a] == if a.title != [] then multiset(arts)[a] else 0
    ensures Subsequence(r, arts)
  {
    if arts == [] then []
    else
      var rest := Titled(arts[1..]);
      FilterStep(arts, rest, (a: Article) => a.title != []);
      (if arts[0].title != [] then [arts[0]] else []) + rest
  }

  /** Below the cap, a feed adds its titled articles in order until the
      count reaches `max`: the first `max - have` of them. At or above the
      cap, the first entry is still looked at before the `break`, and is
      added when it has a title. */
  lemma {:induction false} SelectIsCappedFilter(arts: seq<Article>, have: int, max: int)
    ensures have < max ==> Select(arts, have, max) == Take(Titled(arts), max - have)
    ensures have >= max && arts != [] ==>
      Select(arts, have, max) == if arts[0].title != [] then [arts[0]] else []
  {
    if arts != [] && have < max {
      var rest := Titled(arts[1..]);
      SelectIsCappedFilter(arts[1..], have + (if arts[0].title != [] then 1 else 0), max);
      if arts[0].title != [] {
        assert Titled(arts) == [arts[0]] + rest;
        TakeCons(arts[0], rest, max - have);
        if have + 1 >= max {
          assert Select(arts, have, max) == [arts[0]];
          assert Take(rest, max - have - 1) == [];
        } else {
          assert Select(arts, have, max) == [arts[0]] + Select(arts[1..], have + 1, max);
        }
      } else {
        assert Titled(arts) == rest;
        assert Select(arts, have, max) == Select(arts[1..], have, max);
      }
    }
  }

  /** The articles a feed's response adds: nothing unless the status is 200. */
  function FromResponse(resp: FeedResponse, source: string, have: int, max: int, make: Maker): seq<Article> {
    if FeedOk(resp) then Select(Articles(resp.entries, source, make), have, max) else []
  }

  /** The articles collected from the feeds in turn, `have` already held. */
  function FromFeeds(urls: seq<string>, have: int, max: int, fetch: string -> FeedResponse, make: Maker): seq<Article> {
    if urls == [] then []
    else
      var got := FromResponse(fetch(urls[0]), urls[0], have, max, make);
      got + FromFeeds(urls[1..], have + |got|, max, fetch, make)
  }

  lemma FromFeedsUnfold(urls: seq<string>, have: int, max: int, fetch: string -> FeedResponse, make: Maker)
    requires urls != []
    ensures
      var got := FromResponse(fetch(urls[0]), urls[0], have, max, make);
      FromFeeds(urls, have, max, fetch, make) == got + FromFeeds(urls[1..], have + |got|, max, fetch, make)
  {
  }

  /** An article the collection holds: a titled entry of a configured feed
      that answered with status 200, made into an article. */
  ghost predicate Provenance(a: Article, urls: seq<string>, fetch: string -> FeedResponse, make: Maker) {
    exists source ::
      && source in urls
      && FeedOk(fetch(source))
      && a in Articles(fetch(source).entries, source, make)
      && a.title != []
  }

  /** Every collected article comes from a feed that answered with 200:
      what the feeds from `i` on add to `collected` keeps this true. */
  lemma {:induction false} FromFeedsProvenance(urls: seq<string>, i: nat, collected: seq<Article>, max: int,
                                                fetch: string -> FeedResponse, make: Maker, done: seq<Article>)
    requires i <= |urls|
    requires collected + FromFeeds(urls[i..], |collected|, max, fetch, make) == done
    requires forall a :: a in collected ==> Provenance(a, urls, fetch, make)
    ensures forall a :: a in done ==> Provenance(a, urls, fetch, make)
    decreases |urls| - i
  {
    if i < |urls| {
      FromFeedsStep(urls, i, collected, max, fetch, make, done);
      var got := FromResponse(fetch(urls[i]), urls[i], |collected|, max, make);
      FeedProvenance(urls, i, |collected|, max, fetch, make);
      ProvenanceAppend(collected, got, urls, fetch, make);
      FromFeedsProvenance(urls, i + 1, collected + got, max, fetch, make, done);
    } else {
      assert urls[i..] == [];
      assert done == collected + [];
    }
  }

  /** What the feed at `i` adds comes from the feeds. */
  lemma FeedProvenance(urls: seq<string>, i: nat, have: int, max: int, fetch: string -> FeedResponse, make: Maker)
    requires i < |urls|
    ensures forall a :: a in FromResponse(fetch(urls[i]), urls[i], have, max, make) ==> Provenance(a, urls, fetch, make)
  {
    if FeedOk(fetch(urls[i])) {
      SelectProvenance(Articles(fetch(urls[i]).entries, urls[i], make), have, max);
      assert urls[i] in urls;
    }
  }

  lemma ProvenanceAppend(collected: seq<Article>, got: seq<Article>, urls: seq<string>,
                         fetch: string -> FeedResponse, make: Maker)
    requires forall a :: a in collected ==> Provenance(a, urls, fetch, make)
    requires forall a :: a in got ==> Provenance(a, urls, fetch, make)
    ensures forall a :: a in collected + got ==> Provenance(a, urls, fetch, make)
  {
  }

  /** Newer first: the order of `sort(key=published_date, reverse=True)`. */
  predicate LaterOrSame(a: Article, b: Article) {
    StrLe(b.publishedDate, a.publishedDate)
  }

  function Collected(max: int, w: World): seq<Article> {
    FromFeeds(NewsFeeds, 0, max, w.fetch, ArticleMaker(w))
  }

  /** `fetch_crypto_news(max_articles)` */
  function FetchSpec(max: int, w: World): seq<Article> {
    Take(Sort(Collected(max, w), LaterOrSame), max)
  }

  /** One article, its date parsed by `parse_date`. */
  method BuildArticle(e: FeedEntry, source: string, w: World) returns (a: Article)
    ensures a == MakeArticle(e, source, w)
  {
    var date := ParseDate(e.published, w.render);
    a := Article(Strip(e.title), CleanSummary(e.summary, w.summaryText(e.summary)), e.link, date, source);
  }

  lemma SelectUnfold(arts: seq<Article>, have: int, max: int)
    requires arts != []
    ensures
      var added := if arts[0].title != [] then [arts[0]] else [];
      Select(arts, have, max) == if have + |added| >= max then added else added + Select(arts[1..], have + |added|, max)
  {
  }

  /** One turn of the inner loop: the article at `j` is appended when it
      has a title, and the loop stops once the count reaches `max`. */
  lemma SelectStep(arts: seq<Article>, j: nat, out: seq<Article>, done: seq<Article>, max: int)
    requires j < |arts|
    requires out + Select(arts[j..], |out|, max) == done
    ensures
      var next := if arts[j].title != [] then out + [arts[j]] else out;
      && (|next| >= max ==> next == done)
      && (|next| < max ==> next + Select(arts[j + 1..], |next|, max) == done)
  {
    var rest := arts[j..];
    assert rest[0] == arts[j] && rest[1..] == arts[j + 1..];
    SelectUnfold(rest, |out|, max);
    if arts[j].title != [] {
      var next := out + [arts[j]];
      if |next| < max {
        Assoc(out, [arts[j]], Select(arts[j + 1..], |next|, max));
      }
    } else if |out| < max {
      assert [] + Select(arts[j + 1..], |out|, max) == Select(arts[j + 1..], |out|, max);
    }
  }

  /** The inner loop over one feed's entries. */
  method CollectEntries(entries: seq<FeedEntry>, source: string, collected: seq<Article>, max: int, w: World)
    returns (out: seq<Article>)
    ensures out == collected + Select(Articles(entries, source, ArticleMaker(w)), |collected|, max)
  {
    ghost var arts := Articles(entries, source, ArticleMaker(w));
    ghost var done := collected + Select(arts, |collected|, max);
    out := collected;
    var j := 0;
    while j < |entries|
      invariant 0 <= j <= |entries|
      invariant out + Select(arts[j..], |out|, max) == done
    {
      var article := BuildArticle(entries[j], source, w);
      assert arts[j] == article;
      SelectStep(arts, j, out, done, max);
      if article.title != [] {
        out := out + [article];
      }
      if |out| >= max {
        break;
      }
      j := j + 1;
    }
  }

  /** One feed's turn: its entries are collected only when it answered
      with status 200. */
  method CollectFeed(feed: FeedResponse, url: string, collected: seq<Article>, max: int, w: World)
    returns (out: seq<Article>)
    ensures out == collected + FromResponse(feed, url, |collected|, max, ArticleMaker(w))
  {
    out := collected;
    if feed.Feed? && feed.status == Some(200) {
      out := CollectEntries(feed.entries, url, collected, max, w);
    }
  }

  lemma Regroup(before: seq<Article>, got: seq<Article>, rest: seq<Article>, all: seq<Article>, done: seq<Article>)
    requires all == got + rest && before + all == done
    ensures (before + got) + rest == done && |before + got| == |before| + |got|
  {
  }

  /** One turn of the outer loop: the feed at `i` adds its articles. */
  lemma FromFeedsStep(urls: seq<string>, i: nat, collected: seq<Article>, max: int,
                      fetch: string -> FeedResponse, make: Maker, done: seq<Article>)
    requires i < |urls|
    requires collected + FromFeeds(urls[i..], |collected|, max, fetch, make) == done
    ensures
      var next := collected + FromResponse(fetch(urls[i]), urls[i], |collected|, max, make);
      next + FromFeeds(urls[i + 1..], |next|, max, fetch, make) == done
  {
    var u := urls[i..];
    assert u[0] == urls[i] && u[1..] == urls[i + 1..];
    var got := FromResponse(fetch(urls[i]), urls[i], |collected|, max, make);
    var rest := FromFeeds(urls[i + 1..], |collected| + |got|, max, fetch, make);
    FromFeedsUnfold(u, |collected|, max, fetch, make);
    Regroup(collected, got, rest, FromFeeds(u, |collected|, max, fetch, make), done);
  }

  /** The outer loop over the feeds. */
  method CollectFeeds(urls: seq<string>, max: int, w: World) returns (collected: seq<Article>)
    ensures collected == FromFeeds(urls, 0, max, w.fetch, ArticleMaker(w))
  {
    ghost var done := FromFeeds(urls, 0, max, w.fetch, ArticleMaker(w));
    collected := [];
    var i := 0;
    while i < |urls|
      invariant 0 <= i <= |urls|
      invariant collected + FromFeeds(urls[i..], |collected|, max, w.fetch, ArticleMaker(w)) == done
    {
      FromFeedsStep(urls, i, collected, max, w.fetch, ArticleMaker(w), done);
      var url := urls[i];
      var feed := w.fetch(url);
      collected := CollectFeed(feed, url, collected, max, w);
      i := i + 1;
    }
  }

  method FetchCryptoNews(max: int, w: World) returns (articles: seq<Article>)
    ensures articles == FetchSpec(max, w)
  {
    var collected := CollectFeeds(NewsFeeds, max, w);
    articles := Take(Sort(collected, LaterOrSame), max);
  }

  // ---------------------------------------------------------------------
  // Properties of fetch_crypto_news
  // ---------------------------------------------------------------------

  /** The order of `sort(key=published_date, reverse=True)`: a total
      preorder in which two articles tie exactly when their dates are the
      same string. */
  lemma LaterOrSamePreorder()
    ensures TotalPreorder(LaterOrSame)
    ensures forall a, b :: Tie(a, b, LaterOrSame) <==> a.publishedDate == b.publishedDate
  {
    forall a: Article, b: Article ensures Tie(a, b, LaterOrSame) <==> a.publishedDate == b.publishedDate {
      StrLeTotal(a.publishedDate, a.publishedDate);
      if Tie(a, b, LaterOrSame) {
        StrLeAntisymmetric(a.publishedDate, b.publishedDate);
      }
    }
    forall a: Article, b: Article ensures LaterOrSame(a, b) || LaterOrSame(b, a) {
      StrLeTotal(a.publishedDate, b.publishedDate);
    }
    forall a: Article, b: Article, c: Article | LaterOrSame(a, b) && LaterOrSame(b, c)
      ensures LaterOrSame(a, c)
    {
      StrLeTransitive(c.publishedDate, b.publishedDate, a.publishedDate);
    }
  }

  /** At most `max_articles` articles come back. */
  lemma FetchBound(max: int, w: World)
    requires max >= 0
    ensures |FetchSpec(max, w)| <= max
  {
  }

  /** Every article returned is a titled entry of a configured feed that
      answered with status 200, made into an article. */
  lemma FetchProvenance(max: int, w: World)
    ensures forall a :: a in FetchSpec(max, w) ==> Provenance(a, NewsFeeds, w.fetch, ArticleMaker(w))
  {
    var c := Collected(max, w);
    var r := FetchSpec(max, w);
    var s := Sort(c, LaterOrSame);
    assert NewsFeeds[0..] == NewsFeeds;
    FromFeedsProvenance(NewsFeeds, 0, [], max, w.fetch, ArticleMaker(w), c);
    SortPermutation(c, LaterOrSame);
    forall a | a in r ensures Provenance(a, NewsFeeds, w.fetch, ArticleMaker(w)) {
      var k :| 0 <= k < |r| && r[k] == a;
      assert a == s[k];
      assert a in multiset(s);
      assert a in c;
    }
  }

  /** Newest first: the publication dates are in non-increasing order, and
      articles with the same date keep their collection order. */
  lemma FetchOrder(max: int, w: World, e: Article)
    ensures SortedDesc(FetchSpec(max, w), LaterOrSame)
    ensures Ties(Sort(Collected(max, w), LaterOrSame), e, LaterOrSame) == Ties(Collected(max, w), e, LaterOrSame)
  {
    LaterOrSamePreorder();
    SortSorted(Collected(max, w), LaterOrSame);
    SortStable(Collected(max, w), e, LaterOrSame);
  }

  /** A feed that fails or answers with another status adds nothing. */
  lemma FailedFeedAddsNothing(resp: FeedResponse, source: string, have: int, max: int, make: Maker)
    requires !FeedOk(resp)
    ensures FromResponse(resp, source, have, max, make) == []
  {
  }

  /** The feed answers with status 200 and its first entry has a title. */
  predicate TitledFirstEntry(resp: FeedResponse) {
    FeedOk(resp) && resp.entries != [] && Strip(resp.entries[0].title) != []
  }

  /** The break inside a feed does not bound the collection: with
      `max_articles` at most 1 and every feed answering with a titled first
      entry, each feed still adds one article, and only the final slice
      brings the result back within the cap. */
  lemma PerFeedBreakDoesNotBound(max: int, w: World)
    requires max <= 1
    requires forall k :: 0 <= k < |NewsFeeds| ==> TitledFirstEntry(w.fetch(NewsFeeds[k]))
    ensures |Collected(max, w)| == |NewsFeeds|
    ensures max >= 0 ==> |FetchSpec(max, w)| == max
  {
    forall k | 0 <= k < |NewsFeeds|
      ensures ArticleMaker(w)(w.fetch(NewsFeeds[k]).entries[0], NewsFeeds[k]).title != []
    {
      assert TitledFirstEntry(w.fetch(NewsFeeds[k]));
    }
    OneEach(NewsFeeds, 0, max, w.fetch, ArticleMaker(w));
    var c := Collected(max, w);
    SortPermutation(c, LaterOrSame);
    assert |Sort(c, LaterOrSame)| == |multiset(Sort(c, LaterOrSame))| == |multiset(c)| == |c|;
  }

  /** With `max` at most 1, every feed whose first entry gets a title adds
      exactly that one article, however many are already held. */
  lemma {:induction false} OneEach(urls: seq<string>, have: int, max: int, fetch: string -> FeedResponse, make: Maker)
    requires max <= 1 && have >= 0
    requires forall k :: 0 <= k < |urls| ==>
      FeedOk(fetch(urls[k])) && fetch(urls[k]).entries != [] && make(fetch(urls[k]).entries[0], urls[k]).title != []
    ensures |FromFeeds(urls, have, max, fetch, make)| == |urls|
  {
    if urls != [] {
      var resp := fetch(urls[0]);
      var arts := Articles(resp.entries, urls[0], make);
      assert arts[0].title != [];
      SelectUnfold(arts, have, max);
      FromFeedsUnfold(urls, have, max, fetch, make);
      assert forall k :: 0 <= k < |urls[1..]| ==> urls[1..][k] == urls[k + 1];
      OneEach(urls[1..], have + 1, max, fetch, make);
    }
  }
}
