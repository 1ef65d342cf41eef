/** The feed configuration and the flattening of fetched feeds into raw
    article records (`processer.list_sources`, `fetch_sources_raw` and
    `get_articales`). Missing dictionary keys are `None`; the feed fetch
    itself is a parameter. */
module Feeds {
  import opened Wrappers

  /** One entry of the configuration's `sources` list. */
  datatype SourceConfig = SourceConfig(name: Option<string>, url: Option<string>)

  /** The loaded configuration; `sources` is `None` when the key is missing. */
  datatype FeedConfig = FeedConfig(sources: Option<seq<SourceConfig>>)

  /** One item a feed fetch returns. */
  datatype FeedItem = FeedItem(url: Option<string>, title: Option<string>, ts: Option<string>, text: Option<string>)

  /** One fetched source: its name, its feed url and its items. */
  datatype SourceBatch = SourceBatch(source: Option<string>, url: Option<string>, articles: Option<seq<FeedItem>>)

  /** One raw article record, every field filled. */
  datatype RawArticle = RawArticle(source: string, sourceUrl: string, articleUrl: string,
                                   title: string, timestamp: string, text: string)

  /** `data.get("sources", [])`. */
  function Sources(config: FeedConfig): seq<SourceConfig> {
    match config.sources
    case Some(s) => s
    case None => []
  }

  // ---------------------------------------------------------------------------
  // list_sources

  /** `[source["name"] for source in sources]`, failing with a KeyError at the
      first source without a name. */
  function NamesOf(sources: seq<SourceConfig>): (r: Result<seq<string>>)
    ensures r.Success? <==> forall i :: 0 <= i < |sources| ==> sources[i].name.Some?
    ensures r.Success? ==> |r.value| == |sources|
    ensures r.Success? ==> forall i :: 0 <= i < |sources| ==> r.value[i] == sources[i].name.value
  {
    if sources == [] then Success([])
    else match sources[0].name
      case None => Failure("KeyError: 'name'")
      case Some(n) =>
        var rest := NamesOf(sources[1..]);
        if rest.Failure? then
          assert !sources[1..][IndexOfMissing(sources[1..])].name.Some?;
          rest
        else
          Success([n] + rest.value)
  }

  /** The position of a source without a name, in a list that has one. */
  function IndexOfMissing(sources: seq<SourceConfig>): (i: nat)
    requires exists i :: 0 <= i < |sources| && sources[i].name.None?
    ensures i < |sources| && sources[i].name.None?
  {
    if sources[0].name.None? then 0
    else
      assert exists i :: 0 <= i < |sources[1..]| && sources[1..][i].name.None? by {
        var i :| 0 <= i < |sources| && sources[i].name.None?;
        assert sources[1..][i - 1] == sources[i];
      }
      1 + IndexOfMissing(sources[1..])
  }

  /** `list_sources()`. */
  function ListSources(config: FeedConfig): (r: Result<seq<string>>)
    ensures config.sources.None? ==> r == Success([])
    ensures r.Success? ==> |r.value| == |Sources(config)|
  {
    NamesOf(Sources(config))
  }

  // ---------------------------------------------------------------------------
  // fetch_sources_raw

  predicate HasUrl(s: SourceConfig) {
    GetOr(s.url, "") != ""
  }

  /** The sources with a non-empty url, in their order. */
  function WithUrl(sources: seq<SourceConfig>): (r: seq<SourceConfig>)
    ensures |r| <= |sources|
    ensures forall i :: 0 <= i < |r| ==> HasUrl(r[i]) && r[i] in sources
  {
    if sources == [] then []
    else if HasUrl(sources[0]) then [sources[0]] + WithUrl(sources[1..])
    else WithUrl(sources[1..])
  }

  lemma {:induction false} WithUrlAppend(a: seq<SourceConfig>, b: seq<SourceConfig>)
    ensures WithUrl(a + b) == WithUrl(a) + WithUrl(b)
  {
    if a == [] {
      assert a + b == b;
    } else {
      assert (a + b)[1..] == a[1..] + b;
      WithUrlAppend(a[1..], b);
    }
  }

  /** A source is kept exactly when it is one of the sources and has a url. */
  lemma {:induction false} WithUrlMembers(sources: seq<SourceConfig>, s: SourceConfig)
    ensures s in WithUrl(sources) <==> s in sources && HasUrl(s)
  {
    if sources != [] {
      WithUrlMembers(sources[1..], s);
      assert sources == [sources[0]] + sources[1..];
    }
  }

  /** Every source with a url is kept as often as it occurs, in order, and no other is. */
  lemma {:induction false} WithUrlCounts(sources: seq<SourceConfig>, s: SourceConfig)
    ensures multiset(WithUrl(sources))[s] == if HasUrl(s) then multiset(sources)[s] else 0
  {
    if sources != [] {
      WithUrlCounts(sources[1..], s);
      assert sources == [sources[0]] + sources[1..];
    }
  }

  /** The batch of one source: its name (default "Unknown"), its url and its items. */
  function BatchOf(s: SourceConfig, pull: string -> seq<FeedItem>): (b: SourceBatch)
    ensures b.source == Some(GetOr(s.name, "Unknown"))
    ensures b.url == Some(GetOr(s.url, ""))
    ensures b.articles == Some(pull(GetOr(s.url, "")))
  {
    var url := GetOr(s.url, "");
    SourceBatch(Some(GetOr(s.name, "Unknown")), Some(url), Some(pull(url)))
  }

  /** What `fetch_sources_raw` returns: one batch per source with a url, in order. */
  function FetchedOf(sources: seq<SourceConfig>, pull: string -> seq<FeedItem>): (r: seq<SourceBatch>)
    ensures |r| == |WithUrl(sources)|
    ensures forall i :: 0 <= i < |r| ==> r[i] == BatchOf(WithUrl(sources)[i], pull)
  {
    var u := WithUrl(sources);
    seq(|u|, i requires 0 <= i < |u| => BatchOf(u[i], pull))
  }

  /** Every source with a url gets its batch. */
  lemma FetchedEverySource(sources: seq<SourceConfig>, pull: string -> seq<FeedItem>, s: SourceConfig)
    requires s in sources && HasUrl(s)
    ensures BatchOf(s, pull) in FetchedOf(sources, pull)
  {
    WithUrlMembers(sources, s);
    var u := WithUrl(sources);
    var i :| 0 <= i < |u| && u[i] == s;
    assert FetchedOf(sources, pull)[i] == BatchOf(s, pull);
  }

  /** `fetch_sources_raw()`: a source with an empty or missing url is skipped
      and not fetched. */
  method FetchSourcesRaw(config: FeedConfig, pull: string -> seq<FeedItem>) returns (batches: seq<SourceBatch>)
    ensures batches == FetchedOf(Sources(config), pull)
    ensures forall i :: 0 <= i < |batches| ==> batches[i].url.Some? && batches[i].url.value != ""
  {
    var sources := Sources(config);
    batches := [];
    var i := 0;
    while i < |sources|
      invariant 0 <= i <= |sources|
      invariant batches == FetchedOf(sources[..i], pull)
    {
      WithUrlAppend(sources[..i], [sources[i]]);
      assert sources[..i + 1] == sources[..i] + [sources[i]];
      var feedUrl := GetOr(sources[i].url, "");
      if feedUrl != "" {
        var articles := pull(feedUrl);
        batches := batches + [SourceBatch(Some(GetOr(sources[i].name, "Unknown")), Some(feedUrl), Some(articles))];
      }
      i := i + 1;
    }
    assert sources[..i] == sources;
  }

  // ---------------------------------------------------------------------------
  // get_articales

  /** `source_data.get("articles", [])`. */
  function Items(b: SourceBatch): seq<FeedItem> {
    match b.articles
    case Some(a) => a
    case None => []
  }

  /** The record of one item of one batch, every missing key defaulted. */
  function Record(b: SourceBatch, it: FeedItem): (a: RawArticle)
    ensures a.source == GetOr(b.source, "Unknown") && a.sourceUrl == GetOr(b.url, "")
    ensures a.articleUrl == GetOr(it.url, "") && a.title == GetOr(it.title, "")
    ensures a.timestamp == GetOr(it.ts, "") && a.text == GetOr(it.text, "")
  {
    RawArticle(GetOr(b.source, "Unknown"), GetOr(b.url, ""), GetOr(it.url, ""),
               GetOr(it.title, ""), GetOr(it.ts, ""), GetOr(it.text, ""))
  }

  function RecordsOf(b: SourceBatch): (r: seq<RawArticle>)
    ensures |r| == |Items(b)|
    ensures forall j :: 0 <= j < |r| ==> r[j] == Record(b, Items(b)[j])
  {
    var items := Items(b);
    seq(|items|, j requires 0 <= j < |items| => Record(b, items[j]))
  }

  /** The total number of items over the batches. */
  function TotalItems(bs: seq<SourceBatch>): nat {
    if bs == [] then 0 else TotalItems(bs[..|bs| - 1]) + |Items(bs[|bs| - 1])|
  }

  /** The records of every batch, batch after batch. */
  function Flatten(bs: seq<SourceBatch>): (r: seq<RawArticle>)
    ensures forall a :: a in r ==> exists i, j :: 0 <= i < |bs| && 0 <= j < |Items(bs[i])| && a == Record(bs[i], Items(bs[i])[j])
  {
    if bs == [] then [] else Flatten(bs[..|bs| - 1]) + RecordsOf(bs[|bs| - 1])
  }

  /** There are as many records as items over all batches. */
  lemma {:induction false} FlattenLength(bs: seq<SourceBatch>)
    ensures |Flatten(bs)| == TotalItems(bs)
  {
    if bs != [] {
      FlattenLength(bs[..|bs| - 1]);
    }
  }

  lemma {:induction false} FlattenAppend(a: seq<SourceBatch>, b: seq<SourceBatch>)
    ensures Flatten(a + b) == Flatten(a) + Flatten(b)
    decreases |b|
  {
    if b == [] {
      assert a + b == a;
    } else {
      var b', last := b[..|b| - 1], b[|b| - 1];
      assert (a + b)[..|a + b| - 1] == a + b';
      assert (a + b)[|a + b| - 1] == last;
      assert Flatten(a + b) == Flatten(a + b') + RecordsOf(last);
      FlattenAppend(a, b');
      assert Flatten(b) == Flatten(b') + RecordsOf(last);
    }
  }

  /** The records split around batch `i`. */
  lemma FlattenAround(bs: seq<SourceBatch>, i: nat)
    requires i < |bs|
    ensures Flatten(bs) == Flatten(bs[..i]) + RecordsOf(bs[i]) + Flatten(bs[i + 1..])
  {
    var front, rest := bs[..i + 1], bs[i + 1..];
    assert bs == front + rest;
    FlattenAppend(front, rest);
    assert front[..|front| - 1] == bs[..i];
  }

  /** Item `j` of batch `i` lands right after the items of the batches before it. */
  lemma FlattenAt(bs: seq<SourceBatch>, i: nat, j: nat)
    requires i < |bs| && j < |Items(bs[i])|
    ensures TotalItems(bs[..i]) + j < |Flatten(bs)|
    ensures Flatten(bs)[TotalItems(bs[..i]) + j] == Record(bs[i], Items(bs[i])[j])
  {
    var f, recs, g := Flatten(bs[..i]), RecordsOf(bs[i]), Flatten(bs[i + 1..]);
    assert Flatten(bs) == f + recs + g by {
      FlattenAround(bs, i);
    }
    assert |f| == TotalItems(bs[..i]) by {
      FlattenLength(bs[..i]);
    }
    assert recs[j] == Record(bs[i], Items(bs[i])[j]);
    ConcatAt(f, recs, g, j);
  }

  lemma ConcatAt<T>(f: seq<T>, recs: seq<T>, g: seq<T>, j: nat)
    requires j < |recs|
    ensures |f| + j < |f + recs + g| && (f + recs + g)[|f| + j] == recs[j]
  {
  }

  /** The inner loop of `get_articales`: the records of one batch appended. */
  method AppendRecords(acc: seq<RawArticle>, b: SourceBatch) returns (r: seq<RawArticle>)
    ensures r == acc + RecordsOf(b)
  {
    var items := Items(b);
    r := acc;
    var j := 0;
    while j < |items|
      invariant 0 <= j <= |items|
      invariant r == acc + RecordsOf(b)[..j]
    {
      assert RecordsOf(b)[..j + 1] == RecordsOf(b)[..j] + [Record(b, items[j])];
      r := r + [Record(b, items[j])];
      j := j + 1;
    }
    assert RecordsOf(b)[..j] == RecordsOf(b);
  }

  /** `get_articales(raw_data)`: every item of every batch, in batch order and
      then item order; with no batches given, the feeds are fetched first. */
  method GetArticles(config: FeedConfig, rawData: Option<seq<SourceBatch>>, pull: string -> seq<FeedItem>)
    returns (articles: seq<RawArticle>)
    ensures rawData.Some? ==> articles == Flatten(rawData.value)
    ensures rawData.None? ==> articles == Flatten(FetchedOf(Sources(config), pull))
  {
    var batches: seq<SourceBatch>;
    if rawData.None? {
      batches := FetchSourcesRaw(config, pull);
    } else {
      batches := rawData.value;
    }
    articles := [];
    var i := 0;
    while i < |batches|
      invariant 0 <= i <= |batches|
      invariant articles == Flatten(batches[..i])
    {
      articles := AppendRecords(articles, batches[i]);
      assert batches[..i + 1][..i] == batches[..i];
      assert Flatten(batches[..i + 1]) == Flatten(batches[..i]) + RecordsOf(batches[i]);
      i := i + 1;
    }
    assert batches[..i] == batches;
  }
}
