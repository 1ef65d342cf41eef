/** The two passes of the cleaner: `normalize_articles` trims raw records and
    drops those without text; `process_articles` canonicalises, sanitises and
    gates each record and keeps only those that pass every gate. Hashing,
    URL parsing, date parsing and HTML text extraction are supplied by the
    caller in an `Env`. */
module Normalize {
  import opened Wrappers
  import opened TextUtil
  import Url
  import Title
  import Sanitize
  import Boilerplate
  import opened Seqs

  /** The collaborators the cleaner calls: `md5(...).hexdigest()`, `urlparse`
      with `parse_qsl` (`None` when it raises), `urlencode` with `urlunparse`,
      `dateutil` parsing to a UTC ISO string (`None` when it fails or raises),
      and the HTML text extraction of the text processor. */
  datatype Env = Env(md5: string -> string,
                     parse: string -> Option<Url.Url>,
                     unparse: Url.Url -> string,
                     parseDate: string -> Option<string>,
                     extract: string -> string)

  /** An input record; a missing key is `None`. */
  datatype InputArticle = InputArticle(source: Option<string>, articleUrl: Option<string>,
                                       title: Option<string>, timestamp: Option<string>,
                                       text: Option<string>)

  /** The record the first pass produces. */
  datatype Normalized = Normalized(id: string, source: string, url: string, title: string,
                                   timestamp: string, text: string)

  /** The record the second pass produces. */
  datatype CleanArticle = CleanArticle(id: string, url: string, source: string, title: string,
                                       timestamp: string, text: string, textLen: nat)

  /** The least length of a cleaned title and of a sanitised text. */
  const MinTitleLength := 12
  const MinTextLength := 200

  /** Host names that map to a fixed outlet name. */
  const SourceMap: map<string, string> := map[
    "nasa.gov" := "NASA", "jpl.nasa.gov" := "JPL", "esa.int" := "ESA",
    "spacenews.com" := "SpaceNews", "spaceflightnow.com" := "SpaceflightNow",
    "arxiv.org" := "arXiv"]

  /** `make_id(url, title)`: the hash of the concatenation. */
  function MakeId(url: string, title: string, md5: string -> string): (r: string)
    ensures r == md5(url + title)
  {
    md5(url + title)
  }

  // ---------------------------------------------------------------------------
  // normalize_articles

  /** The first-pass record of one input, or `None` when its stripped text is empty.
      The id hashes the url and title as given; the stored fields are stripped. */
  function NormalizeOne(a: InputArticle, md5: string -> string): (o: Option<Normalized>)
    ensures o.None? <==> Strip(GetOr(a.text, "")) == ""
    ensures o.Some? ==> o.value.text == Strip(GetOr(a.text, "")) && o.value.text != ""
    ensures o.Some? ==> o.value.id == MakeId(GetOr(a.articleUrl, ""), GetOr(a.title, ""), md5)
    ensures o.Some? ==> o.value.source == Strip(GetOr(a.source, "Unknown"))
    ensures o.Some? ==> o.value.url == Strip(GetOr(a.articleUrl, "")) && o.value.title == Strip(GetOr(a.title, ""))
    ensures o.Some? ==> o.value.timestamp == Strip(GetOr(a.timestamp, ""))
  {
    var text := Strip(GetOr(a.text, ""));
    if text == "" then None
    else Some(Normalized(MakeId(GetOr(a.articleUrl, ""), GetOr(a.title, ""), md5),
                         Strip(GetOr(a.source, "Unknown")), Strip(GetOr(a.articleUrl, "")),
                         Strip(GetOr(a.title, "")), Strip(GetOr(a.timestamp, "")), text))
  }

  /** The first-pass records of `articles`, in order. */
  function NormalizedOf(articles: seq<InputArticle>, md5: string -> string): (r: seq<Normalized>)
    ensures |r| <= |articles|
  {
    FilterMap(articles, a => NormalizeOne(a, md5))
  }

  /** Every first-pass record has non-empty, stripped text. */
  lemma NormalizedHaveText(articles: seq<InputArticle>, md5: string -> string, n: Normalized)
    requires n in NormalizedOf(articles, md5)
    ensures n.text != "" && n.text == Strip(n.text)
  {
    FilterMapMembers(articles, a => NormalizeOne(a, md5), n);
    var i :| 0 <= i < |articles| && NormalizeOne(articles[i], md5) == Some(n);
    StripStripped(GetOr(articles[i].text, ""));
  }

  /** Stripping twice strips once. */
  lemma StripStripped(s: string)
    ensures Strip(Strip(s)) == Strip(s)
  {
    var t := Strip(s);
    if t != [] {
      LStripNone(t);
      RStripNone(t);
    } else {
      assert Strip(t) == [];
    }
  }

  lemma LStripNone(t: string)
    requires t != [] && !IsSpace(t[0])
    ensures LStrip(t) == t
  {
  }

  lemma RStripNone(t: string)
    requires t != [] && !IsSpace(t[|t| - 1]) && !IsSpace(t[0])
    ensures Strip(t) == t
  {
    LStripNone(t);
  }

  /** `normalize_articles(articles)`. */
  method NormalizeArticles(articles: seq<InputArticle>, md5: string -> string) returns (out: seq<Normalized>)
    ensures out == NormalizedOf(articles, md5)
  {
    out := [];
    var i := 0;
    while i < |articles|
      invariant 0 <= i <= |articles|
      invariant out == NormalizedOf(articles[..i], md5)
    {
      FilterMapPrefix(articles, i, a => NormalizeOne(a, md5));
      var text := Strip(GetOr(articles[i].text, ""));
      if text != "" {
        var rec := Normalized(MakeId(GetOr(articles[i].articleUrl, ""), GetOr(articles[i].title, ""), md5),
                              Strip(GetOr(articles[i].source, "Unknown")), Strip(GetOr(articles[i].articleUrl, "")),
                              Strip(GetOr(articles[i].title, "")), Strip(GetOr(articles[i].timestamp, "")), text);
        out := out + [rec];
      }
      i := i + 1;
    }
    assert articles[..i] == articles;
  }

  // ---------------------------------------------------------------------------
  // process_articles

  /** `parse_ts(ts_raw)`: `None` for "", otherwise the parser's UTC ISO string or `None`. */
  function ParseTs(raw: string, parseDate: string -> Option<string>): (r: Option<string>)
    ensures raw == "" ==> r.None?
    ensures raw != "" ==> r == parseDate(raw)
  {
    if raw == "" then None else parseDate(raw)
  }

  /** `urlparse(url).netloc.lower()`, or "" when parsing raises. */
  function Host(url: string, parse: string -> Option<Url.Url>): (r: string)
    ensures parse(url).None? ==> r == ""
    ensures parse(url).Some? ==> r == Lower(parse(url).value.netloc)
  {
    match parse(url)
    case None => ""
    case Some(u) => Lower(u.netloc)
  }

  /** `source_map.get(host, source or host)`. */
  function CanonicalSource(host: string, source: string): (r: string)
    ensures host in SourceMap ==> r == SourceMap[host]
    ensures host !in SourceMap && source != "" ==> r == source
    ensures host !in SourceMap && source == "" ==> r == host
  {
    if host in SourceMap then SourceMap[host] else if source != "" then source else host
  }

  /** Every gate of the second pass. */
  predicate PassesGates(title: string, text: string, ts: Option<string>) {
    title != "" && |title| >= MinTitleLength && |text| >= MinTextLength
    && !Boilerplate.IsBoilerplate(text) && ts.Some? && ts.value != ""
  }

  /** What an output record promises, independent of how it was computed. */
  predicate WellFormed(c: CleanArticle, md5: string -> string) {
    |c.title| >= MinTitleLength && |c.text| >= MinTextLength && c.textLen == |c.text|
    && !Boilerplate.IsBoilerplate(c.text) && c.timestamp != ""
    && c.id == MakeId(c.url, c.title, md5)
  }

  /** The second pass over one record. Of the fallbacks `a.get("url") or
      a.get("article_url") or ""` only the first can apply, because first-pass
      records always carry `url`, `title`, `source`, `timestamp` and `text`;
      for the same reason the `fetch_ts`/`fetched_at` fallback never applies. */
  function ProcessOne(a: Normalized, env: Env): (o: Option<CleanArticle>)
    ensures o.Some? ==> WellFormed(o.value, env.md5)
  {
    var urlC := Url.CanonicalUrl(a.url, env.parse, env.unparse);
    var titleC := Title.CleanTitle(a.title);
    var tsC := ParseTs(a.timestamp, env.parseDate);
    var textS := Sanitize.SanitizedOf(a.text, env.extract);
    if !PassesGates(titleC, textS, tsC) then None
    else
      var source := CanonicalSource(Host(urlC, env.parse), a.source);
      Some(CleanArticle(MakeId(urlC, titleC, env.md5), urlC, source, titleC, tsC.value, textS, |textS|))
  }

  /** A record is kept exactly when it passes the gates; a kept record holds the
      canonical url, the cleaned title, the sanitised text and the mapped source. */
  lemma ProcessOneMeaning(a: Normalized, env: Env)
    ensures var o := ProcessOne(a, env);
      && (o.Some? <==> PassesGates(Title.CleanTitle(a.title), Sanitize.SanitizedOf(a.text, env.extract), ParseTs(a.timestamp, env.parseDate)))
      && (o.Some? ==> o.value.url == Url.CanonicalUrl(a.url, env.parse, env.unparse))
      && (o.Some? ==> o.value.title == Title.CleanTitle(a.title) && o.value.text == Sanitize.SanitizedOf(a.text, env.extract))
      && (o.Some? ==> o.value.source == CanonicalSource(Host(o.value.url, env.parse), a.source))
  {
  }

  /** The second-pass records of `first`, in order. */
  function ProcessedOf(first: seq<Normalized>, env: Env): (r: seq<CleanArticle>)
    ensures |r| <= |first|
  {
    FilterMap(first, a => ProcessOne(a, env))
  }

  /** Every output of the second pass comes from some input, and is therefore well formed. */
  lemma ProcessedWellFormed(first: seq<Normalized>, env: Env, c: CleanArticle)
    requires c in ProcessedOf(first, env)
    ensures WellFormed(c, env.md5)
    ensures exists i :: 0 <= i < |first| && ProcessOne(first[i], env) == Some(c)
  {
    FilterMapMembers(first, a => ProcessOne(a, env), c);
    var i :| 0 <= i < |first| && ProcessOne(first[i], env) == Some(c);
    KeptWellFormed(first[i], env, c);
  }

  lemma KeptWellFormed(a: Normalized, env: Env, c: CleanArticle)
    requires ProcessOne(a, env) == Some(c)
    ensures WellFormed(c, env.md5)
  {
  }

  /** The second pass on one record: the sanitiser is the method, the rest are the
      pure helpers. */
  method CleanOne(a: Normalized, env: Env) returns (o: Option<CleanArticle>)
    ensures o == ProcessOne(a, env)
  {
    var urlC := Url.CanonicalUrl(a.url, env.parse, env.unparse);
    var titleC := Title.CleanTitle(a.title);
    var tsC := ParseTs(a.timestamp, env.parseDate);
    var textS := Sanitize.SanitizeText(a.text, env.extract);
    if titleC == "" || |titleC| < MinTitleLength || |textS| < MinTextLength || Boilerplate.IsBoilerplate(textS) {
      return None;
    }
    if tsC.None? || tsC.value == "" {
      return None;
    }
    var host := Host(urlC, env.parse);
    var source := CanonicalSource(host, a.source);
    o := Some(CleanArticle(MakeId(urlC, titleC, env.md5), urlC, source, titleC, tsC.value, textS, |textS|));
  }

  /** `process_articles(articles)`: the first pass, then the second pass record by record. */
  method ProcessArticles(articles: seq<InputArticle>, env: Env) returns (outputs: seq<CleanArticle>)
    ensures outputs == ProcessedOf(NormalizedOf(articles, env.md5), env)
    ensures |outputs| <= |articles|
  {
    var first := NormalizeArticles(articles, env.md5);
    outputs := SecondPass(first, env);
  }

  lemma SecondPassStep(first: seq<Normalized>, i: nat, env: Env, o: Option<CleanArticle>)
    requires i < |first| && o == ProcessOne(first[i], env)
    ensures ProcessedOf(first[..i + 1], env) == ProcessedOf(first[..i], env) + AsSeq(o)
  {
    FilterMapPrefix(first, i, a => ProcessOne(a, env));
  }

  /** The loop of `process_articles` over the first-pass records. */
  method SecondPass(first: seq<Normalized>, env: Env) returns (outputs: seq<CleanArticle>)
    ensures outputs == ProcessedOf(first, env)
  {
    outputs := [];
    var i := 0;
    while i < |first|
      invariant 0 <= i <= |first|
      invariant outputs == ProcessedOf(first[..i], env)
    {
      var o := CleanOne(first[i], env);
      SecondPassStep(first, i, env, o);
      outputs := outputs + AsSeq(o);
      i := i + 1;
    }
    assert first[..i] == first;
  }
}
