/** URL canonicalisation (`cleaner.canonical_url`). A URL is handled as the
    record `urlparse` produces, with its query already split into key/value
    pairs by `parse_qsl`; parsing and re-serialising (`urlparse` + `parse_qsl`,
    `urlencode` + `urlunparse`) are supplied by the caller. */
module Url {
  import opened Wrappers
  import opened TextUtil

  type QueryPair = (string, string)

  /** The six components of `urlparse`, with the query decoded into pairs. */
  datatype Url = Url(scheme: string, netloc: string, path: string, params: string,
                     query: seq<QueryPair>, fragment: string)

  /** The tracking query keys that canonicalisation removes (compared lower-cased). */
  const TrackingKeys: set<string> :=
    {"utm_source", "utm_medium", "utm_campaign", "utm_term", "utm_content", "fbclid", "gclid"}

  predicate IsTracking(p: QueryPair) {
    Lower(p.0) in TrackingKeys
  }

  /** The query pairs whose lower-cased key is not a tracking key, in their order. */
  function StripTracking(q: seq<QueryPair>): (r: seq<QueryPair>)
    ensures |r| <= |q|
    ensures forall i :: 0 <= i < |r| ==> !IsTracking(r[i])
  {
    if q == [] then []
    else if IsTracking(q[0]) then StripTracking(q[1..])
    else [q[0]] + StripTracking(q[1..])
  }

  /** Every non-tracking pair is kept as often as it occurs; no tracking pair is kept. */
  lemma {:induction false} StripTrackingCounts(q: seq<QueryPair>, p: QueryPair)
    ensures !IsTracking(p) ==> multiset(StripTracking(q))[p] == multiset(q)[p]
    ensures IsTracking(p) ==> multiset(StripTracking(q))[p] == 0
  {
    if q != [] {
      assert q == [q[0]] + q[1..];
      StripTrackingCounts(q[1..], p);
    }
  }

  /** Filtering distributes over concatenation, so the kept pairs stay in order. */
  lemma {:induction false} StripTrackingAppend(a: seq<QueryPair>, b: seq<QueryPair>)
    ensures StripTracking(a + b) == StripTracking(a) + StripTracking(b)
  {
    if a == [] {
      assert a + b == b;
    } else {
      assert (a + b)[0] == a[0];
      assert (a + b)[1..] == a[1..] + b;
      StripTrackingAppend(a[1..], b);
      if !IsTracking(a[0]) {
        assert [a[0]] + (StripTracking(a[1..]) + StripTracking(b))
            == ([a[0]] + StripTracking(a[1..])) + StripTracking(b);
      }
    }
  }

  /** A query with no tracking pair is kept as it is. */
  lemma {:induction false} StripTrackingClean(q: seq<QueryPair>)
    requires forall i :: 0 <= i < |q| ==> !IsTracking(q[i])
    ensures StripTracking(q) == q
  {
    if q != [] {
      StripTrackingClean(q[1..]);
    }
  }

  /** The canonical record: tracking pairs removed, fragment emptied, host lower-cased. */
  function Canonicalize(u: Url): (c: Url)
    ensures c.scheme == u.scheme && c.path == u.path && c.params == u.params
    ensures c.fragment == ""
    ensures c.netloc == Lower(u.netloc)
    ensures c.query == StripTracking(u.query)
  {
    u.(query := StripTracking(u.query), fragment := "", netloc := Lower(u.netloc))
  }

  lemma CanonicalizeIdempotent(u: Url)
    ensures Canonicalize(Canonicalize(u)) == Canonicalize(u)
  {
    StripTrackingClean(StripTracking(u.query));
    LowerIdempotent(u.netloc);
  }

  /** Inserting tracking pairs anywhere in the query does not change the canonical record. */
  lemma TrackingParamsIgnored(u: Url, before: seq<QueryPair>, extra: seq<QueryPair>, after: seq<QueryPair>)
    requires u.query == before + after
    requires forall i :: 0 <= i < |extra| ==> IsTracking(extra[i])
    ensures Canonicalize(u.(query := before + extra + after)) == Canonicalize(u)
  {
    StripTrackingAppend(before + extra, after);
    StripTrackingAppend(before, extra);
    StripTrackingAppend(before, after);
    StripTrackingNone(extra);
    assert StripTracking(before) + [] == StripTracking(before);
  }

  lemma {:induction false} StripTrackingNone(q: seq<QueryPair>)
    requires forall i :: 0 <= i < |q| ==> IsTracking(q[i])
    ensures StripTracking(q) == []
  {
    if q != [] {
      StripTrackingNone(q[1..]);
    }
  }

  /** `canonical_url(url)`: "" for "", the input itself when parsing raises,
      otherwise the re-serialised canonical record. */
  function CanonicalUrl(url: string, parse: string -> Option<Url>, unparse: Url -> string): (r: string)
    ensures url == "" ==> r == ""
    ensures url != "" && parse(url).None? ==> r == url
    ensures url != "" && parse(url).Some? ==> r == unparse(Canonicalize(parse(url).value))
  {
    if url == "" then ""
    else match parse(url)
      case None => url
      case Some(u) => unparse(Canonicalize(u))
  }

  /** When the parser reads back what the serialiser writes for canonical
      records, canonicalising a canonical URL changes nothing. */
  lemma CanonicalUrlIdempotent(url: string, parse: string -> Option<Url>, unparse: Url -> string)
    requires forall u :: parse(unparse(Canonicalize(u))) == Some(Canonicalize(u))
    requires forall u :: unparse(Canonicalize(u)) != ""
    ensures CanonicalUrl(CanonicalUrl(url, parse, unparse), parse, unparse) == CanonicalUrl(url, parse, unparse)
  {
    if url != "" && parse(url).Some? {
      var c := Canonicalize(parse(url).value);
      assert parse(unparse(c)) == Some(c);
      CanonicalizeIdempotent(parse(url).value);
    }
  }

  /** Two URLs that differ only in tracking parameters have the same canonical form. */
  lemma CanonicalUrlIgnoresTracking(u: Url, extra: seq<QueryPair>, parse: string -> Option<Url>, unparse: Url -> string)
    requires forall i :: 0 <= i < |extra| ==> IsTracking(extra[i])
    requires parse(unparse(u)) == Some(u) && unparse(u) != ""
    requires parse(unparse(u.(query := u.query + extra))) == Some(u.(query := u.query + extra))
    requires unparse(u.(query := u.query + extra)) != ""
    ensures CanonicalUrl(unparse(u.(query := u.query + extra)), parse, unparse) == CanonicalUrl(unparse(u), parse, unparse)
  {
    TrackingParamsIgnored(u, u.query, extra, []);
    assert u.query + extra + [] == u.query + extra;
  }
}
