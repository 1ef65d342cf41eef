/** Story candidates built from clusters: one record per cluster, with the
    representative article's title, timestamp and text and, for each member id,
    that member's fields; the narrative and score fields start empty. */
module Candidates {
  import opened Wrappers
  import opened Seqs
  import opened Dicts
  import opened Normalize
  import opened Clustering

  /** `score_components`: empty on a candidate, three scores on a scored story. */
  datatype ScoreParts = NoParts | Parts(llmScore: real, reliabilityScore: real, recencyScore: real)

  /** One member article of a candidate. */
  datatype MemberAttr = MemberAttr(id: string, title: string, source: string, url: string, text: string, timestamp: string)

  /** A story candidate, and the story made from it; only a story processed by
      the language model carries `reasoning`. */
  datatype Story = Story(clusterId: string, repId: string, memberIds: seq<string>, repTitle: string,
                         sources: seq<string>, timestamp: string, articles: seq<MemberAttr>,
                         urls: seq<string>, repText: string, summary: string, topics: seq<string>,
                         because: string, score: real, parts: ScoreParts, reasoning: Option<string>)

  /** `articles_by_id[i]`, failing with a KeyError for an unknown id. */
  function Lookup(byId: Dict<CleanArticle>, id: string): (r: Result<CleanArticle>)
    ensures r.Success? <==> Get(byId, id).Some?
    ensures r.Success? ==> r.value == Get(byId, id).value
  {
    match Get(byId, id)
    case Some(a) => Success(a)
    case None => Failure("KeyError: " + id)
  }

  /** The entry of one member id. */
  function MemberOf(byId: Dict<CleanArticle>, id: string): (r: Result<MemberAttr>)
    ensures r.Success? <==> Get(byId, id).Some?
    ensures r.Success? ==>
      var a := Get(byId, id).value;
      r.value == MemberAttr(id, a.title, a.source, a.url, a.text, a.timestamp)
  {
    var a := Lookup(byId, id);
    if a.Failure? then Failure(a.error)
    else Success(MemberAttr(id, a.value.title, a.value.source, a.value.url, a.value.text, a.value.timestamp))
  }

  function Sources(attrs: seq<MemberAttr>): seq<string> {
    seq(|attrs|, i requires 0 <= i < |attrs| => attrs[i].source)
  }

  function Urls(attrs: seq<MemberAttr>): seq<string> {
    seq(|attrs|, i requires 0 <= i < |attrs| => attrs[i].url)
  }

  /** The candidate of one cluster, or the KeyError of its representative or of
      its first unknown member. */
  function CandidateOf(c: Cluster, byId: Dict<CleanArticle>): (r: Result<Story>)
    ensures r.Success? <==> Get(byId, c.repId).Some? && forall i :: 0 <= i < |c.memberIds| ==> Get(byId, c.memberIds[i]).Some?
    ensures r.Success? ==>
      var s, rep := r.value, Get(byId, c.repId).value;
      && s.clusterId == c.clusterId && s.repId == c.repId && s.memberIds == c.memberIds
      && s.repTitle == rep.title && s.timestamp == rep.timestamp && s.repText == rep.text
      && |s.articles| == |c.memberIds| && |s.sources| == |c.memberIds| && |s.urls| == |c.memberIds|
      && (forall i :: 0 <= i < |c.memberIds| ==>
            var a := Get(byId, c.memberIds[i]).value;
            && s.articles[i] == MemberAttr(c.memberIds[i], a.title, a.source, a.url, a.text, a.timestamp)
            && s.sources[i] == a.source && s.urls[i] == a.url)
      && s.summary == "" && s.topics == [""] && s.because == "" && s.score == 0.0
      && s.parts == NoParts && s.reasoning == None
  {
    var rep := Lookup(byId, c.repId);
    if rep.Failure? then Failure(rep.error)
    else
      var attrs := MapResult(c.memberIds, id => MemberOf(byId, id));
      if attrs.Failure? then Failure(attrs.error)
      else
        var r := rep.value;
        Success(Story(c.clusterId, c.repId, c.memberIds, r.title, Sources(attrs.value), r.timestamp,
                      attrs.value, Urls(attrs.value), r.text, "", [""], "", 0.0, NoParts, None))
  }

  /** What `construct` returns: one candidate per cluster, in cluster order, or
      the first error. */
  function CandidatesOf(clusters: seq<Cluster>, byId: Dict<CleanArticle>): (r: Result<seq<Story>>)
    ensures r.Success? <==> forall i :: 0 <= i < |clusters| ==> CandidateOf(clusters[i], byId).Success?
    ensures r.Success? ==> |r.value| == |clusters|
    ensures r.Success? ==> forall i :: 0 <= i < |clusters| ==> CandidateOf(clusters[i], byId) == Success(r.value[i])
    ensures r.Failure? ==>
              exists i :: 0 <= i < |clusters| && CandidateOf(clusters[i], byId) == Failure(r.error)
                && forall j :: 0 <= j < i ==> CandidateOf(clusters[j], byId).Success?
  {
    MapResult(clusters, c => CandidateOf(c, byId))
  }

  /** The candidate builder's state: the clusters and the id-to-article
      dictionary it was given, and the candidates it built. */
  class CandidateBuilder {
    var clusters: seq<Cluster>
    var articlesById: Dict<CleanArticle>
    var storyCandidates: seq<Story>

    constructor (clusters0: seq<Cluster>, byId0: Dict<CleanArticle>)
      ensures clusters == clusters0 && articlesById == byId0 && storyCandidates == []
    {
      clusters, articlesById, storyCandidates := clusters0, byId0, [];
    }

    /** The inner loop: the entries of a cluster's members, in member order. */
    static method Members(byId: Dict<CleanArticle>, memberIds: seq<string>) returns (r: Result<seq<MemberAttr>>)
      ensures r == MapResult(memberIds, id => MemberOf(byId, id))
    {
      var attrs: seq<MemberAttr> := [];
      var i := 0;
      while i < |memberIds|
        invariant 0 <= i <= |memberIds|
        invariant MapResult(memberIds[..i], id => MemberOf(byId, id)) == Success(attrs)
      {
        MapResultPrefix(memberIds, i, id => MemberOf(byId, id));
        var article := Get(byId, memberIds[i]);
        if article.None? {
          MapResultFailAfter(memberIds, i + 1, id => MemberOf(byId, id));
          return Failure("KeyError: " + memberIds[i]);
        }
        var a := article.value;
        attrs := attrs + [MemberAttr(memberIds[i], a.title, a.source, a.url, a.text, a.timestamp)];
        i := i + 1;
      }
      assert memberIds[..i] == memberIds;
      r := Success(attrs);
    }

    /** The candidate of one cluster. */
    static method Candidate(byId: Dict<CleanArticle>, c: Cluster) returns (r: Result<Story>)
      ensures r == CandidateOf(c, byId)
    {
      var rep := Get(byId, c.repId);
      if rep.None? {
        return Failure("KeyError: " + c.repId);
      }
      var attrs := Members(byId, c.memberIds);
      if attrs.Failure? {
        return Failure(attrs.error);
      }
      var sources := seq(|attrs.value|, i requires 0 <= i < |attrs.value| => attrs.value[i].source);
      var urls := seq(|attrs.value|, i requires 0 <= i < |attrs.value| => attrs.value[i].url);
      var a := rep.value;
      r := Success(Story(c.clusterId, c.repId, c.memberIds, a.title, sources, a.timestamp,
                         attrs.value, urls, a.text, "", [""], "", 0.0, NoParts, None));
    }

    /** The outer loop: the candidates of the clusters, in cluster order. */
    static method All(byId: Dict<CleanArticle>, cs: seq<Cluster>) returns (r: Result<seq<Story>>)
      ensures r == CandidatesOf(cs, byId)
    {
      var built: seq<Story> := [];
      var q := 0;
      while q < |cs|
        invariant 0 <= q <= |cs|
        invariant MapResult(cs[..q], c => CandidateOf(c, byId)) == Success(built)
      {
        MapResultPrefix(cs, q, c => CandidateOf(c, byId));
        var candidate := Candidate(byId, cs[q]);
        if candidate.Failure? {
          MapResultFailAfter(cs, q + 1, c => CandidateOf(c, byId));
          return Failure(candidate.error);
        }
        built := built + [candidate.value];
        q := q + 1;
      }
      assert cs[..q] == cs;
      r := Success(built);
    }

    /** `construct()`: on success the candidates are kept and returned with
        the dictionary; on an error nothing changes. */
    method Construct() returns (r: Result<(seq<Story>, Dict<CleanArticle>)>)
      modifies this
      ensures clusters == old(clusters) && articlesById == old(articlesById)
      ensures var spec := CandidatesOf(clusters, articlesById);
        && (spec.Success? ==> r == Success((spec.value, articlesById)) && storyCandidates == spec.value)
        && (spec.Failure? ==> r == Failure(spec.error) && storyCandidates == old(storyCandidates))
    {
      var built := All(articlesById, clusters);
      if built.Failure? {
        return Failure(built.error);
      }
      storyCandidates := built.value;
      r := Success((built.value, articlesById));
    }
  }
}
