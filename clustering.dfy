/** The greedy clusterer: one pass over the positions of the prepared texts;
    a position not yet seen becomes a seed whose nearest neighbours within the
    similarity threshold form its group, and every member of that group is
    marked seen. The fitted nearest-neighbour index is a parameter that reports,
    for a position, its neighbours with their cosine distances. */
module Clustering {
  import opened Wrappers
  import opened Seqs
  import opened Dicts
  import opened Normalize
  import opened ArticleIndex
  import opened Vectorizing

  /** One neighbour reported by the index: its position and its cosine distance. */
  datatype Neighbour = Neighbour(index: nat, distance: real)

  /** One group member: its position and its similarity to the seed. */
  datatype Member = Member(index: nat, sim: real)

  /** `nn.kneighbors(X[i])` for each position `i`. */
  type Oracle = nat -> seq<Neighbour>

  /** One group of `clusters_to_ids`. */
  datatype Cluster = Cluster(clusterId: string, memberIds: seq<string>, repId: string, sim: seq<real>)

  /** The bookkeeping of the pass: the seen positions and the groups so far. */
  datatype Pass = Pass(seen: set<nat>, groups: seq<seq<Member>>)

  function Min(a: nat, b: nat): nat {
    if a <= b then a else b
  }

  /** An index fitted with `n_neighbors = min(k, n)` on `n` points reports at
      most that many neighbours, all of them positions of the fitted points. */
  predicate FittedOn(nn: Oracle, n: nat, k: nat) {
    forall i :: 0 <= i < n ==> |nn(i)| <= Min(k, n) && forall p :: 0 <= p < |nn(i)| ==> nn(i)[p].index < n
  }

  /** A neighbour with similarity `1 - d` at least the threshold joins the group. */
  function Kept(nb: Neighbour, threshold: real): (o: Option<Member>)
    ensures o.Some? <==> 1.0 - nb.distance >= threshold
    ensures o.Some? ==> o.value == Member(nb.index, 1.0 - nb.distance)
  {
    var sim := 1.0 - nb.distance;
    if sim >= threshold then Some(Member(nb.index, sim)) else None
  }

  /** The group of a seed: its neighbours within the threshold, nearest first. */
  function GroupOf(nbs: seq<Neighbour>, threshold: real): (g: seq<Member>)
    ensures |g| <= |nbs|
  {
    FilterMap(nbs, nb => Kept(nb, threshold))
  }

  function Indices(g: seq<Member>): set<nat> {
    set m | m in g :: m.index
  }

  /** The visit of position `i`: skipped when seen, else its group is added
      and all its members are marked seen. */
  function Step(p: Pass, i: nat, nn: Oracle, threshold: real): Pass {
    if i in p.seen then p
    else
      var g := GroupOf(nn(i), threshold);
      Pass(p.seen + Indices(g), p.groups + [g])
  }

  /** The state of the pass after visiting positions `0 .. i - 1`. */
  function PassUpTo(i: nat, nn: Oracle, threshold: real): (r: Pass)
    ensures |r.groups| <= i
  {
    if i == 0 then Pass({}, []) else Step(PassUpTo(i - 1, nn, threshold), i - 1, nn, threshold)
  }

  /** Every member has similarity at least the threshold, and a member is in the
      group exactly when a neighbour at that position has that similarity. */
  lemma GroupMembers(nbs: seq<Neighbour>, threshold: real, m: Member)
    ensures m in GroupOf(nbs, threshold) <==>
              m.sim >= threshold && exists p :: 0 <= p < |nbs| && nbs[p].index == m.index && 1.0 - nbs[p].distance == m.sim
  {
    FilterMapMembers(nbs, nb => Kept(nb, threshold), m);
    if m.sim >= threshold && exists p :: 0 <= p < |nbs| && nbs[p].index == m.index && 1.0 - nbs[p].distance == m.sim {
      var p :| 0 <= p < |nbs| && nbs[p].index == m.index && 1.0 - nbs[p].distance == m.sim;
      assert Kept(nbs[p], threshold) == Some(m);
    }
  }

  /** With a fitted index, a group has at most `min(k, n)` members, all of them positions. */
  lemma GroupBounded(nn: Oracle, n: nat, k: nat, threshold: real, i: nat)
    requires FittedOn(nn, n, k) && i < n
    ensures |GroupOf(nn(i), threshold)| <= Min(k, n)
    ensures forall m :: m in GroupOf(nn(i), threshold) ==> m.index < n
  {
    forall m | m in GroupOf(nn(i), threshold)
      ensures m.index < n
    {
      GroupMembers(nn(i), threshold, m);
    }
  }

  /** `a` is `b` with some elements left out. */
  predicate IsSubsequence<T(==)>(a: seq<T>, b: seq<T>)
    decreases |b|
  {
    if a == [] then true
    else if b == [] then false
    else (a[|a| - 1] == b[|b| - 1] && IsSubsequence(a[..|a| - 1], b[..|b| - 1])) || IsSubsequence(a, b[..|b| - 1])
  }

  lemma SubsequenceExtend<T>(a: seq<T>, b: seq<T>, c: seq<T>)
    requires IsSubsequence(a, b)
    ensures IsSubsequence(a, b + c)
    decreases |c|
  {
    if c == [] {
      assert b + c == b;
    } else if a != [] {
      var c' := c[..|c| - 1];
      SubsequenceExtend(a, b, c');
      assert (b + c)[..|b + c| - 1] == b + c';
    }
  }

  /** Raising the threshold only drops members: the group at the higher
      threshold is a subsequence of the group at the lower one. */
  lemma {:induction false} ThresholdMonotone(nbs: seq<Neighbour>, low: real, high: real)
    requires low <= high
    ensures IsSubsequence(GroupOf(nbs, high), GroupOf(nbs, low))
  {
    if nbs != [] {
      var front, last := nbs[..|nbs| - 1], nbs[|nbs| - 1];
      ThresholdMonotone(front, low, high);
      var gh, gl := GroupOf(front, high), GroupOf(front, low);
      assert GroupOf(nbs, high) == gh + AsSeq(Kept(last, high));
      assert GroupOf(nbs, low) == gl + AsSeq(Kept(last, low));
      if Kept(last, high).Some? {
        var m := Kept(last, high).value;
        assert Kept(last, low) == Some(m);
        assert (gh + [m])[..|gh|] == gh;
        assert (gl + [m])[..|gl|] == gl;
      } else {
        assert gh + AsSeq(Kept(last, high)) == gh;
        SubsequenceExtend(gh, gl, AsSeq(Kept(last, low)));
      }
    }
  }

  /** The seen set only grows and groups are only appended. */
  lemma {:induction false} PassGrows(i: nat, j: nat, nn: Oracle, threshold: real)
    requires i <= j
    ensures PassUpTo(i, nn, threshold).seen <= PassUpTo(j, nn, threshold).seen
    ensures PassUpTo(i, nn, threshold).groups <= PassUpTo(j, nn, threshold).groups
    decreases j - i
  {
    if i < j {
      PassGrows(i, j - 1, nn, threshold);
    }
  }

  /** Position `i` starts a group exactly when it was not seen when visited, and
      then all of that group's members are seen after its visit. */
  lemma SeedStarts(i: nat, nn: Oracle, threshold: real)
    ensures var before, after := PassUpTo(i, nn, threshold), PassUpTo(i + 1, nn, threshold);
      && |after.groups| == |before.groups| + (if i in before.seen then 0 else 1)
      && (i !in before.seen ==>
            after.groups[|before.groups|] == GroupOf(nn(i), threshold)
            && forall m :: m in GroupOf(nn(i), threshold) ==> m.index in after.seen)
  {
  }

  /** There are at most as many groups as positions, and every member of
      every group has been seen. */
  lemma {:induction false} PassBounds(i: nat, nn: Oracle, threshold: real)
    ensures |PassUpTo(i, nn, threshold).groups| <= i
    ensures forall q, m :: 0 <= q < |PassUpTo(i, nn, threshold).groups| && m in PassUpTo(i, nn, threshold).groups[q]
              ==> m.index in PassUpTo(i, nn, threshold).seen
  {
    if i > 0 {
      PassBounds(i - 1, nn, threshold);
    }
  }

  /** Only members are seen: a position is seen only when it is a member of
      one of the groups. */
  lemma {:induction false} PassSeenMembers(i: nat, nn: Oracle, threshold: real, k: nat)
    requires k in PassUpTo(i, nn, threshold).seen
    ensures exists q, m :: 0 <= q < |PassUpTo(i, nn, threshold).groups| && m in PassUpTo(i, nn, threshold).groups[q] && m.index == k
  {
    var before := PassUpTo(i - 1, nn, threshold);
    var after := PassUpTo(i, nn, threshold);
    if k in before.seen {
      PassSeenMembers(i - 1, nn, threshold, k);
      var q, m :| 0 <= q < |before.groups| && m in before.groups[q] && m.index == k;
      assert after.groups[q] == before.groups[q];
    } else {
      var g := GroupOf(nn(i - 1), threshold);
      var m :| m in g && m.index == k;
      assert after.groups[|before.groups|] == g;
    }
  }

  /** The groups need not be disjoint: the second seed's group can take in a
      position that already belongs to the first group. */
  lemma GroupsMayOverlap(nn: Oracle)
    requires nn(0) == [Neighbour(0, 0.0)]
    requires nn(1) == [Neighbour(1, 0.0), Neighbour(0, 0.0)]
    ensures PassUpTo(2, nn, 0.5).groups == [[Member(0, 1.0)], [Member(1, 1.0), Member(0, 1.0)]]
  {
    var f := nb => Kept(nb, 0.5);
    assert GroupOf(nn(0), 0.5) == [Member(0, 1.0)] by {
      assert nn(0)[..0] == [];
    }
    assert GroupOf(nn(1), 0.5) == [Member(1, 1.0), Member(0, 1.0)] by {
      var nbs := nn(1);
      assert nbs[..1][..0] == [];
      assert nbs[..|nbs| - 1] == nbs[..1];
      assert FilterMap(nbs[..1], f) == [Member(1, 1.0)];
    }
    assert Indices([Member(0, 1.0)]) == {0};
  }

  /** The cluster record of one group, or an IndexError for an empty group or a
      member position outside the ids. */
  function ClusterOf(g: seq<Member>, ids: seq<string>): (r: Result<Cluster>)
    ensures r.Success? <==> g != [] && forall p :: 0 <= p < |g| ==> g[p].index < |ids|
    ensures r.Success? ==>
      && |r.value.memberIds| == |g| && |r.value.sim| == |g|
      && r.value.clusterId == r.value.repId == r.value.memberIds[0]
      && forall p :: 0 <= p < |g| ==> r.value.memberIds[p] == ids[g[p].index] && r.value.sim[p] == g[p].sim
  {
    if exists p :: 0 <= p < |g| && g[p].index >= |ids| then Failure("IndexError: list index out of range")
    else if g == [] then Failure("IndexError: list index out of range")
    else
      var memberIds := seq(|g|, p requires 0 <= p < |g| => ids[g[p].index]);
      Success(Cluster(memberIds[0], memberIds, memberIds[0], seq(|g|, p requires 0 <= p < |g| => g[p].sim)))
  }

  /** What `clusters_to_ids` returns: one cluster per group, in order, or the
      first failing group's error. */
  function ClustersOf(groups: seq<seq<Member>>, ids: seq<string>): (r: Result<seq<Cluster>>)
    ensures r.Success? <==> forall i :: 0 <= i < |groups| ==> ClusterOf(groups[i], ids).Success?
    ensures r.Success? ==> |r.value| == |groups|
    ensures r.Success? ==> forall i :: 0 <= i < |groups| ==> ClusterOf(groups[i], ids) == Success(r.value[i])
    ensures r.Failure? ==>
              exists i :: 0 <= i < |groups| && ClusterOf(groups[i], ids) == Failure(r.error)
                && forall j :: 0 <= j < i ==> ClusterOf(groups[j], ids).Success?
  {
    MapResult(groups, g => ClusterOf(g, ids))
  }

  /** The clustering agent's state: its vectorizer, the vectors and the result
      of the last pass. */
  class ClusteringAgent {
    const vec: Vectorizer
    var k: nat
    var x: seq<Vector>
    var embeddingsById: Dict<Vector>
    var articlesById: Dict<CleanArticle>
    var byId: Dict<string>
    var ids: seq<string>
    var clustersIdx: seq<seq<Member>>

    /** Loads the stored articles and vectorizes them. */
    constructor (files: seq<BucketFile>, k0: nat, extract: string -> string, embed: string -> Vector)
      ensures fresh(vec) && vec.articles == Some(LoadedFrom(files)) && k == k0
      ensures var e := EmbeddingsOf(TextsOf(LoadedFrom(files), extract), embed);
        x == Values(e) && embeddingsById == e
      ensures articlesById == [] && byId == [] && ids == [] && clustersIdx == []
    {
      var v := new Vectorizer();
      v.LoadArticles(files);
      var vectors := v.VectorizeTexts(extract, embed);
      vec := v;
      k := k0;
      x, embeddingsById := vectors.value.0, vectors.value.1;
      articlesById, byId, ids, clustersIdx := [], [], [], [];
    }

    /** The group of one seed: the loop over its neighbours. */
    static method Group(nbs: seq<Neighbour>, threshold: real) returns (g: seq<Member>)
      ensures g == GroupOf(nbs, threshold)
    {
      g := [];
      var p := 0;
      while p < |nbs|
        invariant 0 <= p <= |nbs|
        invariant g == GroupOf(nbs[..p], threshold)
      {
        FilterMapPrefix(nbs, p, nb => Kept(nb, threshold));
        var sim := 1.0 - nbs[p].distance;
        if sim >= threshold {
          g := g + [Member(nbs[p].index, sim)];
        }
        p := p + 1;
      }
      assert nbs[..p] == nbs;
    }

    /** Marks every member of a group seen. */
    static method MarkSeen(seen: set<nat>, g: seq<Member>) returns (s: set<nat>)
      ensures s == seen + Indices(g)
    {
      s := seen;
      var p := 0;
      while p < |g|
        invariant 0 <= p <= |g|
        invariant s == seen + Indices(g[..p])
      {
        assert g[..p + 1] == g[..p] + [g[p]];
        assert Indices(g[..p + 1]) == Indices(g[..p]) + {g[p].index};
        s := s + {g[p].index};
        p := p + 1;
      }
      assert g[..p] == g;
    }

    /** The loop of `build_clusters` over the positions `0 .. n - 1`. */
    static method GreedyPass(n: nat, nn: Oracle, threshold: real) returns (groups: seq<seq<Member>>)
      ensures groups == PassUpTo(n, nn, threshold).groups
    {
      var seen: set<nat> := {};
      groups := [];
      var i := 0;
      while i < n
        invariant 0 <= i <= n
        invariant Pass(seen, groups) == PassUpTo(i, nn, threshold)
      {
        if i !in seen {
          var g := Group(nn(i), threshold);
          seen := MarkSeen(seen, g);
          groups := groups + [g];
        }
        i := i + 1;
      }
    }

    /** `build_clusters(threshold)`. */
    method BuildClusters(nn: Oracle, threshold: real, extract: string -> string)
      requires vec.articles.Some?
      modifies this
      ensures articlesById == ById(vec.articles.value)
      ensures byId == TextsOf(vec.articles.value, extract)
      ensures ids == Keys(byId)
      ensures clustersIdx == PassUpTo(|ids|, nn, threshold).groups
      ensures k == old(k) && x == old(x) && embeddingsById == old(embeddingsById)
    {
      var byIdResult := vec.OrderArticlesById();
      var texts := vec.PrepareTexts(None, extract);
      var keys := Keys(texts.value);
      var groups := GreedyPass(|keys|, nn, threshold);
      articlesById, byId, ids, clustersIdx := byIdResult.value, texts.value, keys, groups;
    }

    /** `clusters_to_ids()`. */
    method ClustersToIds() returns (r: Result<seq<Cluster>>)
      ensures r == ClustersOf(clustersIdx, ids)
    {
      var groups, positions := clustersIdx, ids;
      var clusters: seq<Cluster> := [];
      var q := 0;
      while q < |groups|
        invariant 0 <= q <= |groups|
        invariant ClustersOf(groups[..q], positions) == Success(clusters)
      {
        MapResultPrefix(groups, q, g => ClusterOf(g, positions));
        var c := ClusterOf(groups[q], positions);
        if c.Failure? {
          MapResultFailAfter(groups, q + 1, g => ClusterOf(g, positions));
          return Failure(c.error);
        }
        clusters := clusters + [c.value];
        q := q + 1;
      }
      assert groups[..q] == groups;
      r := Success(clusters);
    }
  }
}
