/** Insertion-ordered dictionaries keyed by strings, the way the vectorizer fills
    them: assigning to a present key replaces its value in place, assigning to
    a new key appends it. */
module Dicts {
  import opened Wrappers

  /** (key, value) pairs in insertion order. */
  type Dict<V> = seq<(string, V)>

  function Keys<V>(d: Dict<V>): (ks: seq<string>)
    ensures |ks| == |d|
    ensures forall i :: 0 <= i < |d| ==> ks[i] == d[i].0
  {
    seq(|d|, i requires 0 <= i < |d| => d[i].0)
  }

  function Values<V>(d: Dict<V>): (vs: seq<V>)
    ensures |vs| == |d|
    ensures forall i :: 0 <= i < |d| ==> vs[i] == d[i].1
  {
    seq(|d|, i requires 0 <= i < |d| => d[i].1)
  }

  predicate Distinct(ks: seq<string>) {
    forall i, j :: 0 <= i < j < |ks| ==> ks[i] != ks[j]
  }

  /** `d.get(k)`: the value of the first pair with key `k`. */
  function Get<V>(d: Dict<V>, k: string): (r: Option<V>)
    ensures r.None? <==> k !in Keys(d)
  {
    if d == [] then None
    else if d[0].0 == k then Some(d[0].1)
    else
      assert Keys(d[1..]) == Keys(d)[1..];
      Get(d[1..], k)
  }

  /** `d[k] = v`. */
  function Put<V>(d: Dict<V>, k: string, v: V): (r: Dict<V>)
    ensures Keys(r) == if k in Keys(d) then Keys(d) else Keys(d) + [k]
  {
    if d == [] then [(k, v)]
    else
      KeysCons(d[0], d[1..]);
      assert [d[0]] + d[1..] == d;
      if d[0].0 == k then
        KeysCons((k, v), d[1..]);
        [(k, v)] + d[1..]
      else
        var rest := Put(d[1..], k, v);
        KeysCons(d[0], rest);
        [d[0]] + rest
  }

  lemma KeysCons<V>(x: (string, V), rest: Dict<V>)
    ensures Keys([x] + rest) == [x.0] + Keys(rest)
  {
  }

  /** After `d[k] = v`, `k` holds `v` and every other key keeps its value. */
  lemma {:induction false} PutGet<V>(d: Dict<V>, k: string, v: V, k': string)
    ensures Get(Put(d, k, v), k') == if k' == k then Some(v) else Get(d, k')
  {
    if d != [] {
      if d[0].0 == k {
        assert ([(k, v)] + d[1..])[1..] == d[1..];
      } else {
        var rest := Put(d[1..], k, v);
        assert ([d[0]] + rest)[1..] == rest;
        PutGet(d[1..], k, v, k');
      }
    }
  }

  /** The keys of `xs` in order of first appearance. */
  function FirstKeys<A>(xs: seq<A>, key: A -> string): (ks: seq<string>)
  {
    if xs == [] then []
    else
      var ks := FirstKeys(xs[..|xs| - 1], key);
      if key(xs[|xs| - 1]) in ks then ks else ks + [key(xs[|xs| - 1])]
  }

  /** The dictionary `{key(x): val(x) for x in xs}` built by assignment in a loop. */
  function Index<A, V>(xs: seq<A>, key: A -> string, val: A -> V): (d: Dict<V>)
    ensures Keys(d) == FirstKeys(xs, key)
  {
    if xs == [] then []
    else Put(Index(xs[..|xs| - 1], key, val), key(xs[|xs| - 1]), val(xs[|xs| - 1]))
  }

  /** Each key occurs once, and exactly the keys of the elements occur. */
  lemma {:induction false} FirstKeysMeaning<A>(xs: seq<A>, key: A -> string, k: string)
    ensures Distinct(FirstKeys(xs, key))
    ensures k in FirstKeys(xs, key) <==> exists i :: 0 <= i < |xs| && key(xs[i]) == k
  {
    if xs != [] {
      var front := xs[..|xs| - 1];
      FirstKeysMeaning(front, key, k);
      if exists i :: 0 <= i < |front| && key(front[i]) == k {
        var i :| 0 <= i < |front| && key(front[i]) == k;
        assert key(xs[i]) == k;
      }
      if exists i :: 0 <= i < |xs| && key(xs[i]) == k {
        var i :| 0 <= i < |xs| && key(xs[i]) == k;
        if i < |front| {
          assert key(front[i]) == k;
        }
      }
    }
  }

  /** The value under a key comes from the last element carrying that key. */
  lemma {:induction false} IndexLastWins<A, V>(xs: seq<A>, key: A -> string, val: A -> V, i: nat)
    requires i < |xs|
    requires forall j :: i < j < |xs| ==> key(xs[j]) != key(xs[i])
    ensures Get(Index(xs, key, val), key(xs[i])) == Some(val(xs[i]))
  {
    var front := xs[..|xs| - 1];
    PutGet(Index(front, key, val), key(xs[|xs| - 1]), val(xs[|xs| - 1]), key(xs[i]));
    if i < |xs| - 1 {
      forall j | i < j < |front|
        ensures key(front[j]) != key(front[i])
      {
        assert front[j] == xs[j];
      }
      IndexLastWins(front, key, val, i);
      assert front[i] == xs[i];
    }
  }

  /** A key no element carries is absent. */
  lemma IndexAbsent<A, V>(xs: seq<A>, key: A -> string, val: A -> V, k: string)
    requires forall j :: 0 <= j < |xs| ==> key(xs[j]) != k
    ensures Get(Index(xs, key, val), k) == None
  {
    FirstKeysMeaning(xs, key, k);
  }

  /** One more element assigns its value to its key. */
  lemma IndexPrefix<A, V>(xs: seq<A>, i: nat, key: A -> string, val: A -> V)
    requires i < |xs|
    ensures Index(xs[..i + 1], key, val) == Put(Index(xs[..i], key, val), key(xs[i]), val(xs[i]))
  {
    assert xs[..i + 1][..i] == xs[..i];
  }
}
