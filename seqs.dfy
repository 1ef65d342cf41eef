/** Keeping the defined results of a partial step over a list, in order: the
    shape of every "compute, and `continue` when a gate fails, else append"
    loop of the cleaner. */
module Seqs {
  import opened Wrappers

  /** The value of an option as a list of at most one element. */
  function AsSeq<T>(o: Option<T>): (r: seq<T>)
    ensures o.None? ==> r == []
    ensures o.Some? ==> r == [o.value]
  {
    if o.Some? then [o.value] else []
  }

  /** The defined results of `f` over `xs`, in the order of `xs`. */
  function FilterMap<A, B>(xs: seq<A>, f: A -> Option<B>): (r: seq<B>)
    ensures |r| <= |xs|
  {
    if xs == [] then []
    else FilterMap(xs[..|xs| - 1], f) + AsSeq(f(xs[|xs| - 1]))
  }

  /** Extending a prefix by one element adds that element's result, if any. */
  lemma FilterMapPrefix<A, B>(xs: seq<A>, i: nat, f: A -> Option<B>)
    requires i < |xs|
    ensures FilterMap(xs[..i + 1], f) == FilterMap(xs[..i], f) + AsSeq(f(xs[i]))
  {
    assert xs[..i + 1][..i] == xs[..i];
  }

  /** Each kept value is the result of some element, and the result of every
      element that has one is kept. */
  lemma {:induction false} FilterMapMembers<A, B>(xs: seq<A>, f: A -> Option<B>, y: B)
    ensures y in FilterMap(xs, f) <==> exists i :: 0 <= i < |xs| && f(xs[i]) == Some(y)
  {
    if xs != [] {
      var front, last := xs[..|xs| - 1], xs[|xs| - 1];
      FilterMapMembers(front, f, y);
      if exists i :: 0 <= i < |xs| && f(xs[i]) == Some(y) {
        var i :| 0 <= i < |xs| && f(xs[i]) == Some(y);
        if i < |front| {
          assert front[i] == xs[i];
        }
      }
      if exists i :: 0 <= i < |front| && f(front[i]) == Some(y) {
        var i :| 0 <= i < |front| && f(front[i]) == Some(y);
        assert xs[i] == front[i];
      }
    }
  }

  /** The results of a concatenation are the concatenated results. */
  lemma {:induction false} FilterMapAppend<A, B>(xs: seq<A>, ys: seq<A>, f: A -> Option<B>)
    ensures FilterMap(xs + ys, f) == FilterMap(xs, f) + FilterMap(ys, f)
    decreases |ys|
  {
    if ys == [] {
      assert xs + ys == xs;
    } else {
      var front := ys[..|ys| - 1];
      assert (xs + ys)[..|xs + ys| - 1] == xs + front;
      FilterMapAppend(xs, front, f);
    }
  }

  /** Elements without a result contribute nothing; all-defined elements all contribute. */
  lemma {:induction false} FilterMapLength<A, B>(xs: seq<A>, f: A -> Option<B>)
    ensures (forall i :: 0 <= i < |xs| ==> f(xs[i]).Some?) ==> |FilterMap(xs, f)| == |xs|
    ensures (forall i :: 0 <= i < |xs| ==> f(xs[i]).None?) ==> FilterMap(xs, f) == []
  {
    if xs != [] {
      FilterMapLength(xs[..|xs| - 1], f);
    }
  }

  /** Every step's value, in order, or the error of the first step that fails. */
  function MapResult<A, B>(xs: seq<A>, f: A -> Result<B>): (r: Result<seq<B>>)
    ensures r.Success? <==> forall i :: 0 <= i < |xs| ==> f(xs[i]).Success?
    ensures r.Success? ==> |r.value| == |xs| && forall i :: 0 <= i < |xs| ==> f(xs[i]) == Success(r.value[i])
    ensures r.Failure? ==> exists i :: 0 <= i < |xs| && f(xs[i]) == Failure(r.error) && forall j :: 0 <= j < i ==> f(xs[j]).Success?
  {
    if xs == [] then Success([])
    else
      var front := xs[..|xs| - 1];
      var prev := MapResult(front, f);
      var last := f(xs[|xs| - 1]);
      if prev.Failure? then
        assert exists i :: 0 <= i < |xs| && f(xs[i]) == Failure(prev.error) && forall j :: 0 <= j < i ==> f(xs[j]).Success? by {
          var i :| 0 <= i < |front| && f(front[i]) == Failure(prev.error) && forall j :: 0 <= j < i ==> f(front[j]).Success?;
          assert forall j :: 0 <= j < i ==> front[j] == xs[j];
          assert front[i] == xs[i];
        }
        prev
      else if last.Failure? then
        assert forall j :: 0 <= j < |front| ==> front[j] == xs[j];
        Failure(last.error)
      else
        assert forall j :: 0 <= j < |front| ==> front[j] == xs[j];
        Success(prev.value + [last.value])
  }

  /** Extending a prefix by one element: a failure stays, else that element's step decides. */
  lemma MapResultPrefix<A, B>(xs: seq<A>, i: nat, f: A -> Result<B>)
    requires i < |xs|
    ensures var prev := MapResult(xs[..i], f);
      MapResult(xs[..i + 1], f) ==
        if prev.Failure? then prev
        else if f(xs[i]).Failure? then Failure(f(xs[i]).error)
        else Success(prev.value + [f(xs[i]).value])
  {
    assert xs[..i + 1][..i] == xs[..i];
  }

  /** Once a prefix fails, the whole list fails with the same error. */
  lemma {:induction false} MapResultFailAfter<A, B>(xs: seq<A>, i: nat, f: A -> Result<B>)
    requires i <= |xs|
    requires MapResult(xs[..i], f).Failure?
    ensures MapResult(xs, f) == MapResult(xs[..i], f)
    decreases |xs| - i
  {
    if i < |xs| {
      MapResultPrefix(xs, i, f);
      MapResultFailAfter(xs, i + 1, f);
    } else {
      assert xs[..i] == xs;
    }
  }
}
