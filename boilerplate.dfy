/** `cleaner.is_boilerplate`: a sanitised text is rejected when it is short,
    has fewer than three real sentences, repeats one sentence for more than
    60% of them, or contains a marker phrase. */
module Boilerplate {
  import opened TextUtil

  /** The least length, after stripping, of a text worth keeping. */
  const MinLength := 100

  /** A sentence counts only when it is longer than this once stripped. */
  const MinSentenceLength := 10

  /** Phrases that mark a page as boilerplate, searched in the lower-cased text. */
  const Markers: seq<string> := [
    "share details", "-end-", "click here", "continue reading", "read more",
    "subscribe", "follow us"]

  /** The sentence terminators of `[.!?]+`. */
  predicate IsTerminator(c: char) { c == '.' || c == '!' || c == '?' }

  /** The stripped pieces longer than the minimum, in their order. */
  function LongPieces(pieces: seq<string>): (r: seq<string>)
    ensures |r| <= |pieces|
    ensures forall i :: 0 <= i < |r| ==> |r[i]| > MinSentenceLength
  {
    if pieces == [] then []
    else
      var s := Strip(pieces[0]);
      var rest := LongPieces(pieces[1..]);
      if |s| > MinSentenceLength then
        LongCons(s, rest);
        [s] + rest
      else rest
  }

  lemma LongCons(s: string, rest: seq<string>)
    requires |s| > MinSentenceLength
    requires forall i :: 0 <= i < |rest| ==> |rest[i]| > MinSentenceLength
    ensures forall i :: 0 <= i < |[s] + rest| ==> |([s] + rest)[i]| > MinSentenceLength
  {
  }

  /** One piece at a time: the first piece, if long enough once stripped, then the rest. */
  lemma LongPiecesCons(pieces: seq<string>)
    requires pieces != []
    ensures LongPieces(pieces) ==
              (if |Strip(pieces[0])| > MinSentenceLength then [Strip(pieces[0])] else []) + LongPieces(pieces[1..])
  {
  }

  /** Every kept sentence is the stripped form of some piece. */
  lemma {:induction false} LongPiecesFromPieces(pieces: seq<string>, x: string)
    requires x in LongPieces(pieces)
    ensures |x| > MinSentenceLength
    ensures exists i :: 0 <= i < |pieces| && Strip(pieces[i]) == x
  {
    if Strip(pieces[0]) != x {
      assert x in LongPieces(pieces[1..]);
      LongPiecesFromPieces(pieces[1..], x);
      var i :| 0 <= i < |pieces[1..]| && Strip(pieces[1..][i]) == x;
      assert Strip(pieces[i + 1]) == x;
    }
  }

  /** Every piece that is long enough once stripped is kept. */
  lemma {:induction false} LongPiecesKeep(pieces: seq<string>, i: nat)
    requires i < |pieces| && |Strip(pieces[i])| > MinSentenceLength
    ensures Strip(pieces[i]) in LongPieces(pieces)
  {
    LongPiecesCons(pieces);
    if i > 0 {
      LongPiecesKeep(pieces[1..], i - 1);
      assert pieces[1..][i - 1] == pieces[i];
    }
  }

  /** `[s.strip() for s in re.split(r"[.!?]+", text) if s.strip() and len(s.strip()) > 10]`. */
  function Sentences(text: string): (r: seq<string>)
    ensures forall i :: 0 <= i < |r| ==> |r[i]| > MinSentenceLength
    ensures forall i, q :: 0 <= i < |r| && 0 <= q < |r[i]| ==> !IsTerminator(r[i][q])
  {
    SplitSingleFree(text, IsTerminator);
    LongPiecesFree(Split(text, IsTerminator, 1));
    LongPieces(Split(text, IsTerminator, 1))
  }

  /** Stripping keeps a piece free of terminators. */
  lemma LongPiecesFree(pieces: seq<string>)
    requires forall x :: x in pieces ==> forall q :: 0 <= q < |x| ==> !IsTerminator(x[q])
    ensures forall i, q :: 0 <= i < |LongPieces(pieces)| && 0 <= q < |LongPieces(pieces)[i]| ==> !IsTerminator(LongPieces(pieces)[i][q])
  {
    var r := LongPieces(pieces);
    forall i, q | 0 <= i < |r| && 0 <= q < |r[i]| ensures !IsTerminator(r[i][q]) {
      LongPiecesFromPieces(pieces, r[i]);
      var j :| 0 <= j < |pieces| && Strip(pieces[j]) == r[i];
      StripSlice(pieces[j]);
      assert r[i][q] == pieces[j][|pieces[j]| - |LStrip(pieces[j])| + q];
    }
  }

  /** The largest count, in `s`, of an element of `s[k..]`. */
  function MaxCountFrom(s: seq<string>, k: nat): (m: nat)
    requires k <= |s|
    ensures forall i :: k <= i < |s| ==> multiset(s)[s[i]] <= m
    ensures k < |s| ==> exists i :: k <= i < |s| && multiset(s)[s[i]] == m
    ensures k == |s| ==> m == 0
    decreases |s| - k
  {
    if k == |s| then 0
    else
      var rest := MaxCountFrom(s, k + 1);
      if multiset(s)[s[k]] >= rest then multiset(s)[s[k]] else rest
  }

  /** `Counter(s).most_common(1)[0][1]`, and 0 for an empty list. */
  function MaxCount(s: seq<string>): (m: nat)
    ensures forall x :: x in s ==> multiset(s)[x] <= m
    ensures s != [] ==> exists x :: x in s && multiset(s)[x] == m
    ensures s == [] ==> m == 0
  {
    var m := MaxCountFrom(s, 0);
    assert forall x :: x in s ==> exists i :: 0 <= i < |s| && s[i] == x;
    m
  }

  /** One sentence makes up more than 60% of the sentences. */
  ghost predicate Repetitive(s: seq<string>) {
    exists x :: x in s && 5 * multiset(s)[x] > 3 * |s|
  }

  /** `most / max(1, len(s)) > 0.6`, read over the rationals, is `Repetitive`. */
  lemma MostCommonTest(s: seq<string>)
    ensures 5 * MaxCount(s) > 3 * |s| <==> Repetitive(s)
  {
    if 5 * MaxCount(s) > 3 * |s| {
      assert s != [];
      var x :| x in s && multiset(s)[x] == MaxCount(s);
    }
  }

  /** `is_boilerplate(text)`. */
  function IsBoilerplate(text: string): (r: bool)
    ensures |Strip(text)| < MinLength ==> r
    ensures ContainsAny(Lower(text), Markers) ==> r
  {
    if text == "" || |Strip(text)| < MinLength then true
    else
      var sentences := Sentences(text);
      if sentences == [] || |sentences| < 3 then true
      else if 5 * MaxCount(sentences) > 3 * |sentences| then true
      else ContainsAny(Lower(text), Markers)
  }

  /** A text is boilerplate exactly when one of the four rejection reasons applies. */
  lemma BoilerplateMeaning(text: string)
    ensures IsBoilerplate(text) <==>
      || |Strip(text)| < MinLength
      || |Sentences(text)| < 3
      || Repetitive(Sentences(text))
      || exists i :: 0 <= i < |Markers| && Occurs(Markers[i], Lower(text))
  {
    MostCommonTest(Sentences(text));
  }

  /** A text that is kept has at least three sentences, and they are not all
      the same. */
  lemma KeptTextHasVariety(text: string)
    requires !IsBoilerplate(text)
    ensures |Sentences(text)| >= 3
    ensures exists j :: 0 < j < |Sentences(text)| && Sentences(text)[j] != Sentences(text)[0]
  {
    var s := Sentences(text);
    assert |s| >= 3 && 5 * MaxCount(s) <= 3 * |s|;
    NotAllTheSame(s);
  }

  /** A list of three or more sentences where none makes up more than 60% has
      a sentence other than its first. */
  lemma NotAllTheSame(s: seq<string>)
    requires |s| >= 3 && 5 * MaxCount(s) <= 3 * |s|
    ensures exists j :: 0 < j < |s| && s[j] != s[0]
  {
    assert s[0] in s;
    SomeOther(s, s[0]);
  }

  /** An element counted fewer times than the length is not the only one. */
  lemma {:induction false} SomeOther(s: seq<string>, x: string)
    requires multiset(s)[x] < |s|
    ensures exists j :: 0 <= j < |s| && s[j] != x
  {
    if s[0] == x {
      assert s == [s[0]] + s[1..];
      SomeOther(s[1..], x);
      var j :| 0 <= j < |s[1..]| && s[1..][j] != x;
      assert s[j + 1] != x;
    }
  }
}
