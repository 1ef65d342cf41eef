/** Character classes and the string operations the ingestion code borrows from
    Python: `str.isspace`, `str.lower`, `str.strip`, `re.sub(r"\s+", " ", ·)`,
    substring search (`in`, `find`, `rfind`), `re.split` on a character class,
    `str.split()` and `str.join`. Strings are sequences of Unicode scalar values,
    so `|s|` is Python's `len(s)`. */
module TextUtil {

  /** Python's `str.isspace()`, which is also what `\s` matches in a `str` pattern. */
  predicate IsSpace(c: char) {
    ('\t' <= c <= '\r') || ('\U{1C}' <= c <= ' ') || c == '\U{85}' || c == '\U{A0}'
    || c == '\U{1680}' || ('\U{2000}' <= c <= '\U{200A}') || c == '\U{2028}' || c == '\U{2029}'
    || c == '\U{202F}' || c == '\U{205F}' || c == '\U{3000}'
  }

  /** `\d` and `str.isdigit()`, restricted to ASCII digits. */
  predicate IsDigit(c: char) { '0' <= c <= '9' }

  /** The characters `\b` treats as word characters, restricted to ASCII. */
  predicate IsWordChar(c: char) {
    IsDigit(c) || ('a' <= c <= 'z') || ('A' <= c <= 'Z') || c == '_'
  }

  function LowerChar(c: char): char {
    if 'A' <= c <= 'Z' then (c as int + 32) as char else c
  }

  /** `str.lower()` on ASCII letters; every other character is kept. */
  function Lower(s: string): (r: string)
    ensures |r| == |s|
    ensures forall i :: 0 <= i < |s| ==> r[i] == LowerChar(s[i])
  {
    seq(|s|, i requires 0 <= i < |s| => LowerChar(s[i]))
  }

  lemma LowerIdempotent(s: string)
    ensures Lower(Lower(s)) == Lower(s)
  {
    assert forall i :: 0 <= i < |s| ==> LowerChar(LowerChar(s[i])) == LowerChar(s[i]);
  }

  lemma LowerSlice(s: string, i: nat, j: nat)
    requires i <= j <= |s|
    ensures Lower(s)[i..j] == Lower(s[i..j])
  {
  }

  // ---------------------------------------------------------------------------
  // str.strip

  function LStrip(s: string): (r: string)
    ensures |r| <= |s| && r == s[|s| - |r|..]
    ensures r != [] ==> !IsSpace(r[0])
  {
    if s != [] && IsSpace(s[0]) then LStrip(s[1..]) else s
  }

  /** `lstrip` drops only whitespace. */
  lemma {:induction false} LStripDropsSpaces(s: string)
    ensures forall i :: 0 <= i < |s| - |LStrip(s)| ==> IsSpace(s[i])
  {
    if s != [] && IsSpace(s[0]) {
      LStripDropsSpaces(s[1..]);
    }
  }

  function RStrip(s: string): (r: string)
    ensures |r| <= |s| && r == s[..|r|]
    ensures r != [] ==> !IsSpace(r[|r| - 1])
  {
    if s != [] && IsSpace(s[|s| - 1]) then RStrip(s[..|s| - 1]) else s
  }

  /** `rstrip` drops only whitespace. */
  lemma {:induction false} RStripDropsSpaces(s: string)
    ensures forall i :: |RStrip(s)| <= i < |s| ==> IsSpace(s[i])
  {
    if s != [] && IsSpace(s[|s| - 1]) {
      RStripDropsSpaces(s[..|s| - 1]);
    }
  }

  /** `str.strip()`: the slice of `s` left after dropping whitespace at both ends. */
  function Strip(s: string): (r: string)
    ensures |r| <= |s|
    ensures r != [] ==> !IsSpace(r[0]) && !IsSpace(r[|r| - 1])
  {
    RStrip(LStrip(s))
  }

  /** `str.strip()` returns a slice of its argument. */
  lemma StripSlice(s: string)
    ensures |LStrip(s)| >= |Strip(s)| && Strip(s) == s[|s| - |LStrip(s)|..|s| - |LStrip(s)| + |Strip(s)|]
  {
    SliceOfSuffix(s, |s| - |LStrip(s)|, |Strip(s)|);
  }

  /** Where the slice `str.strip()` returns starts. */
  lemma StripStart(s: string) returns (a: nat)
    ensures a + |Strip(s)| <= |s| && Strip(s) == s[a..a + |Strip(s)|]
  {
    a := |s| - |LStrip(s)|;
    StripSlice(s);
  }

  lemma SliceOfSuffix<T>(s: seq<T>, a: nat, n: nat)
    requires a + n <= |s|
    ensures s[a..][..n] == s[a..a + n]
  {
  }

  // ---------------------------------------------------------------------------
  // re.sub(r"\s+", " ", s) and the other run replacements

  /** No two characters of the class `p` are adjacent and `rep` is the only
      character of the class that occurs: the shape a run replacement leaves. */
  ghost predicate RunsReplaced(s: string, p: char -> bool, rep: char) {
    (forall i :: 0 <= i < |s| - 1 ==> !(p(s[i]) && p(s[i + 1])))
    && (forall i :: 0 <= i < |s| && p(s[i]) ==> s[i] == rep)
  }

  /** A string in the form `re.sub(r"\s+", " ", ·)` leaves: no two whitespace
      characters are adjacent and the only whitespace character is the plain space. */
  ghost predicate Collapsed(s: string) {
    RunsReplaced(s, IsSpace, ' ')
  }

  lemma RunsReplacedSlice(s: string, a: nat, b: nat, p: char -> bool, rep: char)
    requires RunsReplaced(s, p, rep) && a <= b <= |s|
    ensures RunsReplaced(s[a..b], p, rep)
  {
    var t := s[a..b];
    forall i | 0 <= i < |t| - 1 ensures !(p(t[i]) && p(t[i + 1])) {
      assert t[i] == s[a + i] && t[i + 1] == s[a + i + 1];
    }
  }

  lemma CollapsedSlice(s: string, a: nat, b: nat)
    requires Collapsed(s) && a <= b <= |s|
    ensures Collapsed(s[a..b])
  {
    RunsReplacedSlice(s, a, b, IsSpace, ' ');
  }

  /** One more character in front keeps the shape, unless it is a second
      character of the class or one other than `rep`. */
  lemma RunsReplacedCons(c: char, t: string, p: char -> bool, rep: char)
    requires RunsReplaced(t, p, rep)
    requires p(c) ==> c == rep && (t != [] ==> !p(t[0]))
    ensures RunsReplaced([c] + t, p, rep)
  {
    var r := [c] + t;
    forall i | 0 <= i < |r| - 1 ensures !(p(r[i]) && p(r[i + 1])) {
      if i > 0 { assert r[i] == t[i - 1] && r[i + 1] == t[i]; }
    }
    forall i | 0 <= i < |r| && p(r[i]) ensures r[i] == rep {
      if i > 0 { assert r[i] == t[i - 1]; }
    }
  }

  /** `re.sub(r"\s+", " ", s)`: every maximal run of whitespace becomes one
      space and every other character is kept, in order. */
  function Collapse(s: string): (r: string)
    ensures Collapsed(r)
    ensures |r| <= |s|
    ensures (r == []) == (s == [])
    ensures r != [] ==> (IsSpace(r[0]) <==> IsSpace(s[0]))
    ensures r != [] ==> (IsSpace(r[|r| - 1]) <==> IsSpace(s[|s| - 1]))
  {
    ReplaceRunsShape(s, IsSpace, ' ');
    ReplaceRuns(s, IsSpace, ' ')
  }

  /** Collapsing keeps every non-whitespace character, in order. */
  lemma CollapseKeepsWords(s: string)
    ensures Kept(Collapse(s), IsSpace, ' ') == Kept(s, IsSpace, ' ')
  {
    ReplaceRunsKeeps(s, IsSpace, ' ');
  }

  /** A whitespace run between two pieces becomes exactly one space. */
  lemma CollapseRun(pre: string, run: string, post: string)
    requires pre == [] || !IsSpace(pre[|pre| - 1])
    requires run != [] && forall k :: 0 <= k < |run| ==> IsSpace(run[k])
    requires post == [] || !IsSpace(post[0])
    ensures Collapse(pre + run + post) == Collapse(pre) + " " + Collapse(post)
  {
    ReplaceRunsSplit(pre, run, post, IsSpace, ' ');
  }

  /** A string that is already collapsed is left as it is. */
  lemma CollapseCollapsed(s: string)
    requires Collapsed(s)
    ensures Collapse(s) == s
  {
    ReplaceRunsFixed(s, IsSpace, ' ');
  }

  /** `re.sub(r"\s+", " ", s).strip()`: collapsed, with no whitespace at either end. */
  function SqueezeStrip(s: string): (r: string)
    ensures Collapsed(r)
    ensures r != [] ==> !IsSpace(r[0]) && !IsSpace(r[|r| - 1])
    ensures |r| <= |s|
  {
    var c := Collapse(s);
    StripCollapsed(c);
    Strip(c)
  }

  lemma StripCollapsed(c: string)
    requires Collapsed(c)
    ensures Collapsed(Strip(c))
  {
    var a := StripStart(c);
    CollapsedSlice(c, a, a + |Strip(c)|);
  }

  /** `s` without the characters of the class `p` and without `rep`: what a
      run replacement leaves exactly as it found it. */
  function Kept(s: string, p: char -> bool, rep: char): string
  {
    if s == [] then []
    else (if p(s[0]) || s[0] == rep then [] else [s[0]]) + Kept(s[1..], p, rep)
  }

  /** Dropping a run of the class changes nothing that is kept. */
  lemma {:induction false} KeptRun(s: string, e: nat, p: char -> bool, rep: char)
    requires e <= |s| && forall k :: 0 <= k < e ==> p(s[k])
    ensures Kept(s, p, rep) == Kept(s[e..], p, rep)
    decreases e
  {
    if e > 0 {
      assert s[1..][e - 1..] == s[e..];
      KeptRun(s[1..], e - 1, p, rep);
    }
  }

  /** Replaces every maximal run of characters satisfying `p` by the single
      character `rep` (`re.sub(r"[…]+", rep, s)` for a character class);
      every other character is kept, in order, and the ends are kept or replaced. */
  function ReplaceRuns(s: string, p: char -> bool, rep: char): (r: string)
    ensures |r| <= |s|
    ensures forall i :: 0 <= i < |r| && p(r[i]) ==> r[i] == rep
    decreases |s|
  {
    if s == [] then []
    else if p(s[0]) then [rep] + ReplaceRuns(s[RunEnd(s, 0, p)..], p, rep)
    else [s[0]] + ReplaceRuns(s[1..], p, rep)
  }

  /** What a replacement leaves has no two adjacent characters of the class,
      and its ends are those of the input, kept or replaced. */
  lemma {:induction false} ReplaceRunsShape(s: string, p: char -> bool, rep: char)
    ensures RunsReplaced(ReplaceRuns(s, p, rep), p, rep)
    ensures s != [] ==> ReplaceRuns(s, p, rep) != [] && ReplaceRuns(s, p, rep)[0] == (if p(s[0]) then rep else s[0])
    ensures s != [] ==> Last(ReplaceRuns(s, p, rep)) == (if p(Last(s)) then rep else Last(s))
    decreases |s|
  {
    if s != [] {
      var r := ReplaceRuns(s, p, rep);
      if p(s[0]) {
        var e := RunEnd(s, 0, p);
        var t := ReplaceRuns(s[e..], p, rep);
        ReplaceRunsRunStep(s, p, rep);
        ReplaceRunsShape(s[e..], p, rep);
        RunsReplacedCons(rep, t, p, rep);
        if t == [] { assert e == |s|; } else { assert Last(s[e..]) == Last(s); }
      } else {
        var t := ReplaceRuns(s[1..], p, rep);
        ReplaceRunsKeepStep(s, p, rep);
        ReplaceRunsShape(s[1..], p, rep);
        RunsReplacedCons(s[0], t, p, rep);
        if t != [] { assert Last(s[1..]) == Last(s); }
      }
    }
  }

  function Last(s: string): char
    requires s != []
  {
    s[|s| - 1]
  }

  /** Every character outside the class, other than `rep`, is kept, in order. */
  lemma {:induction false} ReplaceRunsKeeps(s: string, p: char -> bool, rep: char)
    ensures Kept(ReplaceRuns(s, p, rep), p, rep) == Kept(s, p, rep)
    decreases |s|
  {
    if s != [] {
      if p(s[0]) {
        var e := RunEnd(s, 0, p);
        var t := ReplaceRuns(s[e..], p, rep);
        ReplaceRunsRunStep(s, p, rep);
        ReplaceRunsKeeps(s[e..], p, rep);
        KeptRun(s, e, p, rep);
        assert ([rep] + t)[1..] == t;
      } else {
        var t := ReplaceRuns(s[1..], p, rep);
        ReplaceRunsKeepStep(s, p, rep);
        ReplaceRunsKeeps(s[1..], p, rep);
        assert ([s[0]] + t)[1..] == t;
      }
    }
  }

  lemma ReplaceRunsRunStep(s: string, p: char -> bool, rep: char)
    requires s != [] && p(s[0])
    ensures ReplaceRuns(s, p, rep) == [rep] + ReplaceRuns(s[RunEnd(s, 0, p)..], p, rep)
  {
  }

  lemma ReplaceRunsKeepStep(s: string, p: char -> bool, rep: char)
    requires s != [] && !p(s[0])
    ensures ReplaceRuns(s, p, rep) == [s[0]] + ReplaceRuns(s[1..], p, rep)
  {
  }

  /** A run of the class followed by a character outside it (or by nothing)
      becomes exactly one `rep`. */
  lemma ReplaceRunsRun(run: string, post: string, p: char -> bool, rep: char)
    requires run != [] && forall k :: 0 <= k < |run| ==> p(run[k])
    requires post == [] || !p(post[0])
    ensures ReplaceRuns(run + post, p, rep) == [rep] + ReplaceRuns(post, p, rep)
  {
    var s := run + post;
    assert RunEnd(s, 0, p) == |run| by {
      RunEndOver(s, 0, |run|, p);
    }
    assert s[|run|..] == post;
  }

  /** A maximal run between two pieces becomes exactly one `rep` between the
      replaced pieces. */
  lemma ReplaceRunsSplit(pre: string, run: string, post: string, p: char -> bool, rep: char)
    requires pre == [] || !p(pre[|pre| - 1])
    requires run != [] && forall k :: 0 <= k < |run| ==> p(run[k])
    requires post == [] || !p(post[0])
    ensures ReplaceRuns(pre + run + post, p, rep) == ReplaceRuns(pre, p, rep) + [rep] + ReplaceRuns(post, p, rep)
  {
    var a, b := ReplaceRuns(pre, p, rep), ReplaceRuns(post, p, rep);
    ConcatAssoc(pre, run, post);
    ConcatAssoc(a, [rep], b);
    assert ReplaceRuns(run + post, p, rep) == [rep] + b by {
      ReplaceRunsRun(run, post, p, rep);
    }
    ReplaceRunsAppend(pre, run + post, p, rep);
  }

  lemma ConsAssoc<T>(x: T, u: seq<T>, v: seq<T>)
    ensures [x] + (u + v) == ([x] + u) + v
  {
  }

  lemma ConcatAssoc<T>(u: seq<T>, v: seq<T>, w: seq<T>)
    ensures u + v + w == u + (v + w)
  {
  }

  /** A run that covers `[i, e)` and stops at `e` ends at `e`. */
  lemma {:induction false} RunEndOver(s: string, i: nat, e: nat, p: char -> bool)
    requires i <= e <= |s| && forall k :: i <= k < e ==> p(s[k])
    requires e == |s| || !p(s[e])
    ensures RunEnd(s, i, p) == e
    decreases e - i
  {
    if i < e {
      RunEndOver(s, i + 1, e, p);
    }
  }

  /** Replacement works piece by piece when the first piece does not end
      inside a run. */
  lemma {:induction false} ReplaceRunsAppend(a: string, b: string, p: char -> bool, rep: char)
    requires a == [] || !p(a[|a| - 1])
    ensures ReplaceRuns(a + b, p, rep) == ReplaceRuns(a, p, rep) + ReplaceRuns(b, p, rep)
    decreases |a|
  {
    if a == [] {
      assert a + b == b;
    } else {
      var s := a + b;
      if p(a[0]) {
        var e := RunEnd(a, 0, p);
        assert e < |a|;
        assert ReplaceRuns(s, p, rep) == [rep] + ReplaceRuns(a[e..] + b, p, rep) by {
          RunEndOver(s, 0, e, p);
          assert s[e..] == a[e..] + b;
        }
        ReplaceRunsAppend(a[e..], b, p, rep);
        ConsAssoc(rep, ReplaceRuns(a[e..], p, rep), ReplaceRuns(b, p, rep));
      } else {
        assert ReplaceRuns(s, p, rep) == [a[0]] + ReplaceRuns(a[1..] + b, p, rep) by {
          assert s[1..] == a[1..] + b;
        }
        ReplaceRunsAppend(a[1..], b, p, rep);
        ConsAssoc(a[0], ReplaceRuns(a[1..], p, rep), ReplaceRuns(b, p, rep));
      }
    }
  }

  /** A string already in the shape a replacement leaves is left as it is. */
  lemma {:induction false} ReplaceRunsFixed(s: string, p: char -> bool, rep: char)
    requires RunsReplaced(s, p, rep)
    ensures ReplaceRuns(s, p, rep) == s
    decreases |s|
  {
    if s != [] {
      RunsReplacedSlice(s, 1, |s|, p, rep);
      ReplaceRunsFixed(s[1..], p, rep);
      if p(s[0]) {
        assert RunEnd(s, 0, p) == 1 by {
          RunEndOver(s, 0, 1, p);
        }
        ReplaceRunsRunStep(s, p, rep);
      } else {
        ReplaceRunsKeepStep(s, p, rep);
      }
      assert s == [s[0]] + s[1..];
    }
  }

  /** A string with no character in the class is left as it is. */
  lemma {:induction false} ReplaceRunsNone(s: string, p: char -> bool, rep: char)
    requires forall i :: 0 <= i < |s| ==> !p(s[i])
    ensures ReplaceRuns(s, p, rep) == s
    decreases |s|
  {
    if s != [] {
      ReplaceRunsNone(s[1..], p, rep);
    }
  }

  // ---------------------------------------------------------------------------
  // Substring search

  /** `w` occurs in `s` starting at position `p`. */
  predicate IsAt(s: string, w: string, p: int) {
    0 <= p && p + |w| <= |s| && s[p..p + |w|] == w
  }

  /** Python's `w in s`. */
  ghost predicate Occurs(w: string, s: string) {
    exists p :: IsAt(s, w, p)
  }

  /** `s.find(w, start)`: the first occurrence at or after `start`, or -1. */
  function FindFrom(s: string, w: string, start: nat): (r: int)
    ensures r == -1 || (start <= r && IsAt(s, w, r))
    ensures r == -1 ==> forall q :: start <= q ==> !IsAt(s, w, q)
    ensures r >= 0 ==> forall q :: start <= q < r ==> !IsAt(s, w, q)
    decreases |s| - start
  {
    if start + |w| > |s| then -1
    else if s[start..start + |w|] == w then start
    else FindFrom(s, w, start + 1)
  }

  /** The last occurrence at or before `p`, or -1. */
  function LastAt(s: string, w: string, p: int): (r: int)
    ensures r == -1 || (0 <= r <= p && IsAt(s, w, r))
    ensures forall q :: r < q <= p ==> !IsAt(s, w, q)
    decreases p + 1
  {
    if p < 0 then -1
    else if p + |w| <= |s| && s[p..p + |w|] == w then p
    else LastAt(s, w, p - 1)
  }

  /** `s.rfind(w)`: the last occurrence, or -1. */
  function RFind(s: string, w: string): (r: int)
    ensures r == -1 || IsAt(s, w, r)
    ensures forall q :: r < q ==> !IsAt(s, w, q)
  {
    LastAt(s, w, |s| - |w|)
  }

  /** `w in s`, computed. */
  function Contains(s: string, w: string): (r: bool)
    ensures r <==> Occurs(w, s)
  {
    FindFrom(s, w, 0) >= 0
  }

  /** `any(w in s for w in ws)`. */
  function ContainsAny(s: string, ws: seq<string>): (r: bool)
    ensures r <==> exists i :: 0 <= i < |ws| && Occurs(ws[i], s)
  {
    if ws == [] then false
    else Contains(s, ws[0]) || ContainsAny(s, ws[1..])
  }

  /** `s.count(c)` for a single character. */
  function CountChar(s: string, c: char): nat
  {
    if s == [] then 0 else (if s[0] == c then 1 else 0) + CountChar(s[1..], c)
  }

  // ---------------------------------------------------------------------------
  // Splitting and joining

  /** End of the run of characters satisfying `p` that starts at `i`. */
  function RunEnd(s: string, i: nat, p: char -> bool): (j: nat)
    requires i <= |s|
    ensures i <= j <= |s|
    ensures forall k :: i <= k < j ==> p(s[k])
    ensures j < |s| ==> !p(s[j])
    decreases |s| - i
  {
    if i == |s| || !p(s[i]) then i else RunEnd(s, i + 1, p)
  }

  /** The first position at or after `i` where a run of at least `minRun`
      separator characters starts, or `|s|` when there is none. */
  function NextBreak(s: string, sep: char -> bool, minRun: nat, i: nat): (b: nat)
    requires i <= |s| && minRun >= 1
    ensures i <= b <= |s|
    ensures b < |s| ==> RunEnd(s, b, sep) - b >= minRun
    ensures forall q :: i <= q < b ==> RunEnd(s, q, sep) - q < minRun
    decreases |s| - i
  {
    if i == |s| then |s|
    else if RunEnd(s, i, sep) - i >= minRun then i
    else NextBreak(s, sep, minRun, i + 1)
  }

  /** `re.split(P, s)` where P matches runs of at least `minRun` characters
      satisfying `sep` (`[.!?]+` has `minRun` 1, `\s{2,}` has 2). */
  function Split(s: string, sep: char -> bool, minRun: nat): (pieces: seq<string>)
    requires minRun >= 1
    ensures |pieces| >= 1
    decreases |s|
  {
    var b := NextBreak(s, sep, minRun, 0);
    if b == |s| then [s]
    else [s[..b]] + Split(s[RunEnd(s, b, sep)..], sep, minRun)
  }

  /** The separator runs `Split` cuts at, in order. */
  ghost function SplitGaps(s: string, sep: char -> bool, minRun: nat): (gaps: seq<string>)
    requires minRun >= 1
    ensures |gaps| + 1 == |Split(s, sep, minRun)|
    ensures forall j :: 0 <= j < |gaps| ==> |gaps[j]| >= minRun
    ensures forall j, q :: 0 <= j < |gaps| && 0 <= q < |gaps[j]| ==> sep(gaps[j][q])
    decreases |s|
  {
    var b := NextBreak(s, sep, minRun, 0);
    if b == |s| then []
    else
      var e := RunEnd(s, b, sep);
      [s[b..e]] + SplitGaps(s[e..], sep, minRun)
  }

  /** `outer[0] + inner[0] + outer[1] + … + inner[n - 1] + outer[n]`. */
  function Interleave(outer: seq<string>, inner: seq<string>): string
    requires |outer| == |inner| + 1
    decreases |inner|
  {
    if inner == [] then outer[0]
    else outer[0] + inner[0] + Interleave(outer[1..], inner[1..])
  }

  /** Text put in front of the first outer piece comes first. */
  lemma InterleaveFront(g: string, outer: seq<string>, inner: seq<string>)
    requires |outer| == |inner| + 1
    ensures Interleave([g + outer[0]] + outer[1..], inner) == g + Interleave(outer, inner)
  {
    var o := [g + outer[0]] + outer[1..];
    assert o[1..] == outer[1..];
  }

  /** Fewer than `minRun` characters of the class follow any position of `t`:
      `t` holds no place where the split pattern matches. */
  ghost predicate Unbroken(t: string, sep: char -> bool, minRun: nat) {
    forall q :: 0 <= q < |t| ==> RunEnd(t, q, sep) - q < minRun
  }

  /** No separator character ends the piece before gap `j` or starts the piece after it. */
  ghost predicate MaximalGapAt(pieces: seq<string>, j: nat, sep: char -> bool)
    requires j + 1 < |pieces|
  {
    (pieces[j] == [] || !sep(Last(pieces[j]))) && (pieces[j + 1] == [] || !sep(pieces[j + 1][0]))
  }

  /** A run in a prefix is no longer than the run in the whole string. */
  lemma RunEndPrefix(s: string, n: nat, q: nat, sep: char -> bool)
    requires q <= n <= |s|
    ensures RunEnd(s[..n], q, sep) <= RunEnd(s, q, sep)
  {
  }

  /** A run that starts with a character of the class is the run after it, one longer. */
  lemma RunEndStep(s: string, i: nat, p: char -> bool)
    requires i < |s| && p(s[i])
    ensures RunEnd(s, i, p) == RunEnd(s, i + 1, p)
  {
  }

  /** `re.split` as `Split` computes it, part one: `s` is the pieces with the
      separator runs between them. `SplitUnbroken` and `SplitGapsMaximal` say
      that each separator run is a maximal place where the pattern matches and
      that no piece holds another one. */
  lemma {:induction false} SplitWoven(s: string, sep: char -> bool, minRun: nat)
    requires minRun >= 1
    ensures s == Interleave(Split(s, sep, minRun), SplitGaps(s, sep, minRun))
    decreases |s|
  {
    var b := NextBreak(s, sep, minRun, 0);
    if b < |s| {
      var e := RunEnd(s, b, sep);
      var t := s[e..];
      SplitWoven(t, sep, minRun);
      var pieces, gaps := Split(s, sep, minRun), SplitGaps(s, sep, minRun);
      assert pieces[1..] == Split(t, sep, minRun) && gaps[1..] == SplitGaps(t, sep, minRun);
      assert s == s[..b] + s[b..e] + t;
    }
  }

  /** No piece of a split holds a run of `minRun` separator characters. */
  lemma {:induction false} SplitUnbroken(s: string, sep: char -> bool, minRun: nat)
    requires minRun >= 1
    ensures forall j :: 0 <= j < |Split(s, sep, minRun)| ==> Unbroken(Split(s, sep, minRun)[j], sep, minRun)
    decreases |s|
  {
    var b := NextBreak(s, sep, minRun, 0);
    assert Unbroken(s[..b], sep, minRun) by {
      forall q | 0 <= q < b ensures RunEnd(s[..b], q, sep) - q < minRun {
        RunEndPrefix(s, b, q, sep);
      }
    }
    if b < |s| {
      var t := s[RunEnd(s, b, sep)..];
      SplitUnbroken(t, sep, minRun);
      var pieces, tp := Split(s, sep, minRun), Split(t, sep, minRun);
      assert pieces[0] == s[..b] && pieces[1..] == tp;
      forall j | 0 < j < |pieces| ensures Unbroken(pieces[j], sep, minRun) {
        assert pieces[j] == tp[j - 1];
      }
    }
  }

  /** Each separator run of a split is maximal: no separator character ends
      the piece before it or starts the piece after it. */
  lemma {:induction false} SplitGapsMaximal(s: string, sep: char -> bool, minRun: nat)
    requires minRun >= 1
    ensures forall j :: 0 <= j < |SplitGaps(s, sep, minRun)| ==> MaximalGapAt(Split(s, sep, minRun), j, sep)
    decreases |s|
  {
    var b := NextBreak(s, sep, minRun, 0);
    if b < |s| {
      var e := RunEnd(s, b, sep);
      var t := s[e..];
      SplitGapsMaximal(t, sep, minRun);
      var pieces, gaps := Split(s, sep, minRun), SplitGaps(s, sep, minRun);
      var tp := Split(t, sep, minRun);
      assert pieces[0] == s[..b] && pieces[1..] == tp;
      assert b > 0 ==> !sep(s[b - 1]) by {
        if b > 0 && sep(s[b - 1]) {
          RunEndStep(s, b - 1, sep);
        }
      }
      assert tp[0] == [] || !sep(tp[0][0]) by {
        assert tp[0] == t[..NextBreak(t, sep, minRun, 0)];
        if tp[0] != [] {
          assert tp[0][0] == s[e];
        }
      }
      forall j | 0 <= j < |gaps| ensures MaximalGapAt(pieces, j, sep) {
        if j > 0 {
          assert MaximalGapAt(tp, j - 1, sep);
          assert pieces[j] == tp[j - 1] && pieces[j + 1] == tp[j];
        }
      }
    }
  }

  function NonEmpty(pieces: seq<string>): (r: seq<string>)
    ensures |r| <= |pieces|
    ensures forall i :: 0 <= i < |r| ==> r[i] != [] && r[i] in pieces
  {
    if pieces == [] then []
    else if pieces[0] == [] then NonEmpty(pieces[1..])
    else [pieces[0]] + NonEmpty(pieces[1..])
  }

  /** `s.split()`: the maximal runs of non-whitespace characters. */
  function Words(s: string): (r: seq<string>)
    ensures forall i :: 0 <= i < |r| ==> r[i] != [] && NoSpace(r[i])
  {
    SplitSingleFree(s, IsSpace);
    NonEmpty(Split(s, IsSpace, 1))
  }

  /** Split on single separator characters, no piece holds one. */
  lemma SplitSingleFree(s: string, sep: char -> bool)
    ensures forall x :: x in Split(s, sep, 1) ==> forall q :: 0 <= q < |x| ==> !sep(x[q])
  {
    SplitUnbroken(s, sep, 1);
    forall x | x in Split(s, sep, 1) ensures forall q :: 0 <= q < |x| ==> !sep(x[q]) {
      var j :| 0 <= j < |Split(s, sep, 1)| && Split(s, sep, 1)[j] == x;
      assert Unbroken(x, sep, 1);
      forall q | 0 <= q < |x| ensures !sep(x[q]) {
        assert RunEnd(x, q, sep) == q;
      }
    }
  }

  ghost predicate AllSpace(g: string) {
    forall q :: 0 <= q < |g| ==> IsSpace(g[q])
  }

  ghost predicate NoSpace(w: string) {
    forall q :: 0 <= q < |w| ==> !IsSpace(w[q])
  }

  /** `s` is `words` with the whitespace `gaps` around and between them; no
      word is empty or holds whitespace, and the gaps between two words are
      not empty. */
  ghost predicate WovenWords(s: string, gaps: seq<string>, words: seq<string>) {
    |gaps| == |words| + 1 && s == Interleave(gaps, words)
    && (forall j :: 0 <= j < |gaps| ==> AllSpace(gaps[j]))
    && (forall j :: 0 < j < |gaps| - 1 ==> gaps[j] != [])
    && (forall j :: 0 <= j < |words| ==> words[j] != [] && NoSpace(words[j]))
  }

  /** `s.split()` gives the maximal runs of non-whitespace characters of `s`,
      in order: the words with whitespace around and between them. */
  lemma {:induction false} WordsWoven(s: string) returns (gaps: seq<string>)
    ensures WovenWords(s, gaps, Words(s))
    decreases |s|
  {
    if NextBreak(s, IsSpace, 1, 0) == |s| {
      gaps := WordsWovenLast(s);
    } else {
      var x, run, t := WordsStep(s);
      var gt := WordsWoven(t);
      if x != [] {
        assert Words(s) == [x] + Words(t);
        gaps := WovenFront(x, run, t, gt, Words(t));
      } else {
        assert Words(s) == Words(t) && s == run + t;
        gaps := WovenSkip(run, t, gt, Words(t));
      }
    }
  }

  /** Without whitespace, `s.split()` is `s` alone, or nothing for "". */
  lemma WordsWovenLast(s: string) returns (gaps: seq<string>)
    requires NextBreak(s, IsSpace, 1, 0) == |s|
    ensures WovenWords(s, gaps, Words(s))
  {
    NoSpaceBeforeBreak(s, |s|);
    assert Split(s, IsSpace, 1) == [s];
    if s == [] {
      gaps := [[]];
    } else {
      gaps := [[], []];
      assert Words(s) == [s];
      assert Interleave(gaps, [s]) == [] + s + [];
    }
  }

  /** A word and a whitespace run in front of woven words. */
  lemma WovenFront(x: string, run: string, t: string, gt: seq<string>, w: seq<string>) returns (gaps: seq<string>)
    requires WovenWords(t, gt, w)
    requires x != [] && NoSpace(x) && run != [] && AllSpace(run)
    ensures WovenWords(x + (run + t), gaps, [x] + w)
  {
    var g1 := [run + gt[0]] + gt[1..];
    InterleaveFront(run, gt, w);
    AllSpaceConcat(run, gt[0]);
    gaps := [[]] + g1;
    InterleaveUnfold(gaps, [x] + w);
    assert gaps[1..] == g1 && ([x] + w)[1..] == w;
    assert [] + x + Interleave(g1, w) == x + (run + t);
    forall j | 0 <= j < |gaps| ensures AllSpace(gaps[j]) && (0 < j < |gaps| - 1 ==> gaps[j] != []) {
      if j > 1 { assert gaps[j] == gt[j - 1]; }
    }
    forall j | 0 < j < |[x] + w| ensures ([x] + w)[j] != [] && NoSpace(([x] + w)[j]) {
      assert ([x] + w)[j] == w[j - 1];
    }
  }

  /** A whitespace run in front of woven words joins their first gap. */
  lemma WovenSkip(run: string, t: string, gt: seq<string>, w: seq<string>) returns (gaps: seq<string>)
    requires WovenWords(t, gt, w) && AllSpace(run)
    ensures WovenWords(run + t, gaps, w)
  {
    gaps := [run + gt[0]] + gt[1..];
    InterleaveFront(run, gt, w);
    AllSpaceConcat(run, gt[0]);
    forall j | 0 < j < |gaps| ensures AllSpace(gaps[j]) && (j < |gaps| - 1 ==> gaps[j] != []) {
      assert gaps[j] == gt[j];
    }
  }

  /** One step of `s.split()`: `s` is the text `x` before its first whitespace
      run, the run and the rest `t`; the words are `x`, if not empty, then
      the words of `t`. */
  lemma WordsStep(s: string) returns (x: string, run: string, t: string)
    requires NextBreak(s, IsSpace, 1, 0) < |s|
    ensures s == x + (run + t) && |t| < |s|
    ensures NoSpace(x) && run != [] && AllSpace(run)
    ensures Words(s) == (if x != [] then [x] else []) + Words(t)
  {
    var b := NextBreak(s, IsSpace, 1, 0);
    var e := RunEnd(s, b, IsSpace);
    x, run, t := s[..b], s[b..e], s[e..];
    NoSpaceBeforeBreak(s, b);
    SplitThree(s, b, e);
    var p := Split(s, IsSpace, 1);
    assert p == [x] + Split(t, IsSpace, 1);
    assert p[1..] == Split(t, IsSpace, 1);
  }

  /** Before the first whitespace there is no whitespace. */
  lemma NoSpaceBeforeBreak(s: string, b: nat)
    requires b == NextBreak(s, IsSpace, 1, 0)
    ensures NoSpace(s[..b])
  {
    forall q | 0 <= q < b ensures !IsSpace(s[q]) {
      if IsSpace(s[q]) {
        RunEndStep(s, q, IsSpace);
      }
    }
  }

  lemma SplitThree(s: string, b: nat, e: nat)
    requires b <= e <= |s|
    ensures s == s[..b] + (s[b..e] + s[e..])
  {
  }

  lemma AllSpaceConcat(a: string, b: string)
    requires AllSpace(a) && AllSpace(b)
    ensures AllSpace(a + b)
  {
    forall q | 0 <= q < |a + b| ensures IsSpace((a + b)[q]) {
      if q >= |a| { assert (a + b)[q] == b[q - |a|]; }
    }
  }

  lemma InterleaveUnfold(outer: seq<string>, inner: seq<string>)
    requires |outer| == |inner| + 1 && inner != []
    ensures Interleave(outer, inner) == outer[0] + inner[0] + Interleave(outer[1..], inner[1..])
  {
  }

  /** `sep.join(pieces)`: the pieces with `sep` between each two of them. */
  function Join(pieces: seq<string>, sep: string): (r: string)
    ensures pieces == [] ==> r == []
    ensures pieces != [] ==> r == Interleave(pieces, seq(|pieces| - 1, _ => sep))
  {
    if pieces == [] then []
    else if |pieces| == 1 then pieces[0]
    else
      assert seq(|pieces| - 1, _ => sep)[1..] == seq(|pieces| - 2, _ => sep);
      pieces[0] + sep + Join(pieces[1..], sep)
  }
}
