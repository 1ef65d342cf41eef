/** Title canonicalisation (`cleaner.clean_title`): strip, drop surrounding
    quote runs, drop one trailing "<separator> <outlet>" suffix, collapse
    whitespace. */
module Title {
  import opened Wrappers
  import opened TextUtil

  /** The outlet names of the suffix pattern, in pattern order (matched ignoring case). */
  const Outlets: seq<string> :=
    ["NASA", "JPL", "ESA", "SpaceNews", "Spaceflight Now", "Planetary Society", "Nature", "arXiv"]

  /** The characters `[\'\"]`. */
  predicate IsQuote(c: char) { c == '\'' || c == '"' }

  /** The separators `[-–—:]`. */
  predicate IsSep(c: char) { c == '-' || c == '\U{2013}' || c == '\U{2014}' || c == ':' }

  /** `re.sub(r"^[\'\"]+", "", s)`. */
  function DropLeadingQuotes(s: string): (r: string)
    ensures |r| <= |s| && r == s[|s| - |r|..]
    ensures forall q :: 0 <= q < |s| - |r| ==> IsQuote(s[q])
    ensures r != [] ==> !IsQuote(r[0])
  {
    if s != [] && IsQuote(s[0]) then
      var r := DropLeadingQuotes(s[1..]);
      assert s[1..][|s| - 1 - |r|..] == s[|s| - |r|..];
      assert forall q :: 1 <= q < |s| - |r| ==> s[q] == s[1..][q - 1];
      r
    else s
  }

  /** `re.sub(r"[\'\"]+$", "", s)` on a string that does not end in a newline. */
  function DropTrailingQuotes(s: string): (r: string)
    ensures |r| <= |s| && r == s[..|r|]
    ensures forall q :: |r| <= q < |s| ==> IsQuote(s[q])
    ensures r != [] ==> !IsQuote(r[|r| - 1])
  {
    if s != [] && IsQuote(s[|s| - 1]) then
      var r := DropTrailingQuotes(s[..|s| - 1]);
      assert s[..|s| - 1][..|r|] == s[..|r|];
      r
    else s
  }

  /** The start of the whitespace run that ends at position `j`. */
  function SpaceRunStart(s: string, j: nat): (m: nat)
    requires j <= |s|
    ensures m <= j
    ensures forall q :: m <= q < j ==> IsSpace(s[q])
    ensures m == 0 || !IsSpace(s[m - 1])
  {
    if j > 0 && IsSpace(s[j - 1]) then SpaceRunStart(s, j - 1) else j
  }

  /** `tail` of `body` from `m` on is whitespace, one separator, whitespace, then `name`. */
  ghost predicate OutletTailAt(body: string, m: nat, name: string) {
    |name| <= |body| && m < |body| - |name| && Lower(body[|body| - |name|..]) == Lower(name)
    && exists k :: m <= k < |body| - |name| && IsSep(body[k])
                   && (forall q :: m <= q < k ==> IsSpace(body[q]))
                   && (forall q :: k < q < |body| - |name| ==> IsSpace(body[q]))
  }

  /** Where the match of `\s*[-–—:]\s*<name>\b$` starts in `body`, if it matches. */
  function SuffixMatch(body: string, name: string): (r: Option<nat>)
    ensures r.Some? ==> OutletTailAt(body, r.value, name)
  {
    if |name| > |body| || Lower(body[|body| - |name|..]) != Lower(name) then None
    else
      var k := SpaceRunStart(body, |body| - |name|);
      if k == 0 || !IsSep(body[k - 1]) then None
      else
        var m := SpaceRunStart(body, k - 1);
        assert m <= k - 1 < |body| - |name| && IsSep(body[k - 1]);
        Some(m)
  }

  function FirstSuffixMatch(body: string, names: seq<string>): (r: Option<nat>)
    ensures r.Some? ==> exists i :: 0 <= i < |names| && SuffixMatch(body, names[i]) == r
  {
    if names == [] then None
    else if SuffixMatch(body, names[0]).Some? then SuffixMatch(body, names[0])
    else FirstSuffixMatch(body, names[1..])
  }

  /** `re.sub(r"\s*[-–—:]\s*(NASA|…|arXiv)\b$", "", body, flags=re.I)` where
      `body` does not end in a newline: at most one suffix is removed, what is
      removed is a separator with surrounding whitespace and an outlet name, and
      the cut is at the leftmost place such a tail starts; a title with such a
      tail always loses it. */
  function RemoveOutletSuffix(body: string): (r: string)
    ensures |r| <= |body| && r == body[..|r|]
    ensures r != body ==> exists i :: 0 <= i < |Outlets| && OutletTailAt(body, |r|, Outlets[i])
    ensures forall i, m: nat :: 0 <= i < |Outlets| && OutletTailAt(body, m, Outlets[i]) ==> |r| <= m < |body|
  {
    FirstMatchLeast(body);
    match FirstSuffixMatch(body, Outlets)
    case None => body
    case Some(m) => body[..m]
  }

  /** `$` also matches just before a final newline, which the suffix pattern keeps. */
  function RemoveOutletSuffixAnchored(s: string): (r: string)
    ensures |r| <= |s|
  {
    if s != [] && s[|s| - 1] == '\n' then RemoveOutletSuffix(s[..|s| - 1]) + "\n"
    else RemoveOutletSuffix(s)
  }

  /** `clean_title(t)`. */
  function CleanTitle(t: string): (r: string)
    ensures t == "" ==> r == ""
    ensures Collapsed(r)
    ensures |r| <= |t|
  {
    if t == "" then ""
    else Collapse(RemoveOutletSuffixAnchored(DropTrailingQuotes(DropLeadingQuotes(Strip(t)))))
  }

  /** The whitespace run that ends at `j` reaches back at least to any `m`
      from which everything up to `j` is whitespace. */
  lemma {:induction false} SpaceRunStartLeast(s: string, j: nat, m: nat)
    requires m <= j <= |s|
    requires forall q :: m <= q < j ==> IsSpace(s[q])
    ensures SpaceRunStart(s, j) <= m
    decreases j
  {
    if j > m {
      SpaceRunStartLeast(s, j - 1, m);
    }
  }

  /** A whitespace run with a non-whitespace character (or nothing) before it starts there. */
  lemma SpaceRunStartAt(s: string, j: nat, m: nat)
    requires m <= j <= |s|
    requires forall q :: m <= q < j ==> IsSpace(s[q])
    requires m == 0 || !IsSpace(s[m - 1])
    ensures SpaceRunStart(s, j) == m
  {
    SpaceRunStartLeast(s, j, m);
  }

  /** The suffix pattern for `name` finds every tail of that form: it matches,
      it starts at or before the tail, and exactly at it when no whitespace
      comes just before. */
  lemma SuffixMatchComplete(body: string, name: string, m: nat)
    requires OutletTailAt(body, m, name)
    ensures SuffixMatch(body, name).Some? && SuffixMatch(body, name).value <= m
    ensures m == 0 || !IsSpace(body[m - 1]) ==> SuffixMatch(body, name) == Some(m)
  {
    var e := |body| - |name|;
    var k :| m <= k < e && IsSep(body[k])
             && (forall q :: m <= q < k ==> IsSpace(body[q]))
             && (forall q :: k < q < e ==> IsSpace(body[q]));
    assert !IsSpace(body[k]);
    SpaceRunStartAt(body, e, k + 1);
    SpaceRunStartLeast(body, k, m);
    if m == 0 || !IsSpace(body[m - 1]) {
      SpaceRunStartAt(body, k, m);
    }
    SuffixMatchAt(body, name, k);
  }

  /** The suffix pattern with its separator at `k` starts where the whitespace before `k` does. */
  lemma SuffixMatchAt(body: string, name: string, k: nat)
    requires |name| <= |body| && Lower(body[|body| - |name|..]) == Lower(name)
    requires k < |body| - |name| && IsSep(body[k])
    requires SpaceRunStart(body, |body| - |name|) == k + 1
    ensures SuffixMatch(body, name) == Some(SpaceRunStart(body, k))
  {
    var j := SpaceRunStart(body, |body| - |name|);
    assert j - 1 == k && IsSep(body[j - 1]);
  }

  /** The cut falls at or before every outlet tail of the title. */
  lemma FirstMatchLeast(body: string)
    ensures forall i, m: nat :: 0 <= i < |Outlets| && OutletTailAt(body, m, Outlets[i]) ==>
              FirstSuffixMatch(body, Outlets).Some? && FirstSuffixMatch(body, Outlets).value <= m
  {
    forall i, m: nat | 0 <= i < |Outlets| && OutletTailAt(body, m, Outlets[i])
      ensures FirstSuffixMatch(body, Outlets).Some? && FirstSuffixMatch(body, Outlets).value <= m
    {
      SuffixMatchComplete(body, Outlets[i], m);
      OnlyOneOutletMatches(body, i);
    }
  }

  /** A clean title followed by any separator, with any whitespace around it,
      and a known outlet is reduced to the title itself: "Launch test: NASA",
      "Launch test —ESA" and "Launch test-JPL" all become "Launch test". */
  lemma OutletTailDropped(body: string, gap1: string, sep: char, gap2: string, i: nat)
    requires i < |Outlets|
    requires body != [] && Collapsed(body)
    requires !IsSpace(body[0]) && !IsSpace(body[|body| - 1]) && !IsQuote(body[0])
    requires (forall q :: 0 <= q < |gap1| ==> IsSpace(gap1[q])) && IsSep(sep)
    requires forall q :: 0 <= q < |gap2| ==> IsSpace(gap2[q])
    ensures CleanTitle(body + gap1 + [sep] + gap2 + Outlets[i]) == body
  {
    var t := body + gap1 + [sep] + gap2 + Outlets[i];
    assert RemoveOutletSuffixAnchored(DropTrailingQuotes(DropLeadingQuotes(Strip(t)))) == body by {
      TailRemoved(body, gap1, sep, gap2, i);
      TailKeptWhole(t, body[0], i);
    }
    CollapseCollapsed(body);
  }

  /** A title that starts with `c` and ends with an outlet name passes the
      stripping and quote removal unchanged, and its end is not a newline. */
  lemma TailKeptWhole(t: string, c: char, i: nat)
    requires i < |Outlets| && t != [] && t[0] == c && !IsSpace(c) && !IsQuote(c)
    requires |Outlets[i]| <= |t| && t[|t| - |Outlets[i]|..] == Outlets[i]
    ensures DropTrailingQuotes(DropLeadingQuotes(Strip(t))) == t
    ensures RemoveOutletSuffixAnchored(t) == RemoveOutletSuffix(t)
  {
    OutletEnds(i);
    assert t[|t| - 1] == Outlets[i][|Outlets[i]| - 1];
    UnpaddedUnquoted(t);
    AnchoredPlain(t);
  }

  /** The outlet tail after `body` is exactly what the suffix pattern removes. */
  lemma TailRemoved(body: string, gap1: string, sep: char, gap2: string, i: nat)
    requires i < |Outlets|
    requires body != [] && !IsSpace(body[|body| - 1])
    requires (forall q :: 0 <= q < |gap1| ==> IsSpace(gap1[q])) && IsSep(sep)
    requires forall q :: 0 <= q < |gap2| ==> IsSpace(gap2[q])
    ensures RemoveOutletSuffix(body + gap1 + [sep] + gap2 + Outlets[i]) == body
  {
    var t := body + gap1 + [sep] + gap2 + Outlets[i];
    TailAfter(body, gap1, sep, gap2, Outlets[i]);
    SuffixMatchComplete(t, Outlets[i], |body|);
    OnlyOneOutletMatches(t, i);
    MatchRemoved(t, |body|);
  }

  /** "<body><gap1><sep><gap2><name>" has an outlet tail right after `body`. */
  lemma TailAfter(body: string, gap1: string, sep: char, gap2: string, n: string)
    requires body != [] && !IsSpace(body[|body| - 1])
    requires (forall q :: 0 <= q < |gap1| ==> IsSpace(gap1[q])) && IsSep(sep)
    requires forall q :: 0 <= q < |gap2| ==> IsSpace(gap2[q])
    ensures var t := body + gap1 + [sep] + gap2 + n;
      OutletTailAt(t, |body|, n) && t[..|body|] == body && !IsSpace(t[|body| - 1])
  {
    var t := body + gap1 + [sep] + gap2 + n;
    var m, k := |body|, |body| + |gap1|;
    var e := |t| - |n|;
    assert t[e..] == n;
    forall q | m <= q < k ensures IsSpace(t[q]) {
      assert t[q] == gap1[q - m];
    }
    forall q | k < q < e ensures IsSpace(t[q]) {
      assert t[q] == gap2[q - k - 1];
    }
    assert t[k] == sep && t[m - 1] == body[m - 1];
    assert t[..m] == body;
  }

  /** A title with no whitespace or quote at either end and no outlet tail
      loses nothing but whitespace runs. */
  lemma NoOutletTailKept(t: string)
    requires t != [] && !IsSpace(t[0]) && !IsQuote(t[0])
    requires !IsSpace(t[|t| - 1]) && !IsQuote(t[|t| - 1])
    requires forall i, m: nat :: 0 <= i < |Outlets| ==> !OutletTailAt(t, m, Outlets[i])
    ensures CleanTitle(t) == Collapse(t)
  {
    UnpaddedUnquoted(t);
    AnchoredPlain(t);
    if RemoveOutletSuffix(t) != t {
      assert false;
    }
  }

  lemma {:induction false} DropLeadingQuotesNone(s: string)
    requires s == [] || !IsQuote(s[0])
    ensures DropLeadingQuotes(s) == s
  {
  }

  /** A run of quotes in front of a string that does not start with one is dropped. */
  lemma {:induction false} LeadingQuotesDropped(lq: string, x: string)
    requires forall q :: 0 <= q < |lq| ==> IsQuote(lq[q])
    requires x == [] || !IsQuote(x[0])
    ensures DropLeadingQuotes(lq + x) == x
    decreases |lq|
  {
    if lq != [] {
      assert (lq + x)[1..] == lq[1..] + x;
      LeadingQuotesDropped(lq[1..], x);
    }
  }

  /** A run of quotes after a string that does not end with one is dropped. */
  lemma {:induction false} TrailingQuotesDropped(x: string, rq: string)
    requires forall q :: 0 <= q < |rq| ==> IsQuote(rq[q])
    requires x == [] || !IsQuote(x[|x| - 1])
    ensures DropTrailingQuotes(x + rq) == x
    decreases |rq|
  {
    if rq != [] {
      assert (x + rq)[..|x + rq| - 1] == x + rq[..|rq| - 1];
      TrailingQuotesDropped(x, rq[..|rq| - 1]);
    }
  }

  /** A clean title without an outlet tail, wrapped in runs of quotes, cleans
      to the title: "\"Launch test\"" and "'Launch test'" become "Launch test". */
  lemma QuotedTitleKept(lq: string, body: string, rq: string)
    requires forall q :: 0 <= q < |lq| ==> IsQuote(lq[q])
    requires forall q :: 0 <= q < |rq| ==> IsQuote(rq[q])
    requires body != [] && Collapsed(body)
    requires !IsSpace(body[0]) && !IsQuote(body[0])
    requires !IsSpace(body[|body| - 1]) && !IsQuote(body[|body| - 1])
    requires forall i, m: nat :: 0 <= i < |Outlets| ==> !OutletTailAt(body, m, Outlets[i])
    ensures CleanTitle(lq + body + rq) == body
  {
    QuotesDroppedAround(lq, body, rq);
    NoTailKept(body);
    CollapseCollapsed(body);
  }

  /** Stripping and quote removal take the quote runs off a quoted title. */
  lemma QuotesDroppedAround(lq: string, body: string, rq: string)
    requires forall q :: 0 <= q < |lq| ==> IsQuote(lq[q])
    requires forall q :: 0 <= q < |rq| ==> IsQuote(rq[q])
    requires body != [] && !IsSpace(body[0]) && !IsQuote(body[0])
    requires !IsSpace(body[|body| - 1]) && !IsQuote(body[|body| - 1])
    ensures DropTrailingQuotes(DropLeadingQuotes(Strip(lq + body + rq))) == body
  {
    QuotedUnpadded(lq, body, rq);
    ConcatAssoc(lq, body, rq);
    LeadingQuotesDropped(lq, body + rq);
    TrailingQuotesDropped(body, rq);
  }

  /** Quotes are not whitespace, so a quoted title has nothing to strip. */
  lemma QuotedUnpadded(lq: string, body: string, rq: string)
    requires forall q :: 0 <= q < |lq| ==> IsQuote(lq[q])
    requires forall q :: 0 <= q < |rq| ==> IsQuote(rq[q])
    requires body != [] && !IsSpace(body[0]) && !IsSpace(body[|body| - 1])
    ensures Strip(lq + (body + rq)) == lq + (body + rq)
  {
    var t := lq + (body + rq);
    assert !IsSpace(t[0]) by {
      if lq != [] { assert t[0] == lq[0]; } else { assert t[0] == body[0]; }
    }
    assert !IsSpace(t[|t| - 1]) by {
      if rq != [] { assert t[|t| - 1] == rq[|rq| - 1]; } else { assert t[|t| - 1] == body[|body| - 1]; }
    }
    StripUnpadded(t);
  }

  /** A title without an outlet tail, not ending in a newline, keeps its end. */
  lemma NoTailKept(body: string)
    requires body == [] || body[|body| - 1] != '\n'
    requires forall i, m: nat :: 0 <= i < |Outlets| ==> !OutletTailAt(body, m, Outlets[i])
    ensures RemoveOutletSuffixAnchored(body) == body
  {
    AnchoredPlain(body);
    if RemoveOutletSuffix(body) != body {
      assert false;
    }
  }

  lemma {:induction false} StripUnpadded(s: string)
    requires s != [] && !IsSpace(s[0]) && !IsSpace(s[|s| - 1])
    ensures Strip(s) == s
  {
  }

  /** A clean title followed by a known outlet suffix is reduced to the title
      itself: "NASA Confirms Water on Europa - NASA" becomes "NASA Confirms Water on Europa". */
  lemma OutletSuffixDropped(body: string, i: nat)
    requires i < |Outlets|
    requires body != [] && Collapsed(body)
    requires !IsSpace(body[0]) && !IsSpace(body[|body| - 1])
    requires !IsQuote(body[0]) && !IsSep(body[|body| - 1])
    ensures CleanTitle(body + " - " + Outlets[i]) == body
  {
    SuffixRemoved(body, i);
    CollapseCollapsed(body);
  }

  /** Everything before the whitespace collapse reduces "<body> - <outlet>" to `body`. */
  lemma SuffixRemoved(body: string, i: nat)
    requires i < |Outlets|
    requires body != [] && !IsSpace(body[0]) && !IsSpace(body[|body| - 1])
    requires !IsQuote(body[0]) && !IsSep(body[|body| - 1])
    ensures RemoveOutletSuffixAnchored(DropTrailingQuotes(DropLeadingQuotes(Strip(body + " - " + Outlets[i])))) == body
  {
    var n := Outlets[i];
    var t := body + " - " + n;
    OutletEnds(i);
    FirstMatchOfPadded(body, i);
    PaddedParts(body, n);
    MatchRemoved(t, |body|);
    assert RemoveOutletSuffix(t) == body;
    PaddedNotAnchored(body, n);
    PaddedTitleKept(body, n);
  }

  lemma FirstMatchOfPadded(body: string, i: nat)
    requires i < |Outlets|
    requires body != [] && !IsSpace(body[|body| - 1]) && !IsSep(body[|body| - 1])
    ensures FirstSuffixMatch(body + " - " + Outlets[i], Outlets) == Some(|body|)
  {
    SuffixOfPadded(body, Outlets[i]);
    OnlyOneOutletMatches(body + " - " + Outlets[i], i);
  }

  /** Removal cuts the title where the first outlet match starts. */
  lemma MatchRemoved(t: string, m: nat)
    requires m <= |t| && FirstSuffixMatch(t, Outlets) == Some(m)
    ensures RemoveOutletSuffix(t) == t[..m]
  {
  }

  /** Stripping and quote removal leave "<body> - <name>" as it is. */
  lemma PaddedTitleKept(body: string, n: string)
    requires body != [] && !IsSpace(body[0]) && !IsQuote(body[0])
    requires n != [] && ('a' <= n[|n| - 1] <= 'z' || 'A' <= n[|n| - 1] <= 'Z')
    ensures DropTrailingQuotes(DropLeadingQuotes(Strip(body + " - " + n))) == body + " - " + n
  {
    var t := body + " - " + n;
    PaddedParts(body, n);
    assert t[0] == body[0];
    assert t[|t| - 1] == n[|n| - 1];
    UnpaddedUnquoted(t);
  }

  /** A title with no whitespace and no quote at either end goes through
      `strip` and the quote removal unchanged. */
  lemma UnpaddedUnquoted(t: string)
    requires t != [] && !IsSpace(t[0]) && !IsQuote(t[0])
    requires !IsSpace(t[|t| - 1]) && !IsQuote(t[|t| - 1])
    ensures DropTrailingQuotes(DropLeadingQuotes(Strip(t))) == t
  {
    StripUnpadded(t);
    DropLeadingQuotesNone(t);
  }

  /** The newline rule does not apply to "<body> - <name>". */
  lemma PaddedNotAnchored(body: string, n: string)
    requires n != [] && ('a' <= n[|n| - 1] <= 'z' || 'A' <= n[|n| - 1] <= 'Z')
    ensures RemoveOutletSuffixAnchored(body + " - " + n) == RemoveOutletSuffix(body + " - " + n)
  {
    PaddedParts(body, n);
    AnchoredPlain(body + " - " + n);
  }

  lemma PaddedParts(body: string, n: string)
    requires n != []
    ensures (body + " - " + n)[..|body|] == body
    ensures (body + " - " + n)[|body + " - " + n| - 1] == n[|n| - 1]
  {
    assert body + " - " + n == body + (" - " + n);
  }

  /** A title that does not end in a newline is matched without the newline rule. */
  lemma {:induction false} AnchoredPlain(t: string)
    requires t == [] || t[|t| - 1] != '\n'
    ensures RemoveOutletSuffixAnchored(t) == RemoveOutletSuffix(t)
  {
  }

  lemma SuffixOfPadded(body: string, n: string)
    requires body != [] && !IsSpace(body[|body| - 1]) && !IsSep(body[|body| - 1])
    ensures SuffixMatch(body + " - " + n, n) == Some(|body|)
  {
    var t := body + " - " + n;
    assert t[|t| - |n|..] == n;
    assert t[|body|] == ' ' && t[|body| + 1] == '-' && t[|body| + 2] == ' ' && t[|body| - 1] == body[|body| - 1];
    assert SpaceRunStart(t, |body| + 3) == |body| + 2 by {
      assert SpaceRunStart(t, |body| + 2) == |body| + 2;
    }
    assert SpaceRunStart(t, |body| + 1) == |body| by {
      assert SpaceRunStart(t, |body|) == |body|;
    }
  }

  /** Every outlet name ends in an ASCII letter. */
  lemma OutletEnds(i: nat)
    requires i < |Outlets|
    ensures |Outlets[i]| >= 3
    ensures 'a' <= Outlets[i][|Outlets[i]| - 1] <= 'z' || 'A' <= Outlets[i][|Outlets[i]| - 1] <= 'Z'
  {
  }

  /** Only "NASA" and "ESA" end in the same letter. */
  lemma OutletEndsDiffer(j: nat, i: nat)
    requires j < i < |Outlets|
    ensures LowerChar(Outlets[j][|Outlets[j]| - 1]) == LowerChar(Outlets[i][|Outlets[i]| - 1]) ==> j == 0 && i == 2
  {
  }

  /** The first matching outlet is the only one whose name ends the title. */
  lemma OnlyOneOutletMatches(t: string, i: nat)
    requires i < |Outlets| && SuffixMatch(t, Outlets[i]).Some?
    ensures FirstSuffixMatch(t, Outlets) == SuffixMatch(t, Outlets[i])
  {
    forall j | 0 <= j < i ensures SuffixMatch(t, Outlets[j]).None? {
      EarlierOutletMisses(t, j, i);
    }
    FirstMatchAt(t, Outlets, i);
  }

  /** An outlet listed before the one that matches does not match as well. */
  lemma EarlierOutletMisses(t: string, j: nat, i: nat)
    requires j < i < |Outlets| && SuffixMatch(t, Outlets[i]).Some?
    ensures SuffixMatch(t, Outlets[j]).None?
  {
    var a, b := Outlets[i], Outlets[j];
    OutletEnds(i);
    OutletEnds(j);
    MatchEndsAlike(t, a);
    MatchEndsAlike(t, b);
    OutletEndsDiffer(j, i);
    assert j == 0 && i == 2 ==> a == "ESA" && b == "NASA";
    NasaExcludesEsa(t);
  }

  /** A matching outlet name ends the title, up to letter case. */
  lemma MatchEndsAlike(t: string, n: string)
    ensures n != [] && SuffixMatch(t, n).Some? ==> t != [] && LowerChar(t[|t| - 1]) == LowerChar(n[|n| - 1])
  {
    if n != [] && SuffixMatch(t, n).Some? {
      assert Lower(t[|t| - |n|..])[|n| - 1] == LowerChar(t[|t| - 1]);
    }
  }

  /** A title ending in "NASA" has an 'n' where the "ESA" pattern needs whitespace or a separator. */
  lemma NasaExcludesEsa(t: string)
    ensures SuffixMatch(t, "ESA").Some? ==> SuffixMatch(t, "NASA").None?
  {
    if SuffixMatch(t, "NASA").Some? {
      assert Lower(t[|t| - 4..])[0] == LowerChar(t[|t| - 4]) == 'n';
      assert SpaceRunStart(t, |t| - 3) == |t| - 3;
    }
  }

  lemma {:induction false} FirstMatchAt(body: string, names: seq<string>, i: nat)
    requires i < |names| && SuffixMatch(body, names[i]).Some?
    requires forall j :: 0 <= j < i ==> SuffixMatch(body, names[j]).None?
    ensures FirstSuffixMatch(body, names) == SuffixMatch(body, names[i])
  {
    if i > 0 {
      var m0 := SuffixMatch(body, names[0]);
      assert m0.None?;
      assert FirstSuffixMatch(body, names) == FirstSuffixMatch(body, names[1..]);
      FirstMatchAt(body, names[1..], i - 1);
    }
  }
}
