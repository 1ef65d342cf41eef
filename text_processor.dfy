/** The line filter of `processing.TextProcessor`: HTML text extraction, the
    navigation / credit / footer line classifiers, "N min read" removal and
    `clean_text`, which keeps the body lines of an article page. */
module TextProcessing {
  import opened TextUtil

  /** `NAV_WORDS`, in declaration order (duplicates included). */
  const NavWords: seq<string> := [
    "more tips & guides", "faq", "explore this section", "science activation",
    "framework for heliophysics education", "big idea 1.1", "skywatching home",
    "more tips & guides", "skywatching faq", "night sky network", "explore this section",
    "science activation", "framework for heliophysics education", "helio big idea"]

  /** `CREDIT_KEYWORDS`. */
  const CreditKeywords: seq<string> := ["credits:", "image credit:", "text credit:", "photo by"]

  /** `FOOTER_HEADINGS`. */
  const FooterHeadings: seq<string> := [
    "keep exploring", "discover more topics", "related terms", "additional resources",
    "lesson plans & educator guides", "interactive resources", "webinars & slide decks",
    "share details", "last updated", "location"]

  predicate HasDigit(s: string) {
    exists i :: 0 <= i < |s| && IsDigit(s[i])
  }

  // ---------------------------------------------------------------------------
  // Line classifiers

  /** `looks_like_nav_line`: no '.', at least six words, and a navigation phrase. */
  predicate LooksLikeNavLine(line: string) {
    var l := Lower(line);
    !Contains(l, ".") && |Words(l)| >= 6 && ContainsAny(l, NavWords)
  }

  /** `looks_like_credit_line`. */
  predicate LooksLikeCreditLine(line: string) {
    var l := Lower(line);
    ContainsAny(l, CreditKeywords)
    || (CountChar(line, '/') >= 3 && (Contains(l, "nasa") || Contains(l, "esa") || Contains(l, "jpl")))
    || Contains(line, "\U{A9}")
  }

  /** `looks_like_footer_heading`. */
  predicate LooksLikeFooterHeading(line: string) {
    ContainsAny(Lower(line), FooterHeadings) || (Contains(line, "@") && HasDigit(line))
  }

  /** Lower-casing only changes ASCII letters, so a '.' survives it and nothing else becomes one. */
  lemma {:induction false} LowerKeepsDots(line: string)
    ensures Occurs(".", Lower(line)) <==> exists i :: 0 <= i < |line| && line[i] == '.'
  {
    if Occurs(".", Lower(line)) {
      var p :| IsAt(Lower(line), ".", p);
      assert Lower(line)[p..p + 1][0] == Lower(line)[p] == LowerChar(line[p]);
      assert line[p] == '.';
    }
    if exists i :: 0 <= i < |line| && line[i] == '.' {
      var i :| 0 <= i < |line| && line[i] == '.';
      assert Lower(line)[i..i + 1] == ".";
      assert IsAt(Lower(line), ".", i);
    }
  }

  /** A navigation line holds no '.', has at least six words and contains a navigation phrase, and
      every such line is one. */
  lemma NavLineMeaning(line: string)
    ensures LooksLikeNavLine(line) <==>
              (forall i :: 0 <= i < |line| ==> line[i] != '.')
              && |Words(Lower(line))| >= 6
              && exists w :: 0 <= w < |NavWords| && Occurs(NavWords[w], Lower(line))
  {
    LowerKeepsDots(line);
  }

  /** "big idea 1.1" contains a '.', and a line with a '.' is never a navigation line, so
      that phrase can never be the reason a line is dropped. */
  lemma BigIdeaNeverMatches(line: string)
    ensures Occurs("big idea 1.1", Lower(line)) ==> !LooksLikeNavLine(line)
  {
    if Occurs("big idea 1.1", Lower(line)) {
      var p :| IsAt(Lower(line), "big idea 1.1", p);
      assert Lower(line)[p + 10..p + 11] == Lower(line)[p..p + 12][10..11] == ".";
      assert IsAt(Lower(line), ".", p + 10);
    }
  }

  /** A credit line is one with a credit phrase, or three slashes and an agency name, or '©'. */
  lemma CreditLineMeaning(line: string)
    ensures LooksLikeCreditLine(line) <==>
              (exists w :: 0 <= w < |CreditKeywords| && Occurs(CreditKeywords[w], Lower(line)))
              || (CountChar(line, '/') >= 3
                  && (Occurs("nasa", Lower(line)) || Occurs("esa", Lower(line)) || Occurs("jpl", Lower(line))))
              || Occurs("\U{A9}", line)
  {
  }

  /** A footer heading is a line with a footer phrase, or with both '@' and a digit. */
  lemma FooterHeadingMeaning(line: string)
    ensures LooksLikeFooterHeading(line) <==>
              (exists w :: 0 <= w < |FooterHeadings| && Occurs(FooterHeadings[w], Lower(line)))
              || (Occurs("@", line) && exists i :: 0 <= i < |line| && IsDigit(line[i]))
  {
  }

  // ---------------------------------------------------------------------------
  // re.sub(r"\b\d+\s*min read\b", "", line, flags=re.I)

  /** `re.sub(P, "", s)` from position `p`, for a pattern P whose match starting
      at `k` ends at `end(s, k)` (any value outside `k + 1..|s|` means no match at
      `k`): matches are removed left to right and the scan resumes after each one. */
  function RemoveMatchesFrom(s: string, p: nat, end: (string, nat) -> int): (r: string)
    requires p <= |s|
    ensures |r| <= |s| - p
    decreases |s| - p
  {
    if p == |s| then []
    else if p < end(s, p) <= |s| then RemoveMatchesFrom(s, end(s, p), end)
    else [s[p]] + RemoveMatchesFrom(s, p + 1, end)
  }

  /** Where no match starts, the scan copies the text as it is. */
  lemma {:induction false} MatchesCopied(s: string, m: nat, p: nat, end: (string, nat) -> int)
    requires p <= m <= |s|
    requires forall k :: p <= k < m ==> !(k < end(s, k) <= |s|)
    ensures RemoveMatchesFrom(s, p, end) == s[p..m] + RemoveMatchesFrom(s, m, end)
    decreases m - p
  {
    if p < m {
      var rest := RemoveMatchesFrom(s, m, end);
      var u := s[p + 1..m];
      MatchesCopied(s, m, p + 1, end);
      assert s[p..m] == [s[p]] + u;
      ConsAssoc(s[p], u, rest);
    }
  }

  /** A match is dropped whole and the scan resumes where it ends. */
  lemma MatchStep(s: string, p: nat, end: (string, nat) -> int)
    requires p < end(s, p) <= |s|
    ensures RemoveMatchesFrom(s, p, end) == RemoveMatchesFrom(s, end(s, p), end)
  {
  }

  /** With one match, from `a` to `n`, and none elsewhere, the scan removes
      exactly that match. */
  lemma OneMatchRemoved(s: string, a: nat, n: nat, end: (string, nat) -> int)
    requires a < n <= |s|
    requires forall k :: 0 <= k < a ==> !(k < end(s, k) <= |s|)
    requires end(s, a) == n
    requires forall k :: n <= k < |s| ==> !(k < end(s, k) <= |s|)
    ensures RemoveMatchesFrom(s, 0, end) == s[..a] + s[n..]
  {
    assert RemoveMatchesFrom(s, n, end) == s[n..] by {
      MatchesCopied(s, |s|, n, end);
      assert s[n..|s|] == s[n..];
    }
    assert RemoveMatchesFrom(s, a, end) == RemoveMatchesFrom(s, n, end) by {
      MatchStep(s, a, end);
    }
    assert RemoveMatchesFrom(s, 0, end) == s[..a] + RemoveMatchesFrom(s, a, end) by {
      MatchesCopied(s, a, 0, end);
      assert s[0..a] == s[..a];
    }
  }

  /** Where a match of `\b\d+\s*min read\b` starting at `p` ends, or -1. The digit and
      space runs are taken whole: a shorter run would leave a digit or a space where
      the next part of the pattern cannot match. */
  function MinReadEnd(s: string, p: nat): (e: int)
    ensures e == -1 || p + 9 <= e <= |s|
    ensures e != -1 ==> IsDigit(s[p]) && EndsWithMinRead(s, e)
  {
    if p >= |s| || !IsDigit(s[p]) || (p > 0 && IsWordChar(s[p - 1])) then -1
    else
      var q := RunEnd(s, p, IsDigit);
      var r := RunEnd(s, q, IsSpace);
      assert p < q <= r;
      var e := r + 8;
      if EndsWithMinRead(s, e) && (e == |s| || !IsWordChar(s[e])) then e else -1
  }

  /** "min read", in any letter case, ends at `e`. */
  predicate EndsWithMinRead(s: string, e: nat) {
    8 <= e <= |s|
    && LowerChar(s[e - 8]) == 'm' && LowerChar(s[e - 7]) == 'i' && LowerChar(s[e - 6]) == 'n'
    && s[e - 5] == ' ' && LowerChar(s[e - 4]) == 'r' && LowerChar(s[e - 3]) == 'e'
    && LowerChar(s[e - 2]) == 'a' && LowerChar(s[e - 1]) == 'd'
  }

  lemma MinReadAt(s: string, e: nat)
    requires EndsWithMinRead(s, e)
    ensures IsAt(Lower(s), "min read", e - 8)
  {
    var m := Lower(s)[e - 8..e];
    forall i | 0 <= i < 8 ensures m[i] == "min read"[i] {
      assert m[i] == LowerChar(s[e - 8 + i]);
    }
  }

  /** `re.sub(r"\b\d+\s*min read\b", "", line, flags=re.I)`. */
  function RemoveMinRead(s: string): (r: string)
    ensures |r| <= |s|
  {
    RemoveMatchesFrom(s, 0, MinReadEnd)
  }

  /** "min read", in any letter case, occurs in `s`. */
  ghost predicate MentionsMinRead(s: string) {
    exists e :: EndsWithMinRead(s, e)
  }

  /** An end of "min read" in `x + post` past `x` is one in `post`. */
  lemma EndsWithMinReadInTail(x: string, post: string, e: nat)
    requires |x| + 8 <= e && EndsWithMinRead(x + post, e)
    ensures EndsWithMinRead(post, e - |x|)
  {
    var s := x + post;
    forall i | 0 <= i < |post| ensures s[|x| + i] == post[i] {
    }
  }

  /** No match starts in a tail that does not mention "min read". */
  lemma NoMinReadInTail(x: string, post: string, k: nat)
    requires |x| <= k && !MentionsMinRead(post)
    ensures MinReadEnd(x + post, k) == -1
  {
    var e := MinReadEnd(x + post, k);
    if e != -1 {
      EndsWithMinReadInTail(x, post, e);
    }
  }

  /** A line that does not mention "min read" in any letter case is left as
      it is, by each of the two removals. */
  lemma RemoveMinReadNone(s: string)
    requires !MentionsMinRead(s)
    ensures RemoveMinRead(s) == s
  {
    forall k | 0 <= k < |s| ensures MinReadEnd(s, k) == -1 {
      assert [] + s == s;
      NoMinReadInTail([], s, k);
    }
    MatchesCopied(s, |s|, 0, MinReadEnd);
    assert s[0..|s|] == s;
  }

  /** `d + sp + w` is a phrase the pattern matches: digits, whitespace, then
      "min read" in any letter case. */
  ghost predicate MinReadPhrase(d: string, sp: string, w: string) {
    d != [] && (forall k :: 0 <= k < |d| ==> IsDigit(d[k]))
    && (forall k :: 0 <= k < |sp| ==> IsSpace(sp[k]))
    && |w| == 8 && EndsWithMinRead(w, 8)
  }

  /** A "N min read" phrase standing on word boundaries is removed and the
      text around it is kept: "Posted 5 min read. Mars" becomes "Posted . Mars". */
  lemma MinReadRemoved(pre: string, d: string, sp: string, w: string, post: string)
    requires forall k :: 0 <= k < |pre| ==> !IsDigit(pre[k])
    requires pre == [] || !IsWordChar(pre[|pre| - 1])
    requires MinReadPhrase(d, sp, w)
    requires post == [] || !IsWordChar(post[0])
    requires !MentionsMinRead(post)
    ensures RemoveMinRead(pre + (d + sp + w) + post) == pre + post
  {
    var s := pre + (d + sp + w) + post;
    var a, n := |pre|, |pre| + |d + sp + w|;
    assert forall k :: 0 <= k < a ==> MinReadEnd(s, k) == -1 by {
      forall k | 0 <= k < a ensures MinReadEnd(s, k) == -1 {
        assert s[k] == pre[k];
      }
    }
    assert MinReadEnd(s, a) == n by {
      PhraseMatched(pre, d, sp, w, post);
    }
    assert forall k :: n <= k < |s| ==> MinReadEnd(s, k) == -1 by {
      forall k | n <= k < |s| ensures MinReadEnd(s, k) == -1 {
        ConcatAssoc(pre, d + sp + w, post);
        NoMinReadInTail(pre + (d + sp + w), post, k);
      }
    }
    MinReadCut(s, a, n);
    assert s[..a] == pre && s[n..] == post;
  }

  /** One match from `a` to `n` and none elsewhere: the text around it is kept. */
  lemma MinReadCut(s: string, a: nat, n: nat)
    requires a < n <= |s|
    requires forall k :: 0 <= k < a ==> MinReadEnd(s, k) == -1
    requires MinReadEnd(s, a) == n
    requires forall k :: n <= k < |s| ==> MinReadEnd(s, k) == -1
    ensures RemoveMinRead(s) == s[..a] + s[n..]
  {
    OneMatchRemoved(s, a, n, MinReadEnd);
  }

  /** The match at the start of the phrase ends where the phrase ends. */
  lemma PhraseMatched(pre: string, d: string, sp: string, w: string, post: string)
    requires pre == [] || !IsWordChar(pre[|pre| - 1])
    requires MinReadPhrase(d, sp, w)
    requires post == [] || !IsWordChar(post[0])
    ensures MinReadEnd(pre + (d + sp + w) + post, |pre|) == |pre| + |d + sp + w|
  {
    var s := pre + (d + sp + w) + post;
    var a, b, c := |pre|, |pre| + |d|, |pre| + |d| + |sp|;
    var n := c + |w|;
    forall k | a <= k < b ensures IsDigit(s[k]) {
      assert s[k] == d[k - a];
    }
    forall k | b <= k < c ensures IsSpace(s[k]) {
      assert s[k] == sp[k - b];
    }
    assert EndsWithMinRead(s, n) by {
      forall i | 0 <= i < 8 ensures s[c + i] == w[i] {
      }
    }
    assert a > 0 ==> s[a - 1] == pre[a - 1];
    assert n < |s| ==> s[n] == post[0];
    MinReadMatchAt(s, a, b, c);
  }

  /** An end of "min read" in `post` is one in `x + post`, `|x|` further on. */
  lemma EndsWithMinReadShift(x: string, post: string, e: nat)
    requires EndsWithMinRead(post, e)
    ensures EndsWithMinRead(x + post, |x| + e)
  {
    var s := x + post;
    forall i | 0 <= i < |post| ensures s[|x| + i] == post[i] {
    }
  }

  /** As the cleaner runs it, twice: the second pass finds nothing left to remove. */
  lemma MinReadRemovedTwice(pre: string, d: string, sp: string, w: string, post: string)
    requires forall k :: 0 <= k < |pre| ==> !IsDigit(pre[k])
    requires pre == [] || !IsWordChar(pre[|pre| - 1])
    requires MinReadPhrase(d, sp, w)
    requires post == [] || !IsWordChar(post[0])
    requires !MentionsMinRead(pre + post)
    ensures RemoveMinRead(RemoveMinRead(pre + (d + sp + w) + post)) == pre + post
  {
    assert !MentionsMinRead(post) by {
      forall e | EndsWithMinRead(post, e) ensures false {
        EndsWithMinReadShift(pre, post, e);
      }
    }
    MinReadRemoved(pre, d, sp, w, post);
    RemoveMinReadNone(pre + post);
  }

  /** A digit run on a word boundary, a whitespace run and "min read" on a word
      boundary make a match that ends after "min read". */
  lemma MinReadMatchAt(s: string, a: nat, b: nat, c: nat)
    requires a < b <= c && c + 8 <= |s|
    requires forall k :: a <= k < b ==> IsDigit(s[k])
    requires forall k :: b <= k < c ==> IsSpace(s[k])
    requires EndsWithMinRead(s, c + 8)
    requires a == 0 || !IsWordChar(s[a - 1])
    requires c + 8 == |s| || !IsWordChar(s[c + 8])
    ensures MinReadEnd(s, a) == c + 8
  {
    assert RunEnd(s, a, IsDigit) == b by {
      RunEndOver(s, a, b, IsDigit);
    }
    assert RunEnd(s, b, IsSpace) == c by {
      assert s[c] == 'm' || s[c] == 'M';
      RunEndOver(s, b, c, IsSpace);
    }
    MinReadEndAt(s, a, b, c);
  }

  /** The match from `p` once its digit run ends at `q` and its space run at `r`. */
  lemma MinReadEndAt(s: string, p: nat, q: nat, r: nat)
    requires p < |s| && IsDigit(s[p]) && (p == 0 || !IsWordChar(s[p - 1]))
    requires q <= |s| && RunEnd(s, p, IsDigit) == q && RunEnd(s, q, IsSpace) == r
    requires EndsWithMinRead(s, r + 8) && (r + 8 == |s| || !IsWordChar(s[r + 8]))
    ensures MinReadEnd(s, p) == r + 8
  {
  }

  // ---------------------------------------------------------------------------
  // clean_html and the line loop of clean_text

  predicate IsNewline(c: char) { c == '\n' }
  predicate IsLineBreak(c: char) { c == '\n' || c == '\r' }

  /** `clean_html`: the text `extract` pulls out of the markup (BeautifulSoup's
      `get_text("\n")` after dropping scripts and styles, then `unescape`), with
      runs of newlines squeezed and the ends stripped. */
  function HtmlText(s: string, extract: string -> string): (r: string)
    ensures r != [] ==> !IsSpace(r[0]) && !IsSpace(r[|r| - 1])
  {
    Strip(ReplaceRuns(extract(s), IsNewline, '\n'))
  }

  /** The candidate lines: the extracted text split at line breaks, or, when it has
      none, the original markup split at runs of two or more whitespace characters.
      Splitting at `[ \t]*[\n\r]+[ \t]*` and at `[\n\r]+` gives the same pieces up to
      spaces and tabs at their ends, which every line loses to `strip()` anyway. */
  function RoughLines(original: string, html: string): (lines: seq<string>)
    ensures |lines| >= 1
  {
    var lines := Split(html, IsLineBreak, 1);
    if |lines| == 1 then Split(original, IsSpace, 2) else lines
  }

  /** Which split gives the candidate lines: the pieces of the extracted text
      between its line-break runs when it has a line break (then there are at
      least two), otherwise the pieces of the markup between its runs of two or
      more whitespace characters. `SplitWoven`, `SplitUnbroken` and
      `SplitGapsMaximal` say what the pieces of a split are. */
  lemma RoughLinesMeaning(original: string, html: string)
    ensures (exists q :: 0 <= q < |html| && IsLineBreak(html[q])) ==>
              RoughLines(original, html) == Split(html, IsLineBreak, 1) && |RoughLines(original, html)| >= 2
    ensures (forall q :: 0 <= q < |html| ==> !IsLineBreak(html[q])) ==>
              RoughLines(original, html) == Split(original, IsSpace, 2)
  {
    var b := NextBreak(html, IsLineBreak, 1, 0);
    if q :| 0 <= q < |html| && IsLineBreak(html[q]) {
      if b > q {
        RunEndStep(html, q, IsLineBreak);
        assert false;
      }
    } else {
      assert b == |html|;
    }
  }

  /** What the loop does with one line: stop at it, drop it, or keep the given text. */
  datatype Verdict = Stop | Drop | Keep(body: string)

  /** The branches of the loop body of `clean_text`, in their order. */
  function Classify(line: string): (v: Verdict)
    ensures v.Keep? ==> |v.body| >= 3
  {
    var l := Strip(line);
    if l == [] then Drop
    else if LooksLikeFooterHeading(l) then Stop
    else if LooksLikeNavLine(l) || LooksLikeCreditLine(l) then Drop
    else
      var m := RemoveMinRead(RemoveMinRead(l));
      if |m| < 3 then Drop else Keep(m)
  }

  /** The lines a loop with the given per-line decision keeps, in order. */
  function KeptBy(lines: seq<string>, classify: string -> Verdict): (kept: seq<string>)
    ensures |kept| <= |lines|
  {
    if lines == [] then []
    else match classify(lines[0])
      case Stop => []
      case Drop => KeptBy(lines[1..], classify)
      case Keep(m) => [m] + KeptBy(lines[1..], classify)
  }

  /** The lines the loop of `clean_text` keeps, in order. */
  function KeptLines(lines: seq<string>): (kept: seq<string>)
    ensures |kept| <= |lines|
  {
    KeptBy(lines, Classify)
  }

  /** Every kept line is the text of a line the loop kept, so it has at least three characters. */
  lemma KeptLinesLong(lines: seq<string>)
    ensures forall k :: 0 <= k < |KeptLines(lines)| ==> |KeptLines(lines)[k]| >= 3
  {
    KeptByLong(lines, Classify);
  }

  /** A loop whose kept texts all have three characters or more keeps only such texts. */
  lemma {:induction false} KeptByLong(lines: seq<string>, classify: string -> Verdict)
    requires forall l :: classify(l).Keep? ==> |classify(l).body| >= 3
    ensures forall k :: 0 <= k < |KeptBy(lines, classify)| ==> |KeptBy(lines, classify)[k]| >= 3
  {
    if lines != [] {
      KeptByLong(lines[1..], classify);
      var rest := KeptBy(lines[1..], classify);
      match classify(lines[0])
      case Stop =>
      case Drop =>
      case Keep(m) =>
        assert KeptBy(lines, classify) == [m] + rest;
    }
  }

  /** A loop over a single line keeps that line's text, if any. */
  lemma KeptByOne(line: string, classify: string -> Verdict)
    ensures KeptBy([line], classify) == if classify(line).Keep? then [classify(line).body] else []
  {
    assert [line][1..] == [];
  }

  /** Once a line stops the loop, no later line contributes. */
  lemma {:induction false} StopCutsRest(lines: seq<string>, classify: string -> Verdict, j: nat)
    requires j < |lines| && classify(lines[j]) == Stop
    ensures KeptBy(lines, classify) == KeptBy(lines[..j], classify)
  {
    if j == 0 {
      assert lines[..0] == [];
    } else {
      assert lines[..j][1..] == lines[1..][..j - 1];
      assert lines[..j][0] == lines[0];
      if classify(lines[0]) != Stop {
        StopCutsRest(lines[1..], classify, j - 1);
      }
    }
  }

  /** A non-empty footer heading stops the loop: no line after it contributes. */
  lemma FooterCutsRest(lines: seq<string>, j: nat)
    requires j < |lines| && Strip(lines[j]) != [] && LooksLikeFooterHeading(Strip(lines[j]))
    ensures KeptLines(lines) == KeptLines(lines[..j])
  {
    StopCutsRest(lines, Classify, j);
  }

  /** Before any stopping line, each line is decided on its own and the order is kept. */
  lemma {:induction false} KeptByAppend(a: seq<string>, b: seq<string>, classify: string -> Verdict)
    requires forall i :: 0 <= i < |a| ==> classify(a[i]) != Stop
    ensures KeptBy(a + b, classify) == KeptBy(a, classify) + KeptBy(b, classify)
  {
    if a == [] {
      assert a + b == b;
    } else {
      assert (a + b)[0] == a[0];
      assert (a + b)[1..] == a[1..] + b;
      KeptByAppend(a[1..], b, classify);
    }
  }

  lemma KeptLinesAppend(a: seq<string>, b: seq<string>)
    requires forall i :: 0 <= i < |a| ==> Classify(a[i]) != Stop
    ensures KeptLines(a + b) == KeptLines(a) + KeptLines(b)
  {
    KeptByAppend(a, b, Classify);
  }

  /** A single line is dropped when it is empty, a navigation or credit line, or shorter than
      three characters once "N min read" is removed; a footer heading keeps nothing either;
      otherwise the stripped line without "N min read" is kept. */
  lemma KeptSingleLine(line: string)
    ensures var l := Strip(line);
            var m := RemoveMinRead(RemoveMinRead(l));
            KeptLines([line]) ==
              (if l == [] || LooksLikeFooterHeading(l) || LooksLikeNavLine(l) || LooksLikeCreditLine(l) || |m| < 3
               then [] else [m])
  {
    KeptByOne(line, Classify);
  }

  /** `clean_text(input)` as a value: "" for "", "" when no line survives, otherwise the
      surviving lines joined by spaces, whitespace-collapsed and stripped. */
  function CleanTextOf(input: string, extract: string -> string): (r: string)
    ensures input == "" ==> r == ""
    ensures Collapsed(r)
    ensures r != [] ==> !IsSpace(r[0]) && !IsSpace(r[|r| - 1])
    ensures KeptLines(RoughLines(input, HtmlText(input, extract))) == [] ==> r == ""
  {
    if input == "" then ""
    else
      var kept := KeptLines(RoughLines(input, HtmlText(input, extract)));
      if kept == [] then "" else SqueezeStrip(Join(kept, " "))
  }

  /** A page whose first extracted line is a footer heading has no body text. */
  lemma FooterFirstGivesNothing(input: string, extract: string -> string)
    requires input != ""
    requires Classify(RoughLines(input, HtmlText(input, extract))[0]) == Stop
    ensures CleanTextOf(input, extract) == ""
  {
  }

  /** How one line moves a loop with the given per-line decision towards its result. */
  lemma FilterStep(rough: seq<string>, i: nat, cleaned: seq<string>, classify: string -> Verdict)
    requires i < |rough| && cleaned + KeptBy(rough[i..], classify) == KeptBy(rough, classify)
    ensures classify(rough[i]) == Stop ==> cleaned == KeptBy(rough, classify)
    ensures classify(rough[i]) == Drop ==> cleaned + KeptBy(rough[i + 1..], classify) == KeptBy(rough, classify)
    ensures classify(rough[i]).Keep? ==>
              (cleaned + [classify(rough[i]).body]) + KeptBy(rough[i + 1..], classify) == KeptBy(rough, classify)
  {
    var k := KeptBy(rough[i + 1..], classify);
    assert KeptBy(rough[i..], classify) ==
             match classify(rough[i])
             case Stop => []
             case Drop => k
             case Keep(m) => [m] + k
    by {
      assert rough[i..][1..] == rough[i + 1..];
      assert rough[i..][0] == rough[i];
    }
    match classify(rough[i])
    case Stop =>
      assert cleaned + [] == cleaned;
    case Drop =>
    case Keep(m) =>
      assert (cleaned + [m]) + k == cleaned + ([m] + k);
  }

  /** The line loop of `clean_text`: strip each line, skip empty ones, stop at a
      footer heading, skip navigation and credit lines, remove "N min read" twice
      and keep what has at least three characters. */
  method FilterLines(rough: seq<string>) returns (cleaned: seq<string>)
    ensures cleaned == KeptLines(rough)
  {
    cleaned := [];
    var i := 0;
    while i < |rough|
      invariant 0 <= i <= |rough|
      invariant cleaned + KeptLines(rough[i..]) == KeptLines(rough)
    {
      FilterStep(rough, i, cleaned, Classify);
      var line := Strip(rough[i]);
      if line == [] {
        assert Classify(rough[i]) == Drop;
        i := i + 1;
        continue;
      }
      if LooksLikeFooterHeading(line) {
        assert Classify(rough[i]) == Stop;
        break;
      }
      if LooksLikeNavLine(line) || LooksLikeCreditLine(line) {
        assert Classify(rough[i]) == Drop;
        i := i + 1;
        continue;
      }
      line := RemoveMinRead(line);
      line := RemoveMinRead(line);
      if |line| < 3 {
        assert Classify(rough[i]) == Drop;
        i := i + 1;
        continue;
      }
      assert Classify(rough[i]) == Keep(line);
      cleaned := cleaned + [line];
      i := i + 1;
    }
  }

  /** `TextProcessor`: holds the text it was built with; `clean_html` and
      `clean_text` overwrite it. */
  class TextProcessor {
    var text: string

    constructor (text0: string)
      ensures text == text0
    {
      text := text0;
    }

    method CleanHtml(extract: string -> string)
      modifies this
      ensures text == HtmlText(old(text), extract)
    {
      text := Strip(ReplaceRuns(extract(text), IsNewline, '\n'));
    }

    /** `clean_text(arg)`, where `arg == ""` stands for the omitted argument (both are
        falsy, and both make the method work on the stored text). */
    method CleanText(arg: string, extract: string -> string) returns (r: string)
      modifies this
      ensures r == CleanTextOf(if arg == "" then old(text) else arg, extract)
      ensures var input := if arg == "" then old(text) else arg;
              text == (if input == "" then input else HtmlText(input, extract))
    {
      if arg != "" {
        text := arg;
      }
      var original := text;
      if text == "" {
        return "";
      }
      CleanHtml(extract);
      var rough := Split(text, IsLineBreak, 1);
      if |rough| == 1 {
        rough := Split(original, IsSpace, 2);
      }
      assert rough == RoughLines(original, text);
      var cleaned := FilterLines(rough);
      if cleaned == [] {
        return "";
      }
      r := SqueezeStrip(Join(cleaned, " "));
    }
  }
}
