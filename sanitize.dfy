/** `cleaner.sanitize_text` and `cleaner.get_rid_of_img_tags`: control
    characters, HTML comments and `<img>` tags are removed, the page is run
    through `TextProcessor.clean_text`, a trailing boilerplate tail is cut,
    whitespace is collapsed and the result is capped at 10 000 characters. */
module Sanitize {
  import opened TextUtil
  import opened TextProcessing

  /** The maximum length of a sanitised text. */
  const MaxTextLength := 10000

  /** How far from the end a cut may start: the cut index must exceed `len - 800`. */
  const TailWindow := 800

  // ---------------------------------------------------------------------------
  // Character-level substitutions

  /** `[\x00-\x08\x0B\x0C\x0E-\x1F]`: the C0 controls other than tab, newline and carriage return. */
  predicate IsControl(c: char) {
    ('\0' <= c <= '\U{8}') || c == '\U{B}' || c == '\U{C}' || ('\U{E}' <= c <= '\U{1F}')
  }

  /** `re.sub(r"[\x00-\x08\x0B\x0C\x0E-\x1F]+", " ", s)`: no such character is
      left; every character other than a control or a space is kept, in order
      (`ControlToSpaceKeeps`), and each run becomes one space (`ControlRunToSpace`). */
  function ControlToSpace(s: string): (r: string)
    ensures |r| <= |s|
    ensures forall i :: 0 <= i < |r| ==> !IsControl(r[i])
  {
    ReplaceRuns(s, IsControl, ' ')
  }

  /** `s` starts with `<!--`. */
  predicate CommentOpens(s: string) {
    |s| >= 4 && s[0] == '<' && s[1] == '!' && s[2] == '-' && s[3] == '-'
  }

  /** A comment closer `-->` starts at `j`. */
  predicate ClosesAt(s: string, j: nat) {
    j + 3 <= |s| && s[j] == '-' && s[j + 1] == '-' && s[j + 2] == '>'
  }

  /** `.*?-->` from `i` on: where the first closer at or after `i` starts, or -1. */
  function CommentEnd(s: string, i: nat): (j: int)
    ensures j == -1 || (i <= j && ClosesAt(s, j))
    ensures forall k :: i <= k && (j == -1 || k < j) ==> !ClosesAt(s, k)
    decreases |s| - i
  {
    if i + 3 > |s| then -1
    else if ClosesAt(s, i) then i
    else CommentEnd(s, i + 1)
  }

  /** `re.sub(r"<!--.*?-->", "", s, flags=re.S)`: at an opener the shortest comment
      is removed (up to the first "-->" after the opener) and the scan goes on after
      it; an opener with no closer after it is kept. */
  function RemoveComments(s: string): (r: string)
    ensures |r| <= |s|
    decreases |s|
  {
    if s == [] then []
    else if CommentOpens(s) && CommentEnd(s, 4) >= 0 then
      RemoveComments(s[CommentEnd(s, 4) + 3..])
    else [s[0]] + RemoveComments(s[1..])
  }

  /** `s` starts with `<img` in any letter case. */
  predicate ImgOpens(s: string) {
    |s| >= 4 && LowerChar(s[0]) == '<' && LowerChar(s[1]) == 'i'
    && LowerChar(s[2]) == 'm' && LowerChar(s[3]) == 'g'
  }

  /** `[^>]*` from `i` on: where the first '>' at or after `i` is, or `|s|`. */
  function TagEnd(s: string, i: nat): (j: nat)
    requires i <= |s|
    ensures i <= j <= |s|
    ensures forall k :: i <= k < j ==> s[k] != '>'
    ensures j < |s| ==> s[j] == '>'
    decreases |s| - i
  {
    if i == |s| || s[i] == '>' then i else TagEnd(s, i + 1)
  }

  /** `re.sub(r"<img[^>]*>", "", s, flags=re.I)`: an opener in any letter case runs
      to the first '>' after it; an opener with no '>' is kept. */
  function RemoveImgTags(s: string): (r: string)
    ensures |r| <= |s|
    decreases |s|
  {
    if s == [] then []
    else if ImgOpens(s) && TagEnd(s, 4) < |s| then
      RemoveImgTags(s[TagEnd(s, 4) + 1..])
    else [s[0]] + RemoveImgTags(s[1..])
  }

  /** `get_rid_of_img_tags`: "" for "", otherwise every complete `<img …>` tag removed. */
  function GetRidOfImgTags(text: string): (r: string)
    ensures text == "" ==> r == ""
    ensures |r| <= |text|
  {
    if text == "" then "" else RemoveImgTags(text)
  }

  /** Where no comment opens, the first character is kept. */
  lemma CommentsKeepStep(s: string)
    requires s != [] && !CommentOpens(s)
    ensures RemoveComments(s) == [s[0]] + RemoveComments(s[1..])
  {
  }

  /** Where no image tag opens, the first character is kept. */
  lemma ImgKeepStep(s: string)
    requires s != [] && !ImgOpens(s)
    ensures RemoveImgTags(s) == [s[0]] + RemoveImgTags(s[1..])
  {
  }

  /** Text in front of which no comment opens is copied as it is, and what
      follows is filtered as if that text were not there. */
  lemma {:induction false} CommentsPrefixKept(pre: string, t: string)
    requires forall i {:trigger CommentOpens((pre + t)[i..])} :: 0 <= i < |pre| ==> !CommentOpens((pre + t)[i..])
    ensures RemoveComments(pre + t) == pre + RemoveComments(t)
    decreases |pre|
  {
    if pre == [] {
      assert pre + t == t;
    } else {
      var s := pre + t;
      var v := pre[1..];
      assert RemoveComments(v + t) == v + RemoveComments(t) by {
        forall i | 0 <= i < |v|
          ensures !CommentOpens((v + t)[i..])
        {
          assert (v + t)[i..] == s[i + 1..];
        }
        CommentsPrefixKept(v, t);
      }
      assert RemoveComments(s) == [s[0]] + RemoveComments(v + t) by {
        assert s[0..] == s;
        assert s[1..] == v + t;
        CommentsKeepStep(s);
      }
      ConsAppend(pre, RemoveComments(t));
    }
  }

  /** Splitting off the first character of the front part of a concatenation. */
  lemma ConsAppend(pre: string, x: string)
    requires pre != []
    ensures pre + x == [pre[0]] + (pre[1..] + x)
  {
  }

  /** No comment opens anywhere in a text without `<!--`. */
  lemma NoCommentOpens(s: string, i: nat)
    requires i <= |s| && !Occurs("<!--", s)
    ensures !CommentOpens(s[i..])
  {
    if i + 4 <= |s| {
      assert !IsAt(s, "<!--", i);
      assert s[i..i + 4] == [s[i..][0], s[i..][1], s[i..][2], s[i..][3]];
    }
  }

  /** Text in front of which no image tag opens, in any letter case, is copied as
      it is, and what follows is filtered as if that text were not there. */
  lemma {:induction false} ImgPrefixKept(pre: string, t: string)
    requires forall i {:trigger ImgOpens((pre + t)[i..])} :: 0 <= i < |pre| ==> !ImgOpens((pre + t)[i..])
    ensures RemoveImgTags(pre + t) == pre + RemoveImgTags(t)
    decreases |pre|
  {
    if pre == [] {
      assert pre + t == t;
    } else {
      var s := pre + t;
      var v := pre[1..];
      assert RemoveImgTags(v + t) == v + RemoveImgTags(t) by {
        forall i | 0 <= i < |v|
          ensures !ImgOpens((v + t)[i..])
        {
          assert (v + t)[i..] == s[i + 1..];
        }
        ImgPrefixKept(v, t);
      }
      assert RemoveImgTags(s) == [s[0]] + RemoveImgTags(v + t) by {
        assert s[0..] == s;
        assert s[1..] == v + t;
        ImgKeepStep(s);
      }
      ConsAppend(pre, RemoveImgTags(t));
    }
  }

  /** No image tag opens anywhere in a text whose lower-case form has no `<img`. */
  lemma NoImgOpens(s: string, i: nat)
    requires i <= |s| && !Occurs("<img", Lower(s))
    ensures !ImgOpens(s[i..])
  {
    if i + 4 <= |s| {
      assert !IsAt(Lower(s), "<img", i);
      assert Lower(s)[i..i + 4] == [LowerChar(s[i]), LowerChar(s[i + 1]), LowerChar(s[i + 2]), LowerChar(s[i + 3])];
      assert s[i..][0] == s[i] && s[i..][1] == s[i + 1] && s[i..][2] == s[i + 2] && s[i..][3] == s[i + 3];
    }
  }

  /** A text with no comment opener and no image tag opener passes both filters unchanged. */
  lemma MarkupFreeUnchanged(s: string)
    requires !Occurs("<!--", s) && !Occurs("<img", Lower(s))
    ensures GetRidOfImgTags(RemoveComments(s)) == s
  {
    assert s + [] == s;
    forall i | 0 <= i < |s|
      ensures !CommentOpens((s + [])[i..])
    {
      NoCommentOpens(s, i);
    }
    CommentsPrefixKept(s, []);
    forall i | 0 <= i < |s|
      ensures !ImgOpens((s + [])[i..])
    {
      NoImgOpens(s, i);
    }
    ImgPrefixKept(s, []);
  }

  /** A complete comment is removed, up to its first closer, and the text around
      it is kept: `pre` has no opener and `c` no closer. */
  lemma CommentRemoved(pre: string, c: string, post: string)
    requires !Occurs("<!--", pre) && !Occurs("-->", c)
    ensures RemoveComments(pre + "<!--" + c + "-->" + post) == pre + RemoveComments(post)
  {
    var rest := "<!--" + c + "-->" + post;
    var s := pre + rest;
    assert s == pre + "<!--" + c + "-->" + post;
    var n := |pre|;
    assert s[n] == '<';
    forall i | 0 <= i < n
      ensures !CommentOpens((pre + rest)[i..])
    {
      if i + 4 <= n {
        NoCommentOpens(pre, i);
        assert forall j :: 0 <= j < 4 ==> s[i..][j] == pre[i..][j];
      } else {
        assert s[i..][n - i] == s[n];
      }
    }
    CommentsPrefixKept(pre, rest);
    LeadingCommentRemoved(c, post);
  }

  /** A text that starts with a complete comment is filtered as what follows it. */
  lemma LeadingCommentRemoved(c: string, post: string)
    requires !Occurs("-->", c)
    ensures RemoveComments("<!--" + c + "-->" + post) == RemoveComments(post)
  {
    var rest := "<!--" + c + "-->" + post;
    var m := 4 + |c|;
    assert rest[0] == '<' && rest[1] == '!' && rest[2] == '-' && rest[3] == '-';
    assert rest[m] == '-' && rest[m + 1] == '-' && rest[m + 2] == '>';
    assert ClosesAt(rest, m);
    forall q | 4 <= q < m
      ensures !ClosesAt(rest, q)
    {
      if q + 3 <= m {
        assert !IsAt(c, "-->", q - 4);
        assert rest[q] == c[q - 4] && rest[q + 1] == c[q - 3] && rest[q + 2] == c[q - 2];
        assert c[q - 4..q - 1] == [c[q - 4], c[q - 3], c[q - 2]];
      }
    }
    assert CommentEnd(rest, 4) == m;
    CommentsCutStep(rest);
    assert rest[m + 3..] == post;
  }

  /** Where a complete comment opens, the filter goes on after its closer. */
  lemma CommentsCutStep(s: string)
    requires CommentOpens(s) && CommentEnd(s, 4) >= 0
    ensures RemoveComments(s) == RemoveComments(s[CommentEnd(s, 4) + 3..])
  {
    assert s != [];
  }

  /** A complete image tag, its opener in any letter case, is removed up to the
      first '>' and the text around it is kept: `pre` has no opener and the tag
      body `t` no '>'. */
  lemma ImgTagRemoved(pre: string, o: string, t: string, post: string)
    requires Lower(o) == "<img" && !Occurs("<img", Lower(pre))
    requires forall i :: 0 <= i < |t| ==> t[i] != '>'
    ensures GetRidOfImgTags(pre + o + t + ">" + post) == pre + GetRidOfImgTags(post)
  {
    var rest := o + t + ">" + post;
    var s := pre + rest;
    assert s == pre + o + t + ">" + post;
    var n := |pre|;
    assert LowerChar(s[n]) == Lower(o)[0] == '<';
    forall i | 0 <= i < n
      ensures !ImgOpens((pre + rest)[i..])
    {
      if i + 4 <= n {
        NoImgOpens(pre, i);
        assert forall j :: 0 <= j < 4 ==> s[i..][j] == pre[i..][j];
      } else {
        assert s[i..][n - i] == s[n];
      }
    }
    ImgPrefixKept(pre, rest);
    LeadingImgTagRemoved(o, t, post);
  }

  /** A text that starts with a complete image tag is filtered as what follows the tag. */
  lemma LeadingImgTagRemoved(o: string, t: string, post: string)
    requires Lower(o) == "<img"
    requires forall i :: 0 <= i < |t| ==> t[i] != '>'
    ensures RemoveImgTags(o + t + ">" + post) == RemoveImgTags(post)
  {
    var rest := o + t + ">" + post;
    var m := 4 + |t|;
    assert forall j :: 0 <= j < 4 ==> LowerChar(rest[j]) == Lower(o)[j];
    assert forall q :: 4 <= q < m ==> rest[q] == t[q - 4];
    assert rest[m] == '>';
    assert TagEnd(rest, 4) == m;
    ImgCutStep(rest);
    assert rest[m + 1..] == post;
  }

  /** Where a complete image tag opens, the filter goes on after its '>'. */
  lemma ImgCutStep(s: string)
    requires ImgOpens(s) && TagEnd(s, 4) < |s|
    ensures RemoveImgTags(s) == RemoveImgTags(s[TagEnd(s, 4) + 1..])
  {
    assert s != [];
  }

  /** A text with no control character passes the control-character filter unchanged. */
  lemma ControlFreeUnchanged(s: string)
    requires forall i :: 0 <= i < |s| ==> !IsControl(s[i])
    ensures ControlToSpace(s) == s
  {
    ReplaceRunsNone(s, IsControl, ' ');
  }

  /** Every character other than a control character or a space is kept, in order. */
  lemma ControlToSpaceKeeps(s: string)
    ensures Kept(ControlToSpace(s), IsControl, ' ') == Kept(s, IsControl, ' ')
  {
    ReplaceRunsKeeps(s, IsControl, ' ');
  }

  /** A run of control characters becomes exactly one space and the text on
      either side is filtered on its own: "a\x01\x02b" becomes "a b". */
  lemma ControlRunToSpace(pre: string, run: string, post: string)
    requires pre == [] || !IsControl(pre[|pre| - 1])
    requires run != [] && forall k :: 0 <= k < |run| ==> IsControl(run[k])
    requires post == [] || !IsControl(post[0])
    ensures ControlToSpace(pre + run + post) == ControlToSpace(pre) + " " + ControlToSpace(post)
  {
    ReplaceRunsSplit(pre, run, post, IsControl, ' ');
  }

  // ---------------------------------------------------------------------------
  // The tail cut

  /** The cut patterns as written, in their order. Each is lower-cased and searched
      for as a literal string. */
  const CutPatterns: seq<string> := [
    "Credits?:", "Contact:", "Subscribe", "Sign in to", "All rights reserved",
    "Read more", "TL;DR", "Follow us on", "Socials"]

  /** A cut pattern as a list of literal alternatives, any of which it matches. */
  type Pattern = seq<string>

  /** What the code searches for: every pattern, `Credits?:` included, as one literal. */
  const LiteralCutPatterns: seq<Pattern> :=
    [["Credits?:"], ["Contact:"], ["Subscribe"], ["Sign in to"], ["All rights reserved"],
     ["Read more"], ["TL;DR"], ["Follow us on"], ["Socials"]]

  /** What the raw-string pattern `r"Credits?:"` evidently means: "Credit:" or "Credits:". */
  const IntendedCutPatterns: seq<Pattern> :=
    [["Credit:", "Credits:"], ["Contact:"], ["Subscribe"], ["Sign in to"], ["All rights reserved"],
     ["Read more"], ["TL;DR"], ["Follow us on"], ["Socials"]]

  /** The last position of `lt` where a lower-cased alternative occurs, or -1. */
  function LastMatch(lt: string, alts: Pattern): (r: int)
    ensures r == -1 || exists a :: 0 <= a < |alts| && IsAt(lt, Lower(alts[a]), r)
    ensures forall a, q :: 0 <= a < |alts| && r < q ==> !IsAt(lt, Lower(alts[a]), q)
  {
    if alts == [] then -1
    else
      var x := RFind(lt, Lower(alts[0]));
      var y := LastMatch(lt, alts[1..]);
      assert forall a :: 1 <= a < |alts| ==> alts[a] == alts[1..][a - 1];
      if x >= y then x else y
  }

  /** The cut position chosen by pattern `k` of `text`, when it qualifies. */
  predicate Qualifies(text: string, alts: Pattern) {
    var idx := LastMatch(Lower(text), alts);
    idx != -1 && idx > |text| - TailWindow
  }

  /** The loop of the cut from pattern `k` on: the first pattern whose last occurrence
      lies after `len - 800` cuts the text there and ends the loop. */
  function CutFrom(text: string, pats: seq<Pattern>, k: nat): (r: string)
    requires k <= |pats|
    ensures |r| <= |text| && r == text[..|r|]
    ensures |r| > |text| - TailWindow
    ensures r != text ==> exists j, a :: k <= j < |pats| && 0 <= a < |pats[j]| && IsAt(Lower(text), Lower(pats[j][a]), |r|)
    decreases |pats| - k
  {
    if k == |pats| then text
    else if Qualifies(text, pats[k]) then text[..LastMatch(Lower(text), pats[k])]
    else CutFrom(text, pats, k + 1)
  }

  /** The cut with the given patterns: at most one cut, never before the tail window. */
  function CutTailOf(text: string, pats: seq<Pattern>): (r: string)
    ensures |r| <= |text| && r == text[..|r|]
    ensures |r| > |text| - TailWindow
    ensures r != text ==> exists j, a :: 0 <= j < |pats| && 0 <= a < |pats[j]| && IsAt(Lower(text), Lower(pats[j][a]), |r|)
  {
    CutFrom(text, pats, 0)
  }

  /** The first qualifying pattern decides the cut, at its last occurrence. */
  lemma {:induction false} FirstQualifyingPatternCuts(text: string, pats: seq<Pattern>, j: nat)
    requires j < |pats| && Qualifies(text, pats[j])
    requires forall i :: 0 <= i < j ==> !Qualifies(text, pats[i])
    ensures CutTailOf(text, pats) == text[..LastMatch(Lower(text), pats[j])]
  {
    CutFromSkips(text, pats, 0, j);
  }

  lemma {:induction false} CutFromSkips(text: string, pats: seq<Pattern>, k: nat, j: nat)
    requires k <= j <= |pats|
    requires forall i :: k <= i < j ==> !Qualifies(text, pats[i])
    ensures CutFrom(text, pats, k) == CutFrom(text, pats, j)
    decreases j - k
  {
    if k < j {
      assert !Qualifies(text, pats[k]);
      assert CutFrom(text, pats, k) == CutFrom(text, pats, k + 1);
      CutFromSkips(text, pats, k + 1, j);
    }
  }

  /** When no pattern qualifies, nothing is cut. */
  lemma NoQualifyingPatternKeepsText(text: string, pats: seq<Pattern>)
    requires forall i :: 0 <= i < |pats| ==> !Qualifies(text, pats[i])
    ensures CutTailOf(text, pats) == text
  {
    CutFromSkips(text, pats, 0, |pats|);
  }

  /** The `for … break` loop of `sanitize_text` over the patterns. */
  method CutTail(text: string, pats: seq<Pattern>) returns (r: string)
    ensures r == CutTailOf(text, pats)
  {
    r := text;
    var k := 0;
    while k < |pats|
      invariant 0 <= k <= |pats|
      invariant CutFrom(text, pats, k) == CutTailOf(text, pats)
    {
      var idx := LastMatch(Lower(text), pats[k]);
      if idx != -1 && idx > |text| - TailWindow {
        r := text[..idx];
        return;
      }
      k := k + 1;
    }
  }

  // ---------------------------------------------------------------------------
  // The `Credits?:` pattern

  /** A word with a character that does not occur in `s[from..]` does not occur there. */
  lemma AbsentCharAfter(s: string, w: string, k: nat, from: nat)
    requires k < |w| && from <= |s| && w[k] !in s[from..]
    ensures forall q :: from <= q ==> !IsAt(s, w, q)
  {
    forall q | from <= q
      ensures !IsAt(s, w, q)
    {
      if q + |w| <= |s| {
        assert s[q..q + |w|][k] == s[q + k];
        assert s[from..][q + k - from] == s[q + k];
      }
    }
  }

  /** With the patterns as written the credit pattern is inert: in a text without
      a '?' it is never found, so the cut is decided by the other patterns alone. */
  lemma CreditCutMissedAsWritten(t: string)
    requires '?' !in t
    ensures !Qualifies(t, LiteralCutPatterns[0])
    ensures CutTailOf(t, LiteralCutPatterns) == CutFrom(t, LiteralCutPatterns, 1)
  {
    var lt := Lower(t);
    var w := Lower("Credits?:");
    assert w[7] == '?';
    assert lt[0..] == lt;
    forall i | 0 <= i < |lt| ensures lt[i] != '?' {
      assert t[i] != '?';
    }
    AbsentCharAfter(lt, w, 7, 0);
    assert LiteralCutPatterns[0] == ["Credits?:"];
  }

  /** With the pattern read as "Credit:" or "Credits:", a credit inside the tail
      window qualifies, and the text is cut at the last credit or later. */
  lemma CreditCutIntended(t: string, idx: int)
    requires IsAt(Lower(t), "credit:", idx) && idx > |t| - TailWindow
    ensures Qualifies(t, IntendedCutPatterns[0])
    ensures idx <= |CutTailOf(t, IntendedCutPatterns)| < |t|
  {
    var alts := IntendedCutPatterns[0];
    assert alts == ["Credit:", "Credits:"];
    assert Lower(alts[0]) == "credit:";
    var m := LastMatch(Lower(t), alts);
    assert idx <= m;
    FirstQualifyingPatternCuts(t, IntendedCutPatterns, 0);
  }

  // ---------------------------------------------------------------------------
  // sanitize_text

  /** The text after the control, comment, image and `clean_text` steps: the
      processor's result when it is not empty, the filtered text otherwise. */
  function Prepared(text: string, extract: string -> string): string {
    var t := GetRidOfImgTags(RemoveComments(ControlToSpace(text)));
    var cleaned := CleanTextOf(t, extract);
    if cleaned != "" then cleaned else t
  }

  /** `text[:10000]` on a collapsed text without edge spaces: the cut can only
      leave a space at the very end of a text of the maximum length. */
  function Cap(t: string): (r: string)
    requires Collapsed(t) && (t != [] ==> !IsSpace(t[0]) && !IsSpace(t[|t| - 1]))
    ensures |r| <= MaxTextLength && |r| <= |t| && r == t[..|r|]
    ensures |t| <= MaxTextLength ==> r == t
    ensures Collapsed(r)
    ensures r != [] ==> !IsSpace(r[0])
    ensures r != [] && IsSpace(r[|r| - 1]) ==> |r| == MaxTextLength
  {
    if |t| > MaxTextLength then
      CollapsedSlice(t, 0, MaxTextLength);
      t[..MaxTextLength]
    else t
  }

  /** `sanitize_text(text)` as a value, with the cut patterns searched for as
      written: `Credits?:` only as that literal string. */
  function SanitizedOf(text: string, extract: string -> string): (r: string)
    ensures text == "" ==> r == ""
    ensures |r| <= MaxTextLength
    ensures Collapsed(r)
    ensures r != [] ==> !IsSpace(r[0])
    ensures r != [] && IsSpace(r[|r| - 1]) ==> |r| == MaxTextLength
  {
    if text == "" then ""
    else Cap(SqueezeStrip(CutTailOf(Prepared(text, extract), LiteralCutPatterns)))
  }

  /** The first steps of `sanitize_text`. The text processor is built on the
      filtered text and asked to clean it; its result replaces the text only when
      it is not empty. */
  method PrepareText(text: string, extract: string -> string) returns (t: string)
    ensures t == Prepared(text, extract)
  {
    t := ControlToSpace(text);
    t := RemoveComments(t);
    t := GetRidOfImgTags(t);
    var processor := new TextProcessor(t);
    var cleaned := processor.CleanText("", extract);
    if cleaned != "" {
      t := cleaned;
    }
  }

  /** `sanitize_text`. */
  method SanitizeText(text: string, extract: string -> string) returns (r: string)
    ensures r == SanitizedOf(text, extract)
  {
    if text == "" {
      return "";
    }
    var t := PrepareText(text, extract);
    t := CutTail(t, LiteralCutPatterns);
    t := SqueezeStrip(t);
    if |t| > MaxTextLength {
      t := t[..MaxTextLength];
    }
    r := t;
  }
}
