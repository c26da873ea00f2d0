/**
 * `_extract_json_block`: pull a `{...}` span out of the model's untrusted reply.
 *
 * The primary rule searches the stripped reply for the pattern
 * `\{[\s\S]*\}\s*$`; the fallback slices the raw reply from its first `{`
 * to its last `}`; otherwise no JSON object is found.
 */
module Extract {
  import opened Wrappers
  import opened Text

  datatype ExtractError = NoJsonObject

  /** The restated primary rule: `s` ends with `}` and contains a `{`. */
  predicate EndsInBraceBlock(s: string) {
    |s| > 0 && s[|s| - 1] == '}' && Find(s, '{') != -1
  }

  /**
   * Reference meaning of the pattern `\{[\s\S]*\}\s*$`: a match of it spans
   * `s[p..e]`, opens with `{`, has a later `}` followed only by whitespace up
   * to `e`, and `$` holds at `e` (the end, or just before a final newline).
   */
  ghost predicate PatternMatch(s: string, p: int, e: int)
    ensures PatternMatch(s, p, e) ==> 0 <= p && p + 2 <= e <= |s|
  {
    0 <= p < e <= |s| && s[p] == '{'
    && (exists q :: p < q < e && s[q] == '}' && forall m :: q < m < e ==> IsSpace(s[m]))
    && (e == |s| || (e == |s| - 1 && s[e] == '\n'))
  }

  ghost predicate HasPatternMatch(s: string) {
    exists p, e :: PatternMatch(s, p, e)
  }

  /** `i` is the first position of `c` in `s`. */
  predicate IsFirstIndex(s: string, c: char, i: int) {
    0 <= i < |s| && s[i] == c && forall k :: 0 <= k < i ==> s[k] != c
  }

  /** `j` is the last position of `c` in `s`. */
  predicate IsLastIndex(s: string, c: char, j: int) {
    0 <= j < |s| && s[j] == c && forall k :: j < k < |s| ==> s[k] != c
  }

  /** The primary rule's span: the stripped reply from its first `{` to its end. */
  function PrimaryBlock(s: string): (block: string)
    requires EndsInBraceBlock(s)
    ensures |block| >= 2 && block[0] == '{' && block[|block| - 1] == '}'
  {
    s[Find(s, '{')..]
  }

  /** The fallback: the raw reply from its first `{` to its last `}`. */
  function FallbackBlock(text: string): (r: Result<string, ExtractError>)
    ensures r.Success? ==> |r.value| >= 2 && r.value[0] == '{' && r.value[|r.value| - 1] == '}'
  {
    var start := Find(text, '{');
    var end := RFind(text, '}');
    if start == -1 || end == -1 || end <= start then Failure(NoJsonObject)
    else Success(text[start..end + 1])
  }

  function ExtractJsonBlock(text: string): (r: Result<string, ExtractError>)
    ensures r.Success? ==> |r.value| >= 2 && r.value[0] == '{' && r.value[|r.value| - 1] == '}'
  {
    var s := Strip(text);
    if EndsInBraceBlock(s) then Success(PrimaryBlock(s)) else FallbackBlock(text)
  }

  /** `Find` and `RFind` return exactly the first and last positions of a character. */
  lemma FindIsFirstIndex(s: string, c: char, i: int)
    requires IsFirstIndex(s, c, i)
    ensures Find(s, c) == i
  {
  }

  lemma RFindIsLastIndex(s: string, c: char, j: int)
    requires IsLastIndex(s, c, j)
    ensures RFind(s, c) == j
  {
  }

  /** In a stripped reply every match of the pattern ends at the last character, a `}`. */
  lemma MatchOfStrippedEndsAtEnd(s: string, p: int, e: int)
    requires IsStripped(s) && PatternMatch(s, p, e)
    ensures e == |s| && s[|s| - 1] == '}'
  {
    NewlineIsSpace();
    assert e == |s|;
    var q :| p < q < e && s[q] == '}' && forall m :: q < m < e ==> IsSpace(s[m]);
    assert q == |s| - 1;
  }

  /**
   * On a stripped reply the pattern `\{[\s\S]*\}\s*$` has a match exactly when
   * the reply ends with `}` and contains a `{`.
   */
  lemma PatternIffEndsInBraceBlock(s: string)
    requires IsStripped(s)
    ensures HasPatternMatch(s) <==> EndsInBraceBlock(s)
  {
    if EndsInBraceBlock(s) {
      var p := Find(s, '{');
      assert PatternMatch(s, p, |s|);
    }
    if HasPatternMatch(s) {
      var p, e :| PatternMatch(s, p, e);
      MatchOfStrippedEndsAtEnd(s, p, e);
      assert s[p] == '{';
    }
  }

  /**
   * When the primary rule applies, the result is the leftmost and longest
   * match of the pattern in the stripped reply: it starts at the stripped
   * reply's first `{` and runs to its end.
   */
  lemma ExtractReturnsLeftmostLongestMatch(text: string)
    requires EndsInBraceBlock(Strip(text))
    ensures var s := Strip(text);
            var r := ExtractJsonBlock(text);
            r.Success? && |r.value| <= |s|
            && var k := |s| - |r.value|;
               r.value == s[k..] && IsFirstIndex(s, '{', k) && PatternMatch(s, k, |s|)
               && forall p, e :: PatternMatch(s, p, e) ==> k <= p && e <= |s|
  {
    var s := Strip(text);
    var k := Find(s, '{');
    assert PatternMatch(s, k, |s|);
  }

  /**
   * A slice `text[a..b]` that ends with `}` and whose first `{` is at `k`,
   * with no `{` before it and no `}` after it in `text`, runs from the
   * first `{` of `text` to its last `}`.
   */
  lemma BracedSliceSpansFirstToLast(text: string, a: nat, b: nat, k: nat)
    requires a < b <= |text| && text[b - 1] == '}'
    requires IsFirstIndex(text[a..b], '{', k)
    requires forall m :: 0 <= m < a ==> text[m] != '{'
    requires forall m :: b <= m < |text| ==> text[m] != '}'
    ensures Find(text, '{') == a + k && RFind(text, '}') == b - 1 && a + k < b - 1
    ensures text[a..b][k..] == text[a + k..b]
  {
    var s := text[a..b];
    assert text[a + k] == s[k];
    forall m | 0 <= m < a + k
      ensures text[m] != '{'
    {
      if a <= m {
        assert text[m] == s[m - a];
      }
    }
    assert IsFirstIndex(text, '{', a + k);
    assert IsLastIndex(text, '}', b - 1);
    FindIsFirstIndex(text, '{', a + k);
    RFindIsLastIndex(text, '}', b - 1);
  }

  /**
   * When the primary rule applies, the stripped reply ends with the last `}`
   * of the raw reply and no `{` precedes it in the raw reply.
   */
  lemma StrippedBracesAreOuterBraces(text: string)
    requires EndsInBraceBlock(Strip(text))
    ensures StripStart(text) < StripStop(text) && text[StripStop(text) - 1] == '}'
    ensures forall m :: 0 <= m < StripStart(text) ==> text[m] != '{'
    ensures forall m :: StripStop(text) <= m < |text| ==> text[m] != '}'
  {
    StripIsSlice(text);
    StripBounds(text);
    BracesAreNotSpace();
    var a, b := StripStart(text), StripStop(text);
    assert text[b - 1] == Strip(text)[b - 1 - a];
    forall m | 0 <= m < a
      ensures text[m] != '{'
    {
      assert IsSpace(text[m]);
    }
    forall m | b <= m < |text|
      ensures text[m] != '}'
    {
      assert IsSpace(text[m]);
    }
  }

  /**
   * Whenever the primary rule applies, its span is the raw reply from its
   * first `{` through its last `}`: exactly what the fallback would pick.
   */
  lemma PrimaryAgreesWithFallback(text: string)
    requires EndsInBraceBlock(Strip(text))
    ensures var i, j := Find(text, '{'), RFind(text, '}');
            0 <= i < j && PrimaryBlock(Strip(text)) == text[i..j + 1]
  {
    var s := Strip(text);
    StripIsSlice(text);
    StrippedBracesAreOuterBraces(text);
    var a, b, k := StripStart(text), StripStop(text), Find(s, '{');
    assert IsFirstIndex(text[a..b], '{', k);
    BracedSliceSpansFirstToLast(text, a, b, k);
  }

  /**
   * The whole extraction, both rules together, returns the raw reply from its
   * first `{` through its last `}`, and fails when that `}` is not after that
   * `{`.
   */
  lemma ExtractSpansFirstOpenToLastClose(text: string, i: int, j: int)
    requires IsFirstIndex(text, '{', i) && IsLastIndex(text, '}', j)
    ensures ExtractJsonBlock(text) == if i < j then Success(text[i..j + 1]) else Failure(NoJsonObject)
  {
    FindIsFirstIndex(text, '{', i);
    RFindIsLastIndex(text, '}', j);
    var s := Strip(text);
    if EndsInBraceBlock(s) {
      PrimaryAgreesWithFallback(text);
      assert ExtractJsonBlock(text) == Success(PrimaryBlock(s));
    } else {
      assert ExtractJsonBlock(text) == FallbackBlock(text);
    }
  }

  /**
   * Extraction fails exactly when the reply has no `{` with a `}` somewhere
   * after it (no `{`, no `}`, or the last `}` not after the first `{`).
   */
  lemma ExtractFailsIff(text: string)
    ensures ExtractJsonBlock(text).Failure?
            <==> !(exists i, j :: 0 <= i < j < |text| && text[i] == '{' && text[j] == '}')
  {
    var i, j := Find(text, '{'), RFind(text, '}');
    if i != -1 && j != -1 {
      ExtractSpansFirstOpenToLastClose(text, i, j);
    } else if EndsInBraceBlock(Strip(text)) {
      PrimaryAgreesWithFallback(text);
    }
  }

  /** A successful extraction is a contiguous piece of the reply. */
  lemma ExtractIsSubstring(text: string)
    requires ExtractJsonBlock(text).Success?
    ensures exists i, j :: 0 <= i <= j <= |text| && text[i..j] == ExtractJsonBlock(text).value
  {
    ExtractFailsIff(text);
    var i, j := Find(text, '{'), RFind(text, '}');
    ExtractSpansFirstOpenToLastClose(text, i, j);
    assert text[i..j + 1] == ExtractJsonBlock(text).value;
  }
}
