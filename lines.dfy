/**
 * The two lines that `UnexpectedToken.get_context` of lark/common.py renders:
 * the newline-free stretch of source around a position, and a caret under it.
 */
module Lines {
  import opened Strings

  /** The last line of `text[lo..hi]` starts just after its last newline, or at `lo` when it has none. */
  lemma LastLineOf(text: string, lo: nat, hi: nat)
    requires lo <= hi <= |text|
    ensures var k := lo + LastLineStart(text[lo..hi]);
            k <= hi && (forall i :: k <= i < hi ==> text[i] != '\n') && (k > lo ==> text[k - 1] == '\n')
  {
    var window := text[lo..hi];
    var k := LastLineStart(window);
    assert forall i :: k <= i < |window| ==> window[i] == text[lo + i];
    assert k > 0 ==> window[k - 1] == text[lo + k - 1];
  }

  /**
   * Where `before` starts in `text`: `before` is the last line of
   * `text[max(pos - span, 0):pos]`, whose bounds are both non-negative and so
   * are only clipped to the text. It reaches back at most `span` characters, and
   * stops short of that only just after a newline.
   */
  function BeforeStart(text: string, pos: nat, span: int): (k: nat)
    ensures k <= Min(pos, |text|)
    ensures forall i :: k <= i < Min(pos, |text|) ==> text[i] != '\n'
    ensures 0 <= span ==> Min(pos, |text|) - k <= Min(span, pos)
    ensures 0 <= span && pos <= |text| && pos - k < Min(span, pos) ==> text[k - 1] == '\n'
  {
    var lo, at := Min(Max(pos - span, 0), |text|), Min(pos, |text|);
    if lo < at then
      LastLineOf(text, lo, at);
      lo + LastLineStart(text[lo..at])
    else at
  }

  /** `before`: the stretch of `text` from `BeforeStart` up to `pos` (clipped to the text). */
  function LineBefore(text: string, pos: nat, span: int): (b: string)
    ensures NoNewline(b)
    ensures |b| <= Min(pos, |text|)
    ensures 0 <= span ==> |b| <= Min(span, pos)
  {
    text[BeforeStart(text, pos, span)..Min(pos, |text|)]
  }

  /** `before` is what the source computes: `text[max(pos - span, 0):pos].rsplit('\n', 1)[-1]`. */
  lemma LineBeforeIsLastLine(text: string, pos: nat, span: int)
    ensures LineBefore(text, pos, span) == AfterLastNewline(Slice(text, Max(pos - span, 0), pos))
  {
    var lo, at := Min(Max(pos - span, 0), |text|), Min(pos, |text|);
    var window := Slice(text, Max(pos - span, 0), pos);
    if lo < at {
      assert window == text[lo..at];
      SuffixOfSlice(text, lo, at, LastLineStart(window));
    } else {
      assert |window| == 0;
    }
  }

  /** The first line of `text[lo..hi]` ends at its first newline, or at `hi` when it has none. */
  lemma FirstLineOf(text: string, lo: nat, hi: nat)
    requires lo <= hi <= |text|
    ensures var k := lo + FirstLineEnd(text[lo..hi]);
            k <= hi && (forall i :: lo <= i < k ==> text[i] != '\n') && (k < hi ==> text[k] == '\n')
  {
    var window := text[lo..hi];
    var k := FirstLineEnd(window);
    assert forall i :: 0 <= i < k ==> window[i] == text[lo + i];
    assert k < |window| ==> window[k] == text[lo + k];
  }

  /**
   * Where `after` ends in `text`: `after` is the first line of
   * `text[pos:pos + span]`, whose start is clipped to the text and whose end,
   * when negative, counts from the end of the text. It reaches forward at most
   * `span` characters, and stops short of that, or of the end of the text, only
   * at a newline.
   */
  function AfterEnd(text: string, pos: nat, span: int): (k: nat)
    ensures Min(pos, |text|) <= k <= |text|
    ensures forall i :: Min(pos, |text|) <= i < k ==> text[i] != '\n'
    ensures 0 <= span ==> k - Min(pos, |text|) <= span
    ensures 0 <= span && k - Min(pos, |text|) < Min(span, |text| - Min(pos, |text|)) ==> text[k] == '\n'
  {
    var at, hi := Min(pos, |text|), SliceBound(pos + span, |text|);
    if at < hi then
      FirstLineOf(text, at, hi);
      at + FirstLineEnd(text[at..hi])
    else at
  }

  /** `after`: the stretch of `text` from `pos` (clipped to the text) up to `AfterEnd`. */
  function LineAfter(text: string, pos: nat, span: int): (a: string)
    ensures NoNewline(a)
    ensures Min(pos, |text|) + |a| <= |text|
    ensures 0 <= span ==> |a| <= span
  {
    text[Min(pos, |text|)..AfterEnd(text, pos, span)]
  }

  /** `after` is what the source computes: `text[pos:pos + span].split('\n', 1)[0]`. */
  lemma LineAfterIsFirstLine(text: string, pos: nat, span: int)
    ensures LineAfter(text, pos, span) == BeforeFirstNewline(Slice(text, pos, pos + span))
  {
    var at, hi := Min(pos, |text|), SliceBound(pos + span, |text|);
    var window := Slice(text, pos, pos + span);
    if at < hi {
      assert window == text[at..hi];
      PrefixOfSlice(text, at, hi, FirstLineEnd(window));
    } else {
      assert |window| == 0;
    }
  }

  lemma SuffixOfSlice<T>(s: seq<T>, lo: nat, hi: nat, k: nat)
    requires lo <= hi <= |s| && k <= hi - lo
    ensures s[lo..hi][k..] == s[lo + k..hi]
  {
  }

  lemma PrefixOfSlice<T>(s: seq<T>, lo: nat, hi: nat, k: nat)
    requires lo <= hi <= |s| && k <= hi - lo
    ensures s[lo..hi][..k] == s[lo..lo + k]
  {
  }

  /**
   * `before + after + '\n' + ' ' * len(before) + '^\n'`: the first line is
   * `before` then `after`; the second, a space under each character of `before`,
   * then the caret.
   */
  function TwoLines(before: string, after: string): (r: string)
    ensures var w := |before| + |after|;
            |r| == w + |before| + 3
            && (forall i :: 0 <= i < |before| ==> r[i] == before[i])
            && (forall i :: 0 <= i < |after| ==> r[|before| + i] == after[i])
            && r[w] == '\n'
            && (forall i :: w < i <= w + |before| ==> r[i] == ' ')
            && r[w + |before| + 1] == '^' && r[w + |before| + 2] == '\n'
  {
    before + after + "\n" + Repeat(' ', |before|) + "^\n"
  }

  /**
   * `r` is the two-line rendering of the source line `text[start..end]` with the
   * caret in column `at - start`: that source, which holds no newline, a newline,
   * a space under each character of `text[start..at]`, `^` and a newline.
   */
  predicate ShowsLine(r: string, text: string, start: nat, at: nat, end: nat)
  {
    var w, col := end - start, at - start;
    start <= at <= end <= |text|
    && |r| == w + col + 3
    && (forall i :: 0 <= i < w ==> r[i] == text[start + i] && r[i] != '\n')
    && r[w] == '\n'
    && (forall i :: w < i <= w + col ==> r[i] == ' ')
    && r[w + col + 1] == '^' && r[w + col + 2] == '\n'
  }

  /**
   * The two lines rendered for position `pos`: first the source from where
   * `before` starts to where `after` ends, which holds no newline; then a space
   * under each character of `before`, and the caret under the character at `pos`.
   */
  lemma RenderedLines(text: string, pos: nat, span: int)
    ensures ShowsLine(TwoLines(LineBefore(text, pos, span), LineAfter(text, pos, span)), text,
                      BeforeStart(text, pos, span), Min(pos, |text|), AfterEnd(text, pos, span))
  {
    SliceLines(text, BeforeStart(text, pos, span), Min(pos, |text|), AfterEnd(text, pos, span));
  }

  /**
   * For `before` and `after` adjacent in `text` and free of newlines, `TwoLines`
   * shows the source they span, with the caret where `after` starts.
   */
  lemma SliceLines(text: string, start: nat, at: nat, end: nat)
    requires start <= at <= end <= |text|
    requires forall i :: start <= i < at ==> text[i] != '\n'
    requires forall i :: at <= i < end ==> text[i] != '\n'
    ensures ShowsLine(TwoLines(text[start..at], text[at..end]), text, start, at, end)
  {
    var b, a := text[start..at], text[at..end];
    var r := TwoLines(b, a);
    forall i | 0 <= i < end - start
      ensures r[i] == text[start + i] && r[i] != '\n'
    {
      if i < |b| {
        assert r[i] == b[i];
      } else {
        assert r[|b| + (i - |b|)] == a[i - |b|];
      }
    }
  }
}
