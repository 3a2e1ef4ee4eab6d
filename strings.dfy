/**
 * Python's sequence slicing, repetition and the two newline splits used by
 * `UnexpectedToken.get_context`, stated on Dafny sequences.
 */
module Strings {

  function Min(a: int, b: int): int { if a <= b then a else b }

  function Max(a: int, b: int): int { if a <= b then b else a }

  /** One bound of a Python slice: a negative bound counts from the end, then it is clipped to [0, n]. */
  function SliceBound(i: int, n: nat): (b: nat)
    ensures b <= n
    ensures 0 <= i ==> b == Min(i, n)
  {
    if i < 0 then (if i + n < 0 then 0 else i + n)
    else if i > n then n
    else i
  }

  /** `s[i:j]` with Python's semantics: it never fails, whatever the bounds. */
  function Slice<T>(s: seq<T>, i: int, j: int): (r: seq<T>)
    ensures 0 <= i && 0 <= j ==> |r| <= Max(j - i, 0)
    // with non-negative bounds, the piece of `s` between the clipped bounds
    ensures 0 <= i && 0 <= j ==> r == s[Min(i, |s|)..Max(Min(i, |s|), Min(j, |s|))]
  {
    var lo, hi := SliceBound(i, |s|), SliceBound(j, |s|);
    if lo < hi then s[lo..hi] else []
  }

  /** `s` holds no line break. */
  predicate NoNewline(s: string)
  {
    forall i :: 0 <= i < |s| ==> s[i] != '\n'
  }

  /** Where the last line of `s` starts: just after its last newline, or 0 when it has none. */
  function LastLineStart(s: string): (k: nat)
    ensures k <= |s|
    ensures forall i :: k <= i < |s| ==> s[i] != '\n'
    ensures k > 0 ==> s[k - 1] == '\n'
    decreases |s|
  {
    if s == [] then 0
    else if s[|s| - 1] == '\n' then |s|
    else LastLineStart(s[..|s| - 1])
  }

  /** Where the first line of `s` ends: at its first newline, or at `|s|` when it has none. */
  function FirstLineEnd(s: string): (k: nat)
    ensures k <= |s|
    ensures forall i :: 0 <= i < k ==> s[i] != '\n'
    ensures k < |s| ==> s[k] == '\n'
    decreases |s|
  {
    if s == [] then 0
    else if s[0] == '\n' then 0
    else 1 + FirstLineEnd(s[1..])
  }

  /**
   * `s.rsplit('\n', 1)[-1]`: the longest newline-free suffix of `s`, i.e. the
   * whole of `s` when it holds no newline and otherwise what follows its last one.
   */
  function AfterLastNewline(s: string): (r: string)
    ensures NoNewline(r)
  {
    s[LastLineStart(s)..]
  }

  /**
   * `s.split('\n', 1)[0]`: the longest newline-free prefix of `s`, i.e. the
   * whole of `s` when it holds no newline and otherwise what precedes its first one.
   */
  function BeforeFirstNewline(s: string): (r: string)
    ensures NoNewline(r)
  {
    s[..FirstLineEnd(s)]
  }

  /** `c * n`: the character `c`, `n` times. */
  function Repeat(c: char, n: nat): (r: string)
    ensures |r| == n
    ensures forall k :: 0 <= k < n ==> r[k] == c
  {
    seq(n, _ => c)
  }
}
