/**
 * Token patterns: `Pattern`, `PatternStr` and `PatternRE` of lark/common.py.
 * A pattern is an immutable value (a literal string or a regular expression
 * source) together with the set of its regular-expression flags.
 */
module Patterns {
  import opened Strings

  /**
   * The two subclasses of `Pattern`. `flags` is the `frozenset` built from the
   * constructor's argument, so duplicated or reordered flags give the same value,
   * and Dafny's structural equality is exactly the source's `__eq__`.
   */
  datatype Pattern =
    | PatternStr(value: string, flags: set<string>)
    | PatternRE(value: string, flags: set<string>)

  /** `type(self)`: which subclass a pattern belongs to. */
  datatype Kind = Str | RE

  function KindOf(p: Pattern): Kind
  {
    if p.PatternStr? then Str else RE
  }

  /** `frozenset(flags)`. */
  function FlagSet(flags: seq<string>): (s: set<string>)
    ensures forall f :: f in s <==> f in flags
  {
    set f | f in flags
  }

  /** `PatternStr(value, flags)`, the flags given in any order and possibly repeated. */
  function NewPatternStr(value: string, flags: seq<string> := []): (p: Pattern)
    ensures p.PatternStr? && p.value == value
    ensures forall f :: f in p.flags <==> f in flags
  {
    PatternStr(value, FlagSet(flags))
  }

  /** `PatternRE(value, flags)`. */
  function NewPatternRE(value: string, flags: seq<string> := []): (p: Pattern)
    ensures p.PatternRE? && p.value == value
    ensures forall f :: f in p.flags <==> f in flags
  {
    PatternRE(value, FlagSet(flags))
  }

  /** `__eq__`: same subclass, same value and same flag set; this is equality of pattern values. */
  function Eq(p: Pattern, other: Pattern): (r: bool)
    ensures r <==> p == other
  {
    KindOf(p) == KindOf(other) && p.value == other.value && p.flags == other.flags
  }

  /**
   * `__hash__`: Python's hash of the tuple `(type(self), value, flags)`.
   * Python's tuple hash is not part of this model and is passed in. The hash is
   * that of the tuple of every pattern equal to `p`.
   */
  function Hash(p: Pattern, hashKey: ((Kind, string, set<string>)) -> int): (h: int)
    ensures forall q :: Eq(p, q) ==> h == hashKey((KindOf(q), q.value, q.flags))
  {
    hashKey((KindOf(p), p.value, p.flags))
  }

  /** Patterns built from the same value are equal exactly when their flag lists hold the same flags. */
  lemma ConstructionIgnoresFlagOrder(value: string, flags1: seq<string>, flags2: seq<string>)
    ensures NewPatternStr(value, flags1) == NewPatternStr(value, flags2) <==> (forall f :: f in flags1 <==> f in flags2)
    ensures NewPatternRE(value, flags1) == NewPatternRE(value, flags2) <==> (forall f :: f in flags1 <==> f in flags2)
  {
    if forall f :: f in flags1 <==> f in flags2 {
      assert FlagSet(flags1) == FlagSet(flags2);
    }
  }

  /** A literal pattern never equals a regular-expression pattern, even with the same value and flags. */
  lemma StrNeverEqualsRE(value: string, flags: seq<string>)
    ensures !Eq(NewPatternStr(value, flags), NewPatternRE(value, flags))
  {
  }

  /** Equal patterns hash equally, whatever hash the tuple gets. */
  lemma EqualPatternsHashEqually(p: Pattern, q: Pattern, hashKey: ((Kind, string, set<string>)) -> int)
    requires Eq(p, q)
    ensures Hash(p, hashKey) == Hash(q, hashKey)
  {
  }

  // ---------------------------------------------------------------------------
  // Flags embedded in the regular expression (`_get_flags`)
  // ---------------------------------------------------------------------------

  /**
   * How a flag is written into a regular expression: Python 3.6 and later use the
   * scoped group `(?f:...)`; earlier versions the global prefix `(?f)`.
   * The source picks one at import time (`Py36`); here it is a parameter.
   */
  datatype FlagSyntax = Scoped | Inline

  /** One iteration of `_get_flags`: wrap `value` in flag `f`. */
  function WrapFlag(value: string, f: string, syntax: FlagSyntax): (r: string)
    ensures |r| == |value| + |f| + (if syntax == Scoped then 4 else 3)
  {
    match syntax
    case Scoped => "(?" + f + ":" + value + ")"
    case Inline => "(?" + f + ")" + value
  }

  /**
   * `value` after wrapping it in each flag of `order` in turn, the first flag
   * innermost: every flag adds its own length plus the four (or three) characters
   * of its group.
   */
  function WrapFlags(value: string, order: seq<string>, syntax: FlagSyntax): (r: string)
    ensures |r| == |value| + FlagCost(order, if syntax == Scoped then 4 else 3)
    decreases |order|
  {
    if order == [] then value
    else WrapFlag(WrapFlags(value, order[..|order| - 1], syntax), order[|order| - 1], syntax)
  }

  /** `order` lists each flag of `flags` exactly once: one iteration order of the frozenset. */
  predicate IsEnumeration(order: seq<string>, flags: set<string>)
  {
    (forall f :: f in order ==> f in flags) &&
    (forall f :: f in flags ==> f in order) &&
    (forall i, j :: 0 <= i < j < |order| ==> order[i] != order[j])
  }

  /** Sum over the flags of `|f| + extra`: what each flag adds to the regular expression. */
  function FlagCost(order: seq<string>, extra: nat): nat
    decreases |order|
  {
    if order == [] then 0 else FlagCost(order[..|order| - 1], extra) + |order[|order| - 1]| + extra
  }

  /** The opening groups `(?f:` that scoped wrapping puts before the value, the last flag outermost. */
  function Openers(order: seq<string>): string
    decreases |order|
  {
    if order == [] then "" else "(?" + order[|order| - 1] + ":" + Openers(order[..|order| - 1])
  }

  /** The prefixes `(?f)` that inline wrapping puts before the value, the last flag first. */
  function Prefixes(order: seq<string>): string
    decreases |order|
  {
    if order == [] then "" else "(?" + order[|order| - 1] + ")" + Prefixes(order[..|order| - 1])
  }

  lemma {:induction false} OpenersLength(order: seq<string>)
    ensures |Openers(order)| == FlagCost(order, 3)
    decreases |order|
  {
    if order != [] {
      OpenersLength(order[..|order| - 1]);
    }
  }

  lemma {:induction false} PrefixesLength(order: seq<string>)
    ensures |Prefixes(order)| == FlagCost(order, 3)
    decreases |order|
  {
    if order != [] {
      PrefixesLength(order[..|order| - 1]);
    }
  }

  /** With the scoped syntax the result is the opening groups, the untouched value, and one `)` per flag. */
  lemma {:induction false} ScopedWrapping(value: string, order: seq<string>)
    ensures WrapFlags(value, order, Scoped) == Openers(order) + value + Repeat(')', |order|)
    decreases |order|
  {
    if order != [] {
      var init, f := order[..|order| - 1], order[|order| - 1];
      ScopedWrapping(value, init);
      assert Repeat(')', |init|) + ")" == Repeat(')', |order|);
    }
  }

  /** With the inline syntax the result is the flag prefixes followed by the untouched value. */
  lemma {:induction false} InlineWrapping(value: string, order: seq<string>)
    ensures WrapFlags(value, order, Inline) == Prefixes(order) + value
    decreases |order|
  {
    if order != [] {
      InlineWrapping(value, order[..|order| - 1]);
    }
  }

  /**
   * Each flag wraps the value once: the result grows by `|f| + 4` per flag
   * (`|f| + 3` with the inline syntax), and the value itself stands unchanged
   * and contiguous inside it, after `FlagCost(order, 3)` characters.
   */
  lemma WrapFlagsShape(value: string, order: seq<string>, syntax: FlagSyntax)
    ensures |WrapFlags(value, order, syntax)| == |value| + FlagCost(order, if syntax == Scoped then 4 else 3)
    ensures FlagCost(order, 3) + |value| <= |WrapFlags(value, order, syntax)|
    ensures WrapFlags(value, order, syntax)[FlagCost(order, 3)..FlagCost(order, 3) + |value|] == value
    ensures order == [] ==> WrapFlags(value, order, syntax) == value
  {
    match syntax
    case Scoped =>
      ScopedWrapping(value, order);
      OpenersLength(order);
    case Inline =>
      InlineWrapping(value, order);
      PrefixesLength(order);
  }

  /** `Pattern._get_flags(value)`: wrap `value` once per flag, in the set's iteration order `order`. */
  method GetFlags(p: Pattern, value: string, order: seq<string>, syntax: FlagSyntax) returns (r: string)
    requires IsEnumeration(order, p.flags)
    ensures r == WrapFlags(value, order, syntax)
  {
    r := value;
    for i := 0 to |order|
      invariant r == WrapFlags(value, order[..i], syntax)
    {
      assert order[..i + 1][..i] == order[..i];
      r := WrapFlag(r, order[i], syntax);
    }
    assert order[..|order|] == order;
  }

  /** The text the pattern matches literally before its flags are applied: `re.escape(value)` or `value`. */
  function BaseRegexp(p: Pattern, escape: string -> string): string
  {
    match p
    case PatternStr(value, _) => escape(value)
    case PatternRE(value, _) => value
  }

  /**
   * `PatternStr.to_regexp` and `PatternRE.to_regexp`. `re.escape` is not part of
   * this model and is passed in as `escape`.
   */
  method ToRegexp(p: Pattern, order: seq<string>, syntax: FlagSyntax, escape: string -> string) returns (r: string)
    requires IsEnumeration(order, p.flags)
    ensures r == WrapFlags(BaseRegexp(p, escape), order, syntax)
    ensures |r| == |BaseRegexp(p, escape)| + FlagCost(order, if syntax == Scoped then 4 else 3)
    ensures p.flags == {} ==> r == BaseRegexp(p, escape)
  {
    r := GetFlags(p, BaseRegexp(p, escape), order, syntax);
    WrapFlagsShape(BaseRegexp(p, escape), order, syntax);
    assert order != [] ==> order[0] in p.flags;
  }

  // ---------------------------------------------------------------------------
  // Widths of a literal pattern
  // ---------------------------------------------------------------------------

  /**
   * The strings a literal pattern matches: its own text. Flags such as
   * case-insensitivity change which characters match, never how many.
   */
  predicate MatchesLiteral(p: Pattern, s: string)
    requires p.PatternStr?
  {
    s == p.value
  }

  /** `PatternStr.min_width`: the length of the shortest string the pattern matches. */
  function MinWidth(p: Pattern): (w: nat)
    requires p.PatternStr?
    ensures exists s :: MatchesLiteral(p, s) && |s| == w
    ensures forall s :: MatchesLiteral(p, s) ==> w <= |s|
  {
    assert MatchesLiteral(p, p.value);
    |p.value|
  }

  /** `PatternStr.max_width`, the same property as `min_width`: the length of the longest string the pattern matches. */
  function MaxWidth(p: Pattern): (w: nat)
    requires p.PatternStr?
    ensures exists s :: MatchesLiteral(p, s) && |s| == w
    ensures forall s :: MatchesLiteral(p, s) ==> |s| <= w
  {
    MinWidth(p)
  }

  /** A literal matches exactly its own length, whatever its flags. */
  lemma LiteralWidth(value: string, flags1: set<string>, flags2: set<string>)
    ensures MinWidth(PatternStr(value, flags1)) == MaxWidth(PatternStr(value, flags2)) == |value|
  {
  }
}
