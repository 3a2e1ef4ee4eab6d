/** Terminal names and token definitions: `is_terminal` and `TokenDef` of lark/common.py. */
module Terminals {
  import opened Patterns

  predicate IsUpperAscii(c: char) { 'A' <= c <= 'Z' }

  predicate IsLowerAscii(c: char) { 'a' <= c <= 'z' }

  /**
   * `str.isupper()` over the rest of `s`, `seenUpper` telling whether an
   * upper-case letter came before: a lower-case letter anywhere answers false,
   * otherwise the answer is whether some upper-case letter was seen.
   */
  function UpperScan(s: string, seenUpper: bool): (r: bool)
    ensures r <==> (seenUpper || exists i :: 0 <= i < |s| && IsUpperAscii(s[i]))
                   && (forall i :: 0 <= i < |s| ==> !IsLowerAscii(s[i]))
    decreases |s|
  {
    if s == [] then seenUpper
    else if IsLowerAscii(s[0]) then false
    else
      var r := UpperScan(s[1..], seenUpper || IsUpperAscii(s[0]));
      assert forall i :: 1 <= i < |s| ==> s[i] == s[1..][i - 1];
      r
  }

  /**
   * `is_terminal(sym)`, i.e. `sym.isupper()`: the name holds at least one cased
   * character and none of its cased characters is lower-case. Digits, `_` and
   * other uncased characters do not matter, so `"_NL"` and `"NUMBER2"` are
   * terminals while `""`, `"_"` and `"expr"` are not.
   */
  function IsTerminal(sym: string): (r: bool)
    ensures r <==> (exists i :: 0 <= i < |sym| && IsUpperAscii(sym[i]))
                   && (forall i :: 0 <= i < |sym| ==> !IsLowerAscii(sym[i]))
  {
    UpperScan(sym, false)
  }

  /** A name without any letter is not a terminal, and adding a lower-case letter to any name makes it a non-terminal. */
  lemma TerminalNeedsUpperAndNoLower(sym: string, c: char)
    requires IsLowerAscii(c)
    ensures !IsTerminal(sym + [c]) && !IsTerminal([c] + sym)
    ensures (forall i :: 0 <= i < |sym| ==> !IsUpperAscii(sym[i])) ==> !IsTerminal(sym)
  {
    assert (sym + [c])[|sym|] == c;
    assert ([c] + sym)[0] == c;
  }

  /** `TokenDef`: a terminal name bound to its pattern, with a lexer priority (1 unless given). */
  class TokenDef {
    const name: string
    const pattern: Pattern
    const priority: int

    /**
     * The source asserts that `pattern` is a `Pattern`; here the parameter's
     * type guarantees it.
     */
    constructor (name: string, pattern: Pattern, priority: int := 1)
      ensures this.name == name && this.pattern == pattern && this.priority == priority
    {
      this.name := name;
      this.pattern := pattern;
      this.priority := priority;
    }
  }

  /** A token definition built without a priority gets priority 1, and keeps its pattern as given. */
  method DefaultPriority(name: string, pattern: Pattern) returns (t: TokenDef)
    ensures t.priority == 1 && t.pattern == pattern && t.name == name
  {
    t := new TokenDef(name, pattern);
  }
}
