/** The lexer token as the error classes of lark/common.py see it. */
module Tokens {
  import opened Wrappers

  /**
   * A lexer token: its terminal name (`type`), the matched text (`value`), its
   * offset in the input, and a line and column that may be missing.
   */
  datatype Token = Token(kind: string, value: string, posInStream: nat, line: Option<int>, column: Option<int>)

  /**
   * `==` between two tokens: the same type and the same text. Where a token
   * stands in the input (offset, line, column) plays no part.
   */
  predicate SameToken(a: Token, b: Token)
  {
    a.kind == b.kind && a.value == b.value
  }
}
