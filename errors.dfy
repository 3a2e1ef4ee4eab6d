/**
 * The parse failure `UnexpectedToken` of lark/common.py: how it is built,
 * `get_context`, which renders the source line around the offending token,
 * and `match_examples`, which labels the failure by replaying known malformed
 * inputs through the parser.
 */
module Errors {
  import opened Wrappers
  import opened Strings
  import opened Tokens
  import opened Scan
  import opened Lines

  /** A line or column of the failure: a number, or `'?'` when the token does not carry one. */
  datatype Coord = At(n: int) | Unknown

  /** `getattr(token, 'line', '?')` and the same for `column`. */
  function CoordOf(attribute: Option<int>): (c: Coord)
    ensures c == Unknown <==> attribute == None
    ensures attribute.Some? ==> c == At(attribute.value)
  {
    match attribute
    case None => Unknown
    case Some(n) => At(n)
  }

  // ---------------------------------------------------------------------------
  // The context shown in the message
  // ---------------------------------------------------------------------------

  /** One element of the sequence being parsed: something with `.value` and `.type`, or a plain character. */
  datatype Element = TokenLike(token: Token) | Plain(c: char)

  /** The `seq` argument: a sliceable sequence (a token list, or text as characters), or something that cannot be sliced. */
  datatype Sequence = Sliceable(items: seq<Element>) | Unsliceable

  /**
   * Which context the message shows: the first five tokens rendered as
   * `value(type)`, the raw slice, or `"<no context>"`.
   * The `%r` text of each form is not part of this model.
   */
  datatype Context = Rendered(tokens: seq<Token>) | Raw(items: seq<Element>) | NoContext

  /** `seq[index:index+5]`. */
  function Window(items: seq<Element>, index: nat): (w: seq<Element>)
    ensures |w| <= 5
    ensures index <= |items| ==> |w| == Min(5, |items| - index)
    ensures forall k :: 0 <= k < |w| ==> index + k < |items| && w[k] == items[index + k]
  {
    Slice(items, index, index + 5)
  }

  /**
   * The three-tier choice of the constructor: render the tokens when every
   * element of the window has `.value` and `.type`; show the raw window exactly
   * when one of them lacks them (`AttributeError`); `"<no context>"` when `seq`
   * cannot be sliced (`TypeError`).
   */
  function ContextOf(sequence: Sequence, index: nat): (c: Context)
    ensures c.NoContext? <==> sequence.Unsliceable?
    ensures c.Rendered? ==>
      sequence.Sliceable? && |c.tokens| <= 5 &&
      forall k :: 0 <= k < |c.tokens| ==>
        index + k < |sequence.items| && sequence.items[index + k] == TokenLike(c.tokens[k])
    ensures c.Raw? ==>
      sequence.Sliceable? && c.items == Window(sequence.items, index) &&
      exists k :: 0 <= k < |c.items| && c.items[k].Plain?
    ensures sequence.Sliceable? && (exists k :: 0 <= k < |Window(sequence.items, index)| && Window(sequence.items, index)[k].Plain?) ==>
      c == Raw(Window(sequence.items, index))
    ensures sequence.Sliceable? && (forall e :: e in Window(sequence.items, index) ==> e.TokenLike?) ==>
      c == Rendered(seq(|Window(sequence.items, index)|, k requires 0 <= k < |Window(sequence.items, index)| =>
                          Window(sequence.items, index)[k].token))
  {
    match sequence
    case Unsliceable => NoContext
    case Sliceable(items) =>
      var w := Window(items, index);
      if forall k :: 0 <= k < |w| ==> w[k].TokenLike? then
        Rendered(seq(|w|, k requires 0 <= k < |w| => w[k].token))
      else
        Raw(w)
  }

  /** Past the end of a sliceable sequence the window is empty, so the context is an empty rendering, not an error. */
  lemma ContextPastEnd(items: seq<Element>, index: nat)
    requires index >= |items|
    ensures ContextOf(Sliceable(items), index) == Rendered([])
  {
    assert Window(items, index) == [];
  }

  /** Text passed as `seq` shows its raw slice whenever that slice is not empty. */
  lemma TextShowsRawSlice(text: string, index: nat)
    requires index < |text|
    ensures var items := seq(|text|, k requires 0 <= k < |text| => Plain(text[k]));
            ContextOf(Sliceable(items), index) == Raw(Window(items, index))
  {
    var items := seq(|text|, k requires 0 <= k < |text| => Plain(text[k]));
    assert Window(items, index)[0] == Plain(text[index]);
  }

  // ---------------------------------------------------------------------------
  // The exception object
  // ---------------------------------------------------------------------------

  /**
   * `UnexpectedToken`. Its fields are set once by the constructor and never
   * changed afterwards.
   */
  class UnexpectedToken {
    const token: Token
    const expected: set<string>
    const line: Coord
    const column: Coord
    const consideredRules: Option<set<string>>
    const state: Option<int>
    /** The context the message was built with. */
    const context: Context

    constructor (token: Token, expected: set<string>, sequence: Sequence, index: nat,
                 consideredRules: Option<set<string>> := None, state: Option<int> := None)
      ensures this.token == token && this.expected == expected
      ensures this.line == CoordOf(token.line) && this.column == CoordOf(token.column)
      ensures this.consideredRules == consideredRules && this.state == state
      ensures this.context == ContextOf(sequence, index)
    {
      this.token := token;
      this.expected := expected;
      this.line := CoordOf(token.line);
      this.column := CoordOf(token.column);
      this.consideredRules := consideredRules;
      this.state := state;
      this.context := ContextOf(sequence, index);
    }

    /**
     * `match_examples(parse_fn, examples)`: replay every malformed input, label by
     * label, and return the label of the first one that fails in this state on
     * this token; failing that, the first truthy label whose input failed in this
     * state; failing that, `None`.
     */
    method MatchExamples(parse: string -> ParseOutcome, catalogue: seq<(string, Examples)>)
      returns (r: Result<Option<string>, MatchFailure>)
      ensures r == MatchSpec(state, token, parse, catalogue)
      ensures !StateTruthy(state) ==> r == Err(NotSupported)
    {
      if !StateTruthy(state) {
        return Err(NotSupported);
      }
      ghost var spec := MatchSpec(state, token, parse, catalogue);
      var candidate: Option<string> := None;
      for i := 0 to |catalogue|
        invariant spec == Run(Steps(catalogue[i..]), state, token, parse, candidate)
      {
        var (key, examples) := catalogue[i];
        ghost var rest := Steps(catalogue[i + 1..]);
        StepsAt(catalogue, i);
        if examples.Text? {
          assert spec == Err(ExampleIsString) by {
            RunCons(Guard(key, true), rest, state, token, parse, candidate);
          }
          return Err(ExampleIsString);
        }
        var items := examples.items;
        assert spec == Run(Replays(key, items[0..]) + rest, state, token, parse, candidate) by {
          GuardPasses(key, items, rest);
          RunCons(Guard(key, false), Replays(key, items[0..]) + rest, state, token, parse, candidate);
        }
        for j := 0 to |items|
          invariant spec == Run(Replays(key, items[j..]) + rest, state, token, parse, candidate)
        {
          ghost var step := Replay(key, items[j]);
          ghost var tail := Replays(key, items[j + 1..]) + rest;
          ReplaysAt(key, items, j, rest);
          var outcome := parse(items[j]);
          if outcome.Raised? {
            assert spec == Err(Propagated) by {
              RunCons(step, tail, state, token, parse, candidate);
            }
            return Err(Propagated);
          }
          if outcome.Unexpected? && outcome.state == state {
            if SameToken(outcome.token, token) {
              assert spec == Ok(Some(key)) by {
                RunCons(step, tail, state, token, parse, candidate);
              }
              return Ok(Some(key));
            } else if !Truthy(candidate) {
              assert spec == Run(tail, state, token, parse, Some(key)) by {
                RunCons(step, tail, state, token, parse, candidate);
              }
              candidate := Some(key);
            } else {
              assert spec == Run(tail, state, token, parse, candidate) by {
                RunCons(step, tail, state, token, parse, candidate);
              }
            }
          } else {
            assert spec == Run(tail, state, token, parse, candidate) by {
              RunCons(step, tail, state, token, parse, candidate);
            }
          }
        }
        assert Replays(key, items[|items|..]) + rest == rest;
      }
      assert catalogue[|catalogue|..] == [];
      return Ok(candidate);
    }

    // -------------------------------------------------------------------------
    // `get_context`
    // -------------------------------------------------------------------------

    /** Where the token stands in `text`: `pos_in_stream`, clipped to the end of the text as slicing does. */
    function At(text: string): (i: nat)
      ensures i <= |text|
    {
      Min(token.posInStream, |text|)
    }

    /**
     * `get_context(text, span)`: the source line around the token's position,
     * then a line that puts a caret under the token's first character.
     * It never fails: the window is clipped at the start and the end of `text`.
     */
    function GetContext(text: string, span: int := 10): (r: string)
      ensures ShowsLine(r, text, BeforeStart(text, token.posInStream, span), At(text),
                        AfterEnd(text, token.posInStream, span))
    {
      RenderedLines(text, token.posInStream, span);
      TwoLines(LineBefore(text, token.posInStream, span), LineAfter(text, token.posInStream, span))
    }

    /**
     * When the token's first character is in the text and is not a newline, and
     * `span` is positive, the first line shows that character and the caret
     * sits in its column.
     */
    lemma CaretUnderToken(text: string, span: int)
      requires token.posInStream < |text| && text[token.posInStream] != '\n' && span > 0
      ensures var r, start, end := GetContext(text, span),
                                   BeforeStart(text, token.posInStream, span), AfterEnd(text, token.posInStream, span);
              var col := token.posInStream - start;
              col < end - start && r[col] == text[token.posInStream] && r[end - start + 1 + col] == '^'
    {
      var start, end := BeforeStart(text, token.posInStream, span), AfterEnd(text, token.posInStream, span);
      assert token.posInStream < end;
    }
  }
}
