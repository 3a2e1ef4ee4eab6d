# lark `common.py` in Dafny

This project models the shared definitions of the lark parsing library (`lark/common.py`):

- **Token patterns.** `Pattern`, `PatternStr` and `PatternRE` are immutable values made of a string and a set of regular-expression flags.
  - Equality and hashing go by subclass, value and flag set.
  - `_get_flags` wraps a regular expression once per flag.
  - `to_regexp` and the widths of a literal pattern are built on top of them.
- **Terminal names and token definitions.**
  - `is_terminal` is Python's `str.isupper`, restricted to ASCII letters.
  - `TokenDef` binds a terminal name to its pattern, with a lexer priority that defaults to 1.
- **The parse failure `UnexpectedToken`.**
  - Its constructor records the token, `'?'` for a missing line or column, and one of three kinds of context.
  - `match_examples` labels the failure. It replays a catalogue of labelled malformed inputs through the parser and compares the failures they raise with this one.
  - `get_context` renders the source line around the token with a caret under it.

Modules:

- `Wrappers`: `Option` and `Result`.
- `Strings`: Python slicing with clipped and negative bounds, `rsplit('\n', 1)[-1]`, `split('\n', 1)[0]` and `c * n`.
- `Patterns`: patterns, `_get_flags` (a loop method proved against the fold `WrapFlags`), `to_regexp` and widths.
- `Terminals`: `is_terminal` and the `TokenDef` class.
- `Tokens`: the lexer token as the errors see it.
- `Scan`: the specification of `match_examples`, and what it implies.
  - The catalogue is flattened into steps, in label-then-input order.
  - Each step gets a verdict.
  - `Run` scans the steps with the candidate label.
- `Lines`: the two lines `get_context` renders, stated as positions in the text.
- `Errors`: the `UnexpectedToken` class.
  - `MatchExamples` is the nested loop with its early returns, proved equal to `MatchSpec`.
  - `GetContext` is proved to render the source stretch between `BeforeStart` and `AfterEnd` with the caret at the token's position.
  - `LineBeforeIsLastLine` and `LineAfterIsFirstLine` show that this stretch is exactly what the source computes with slices and splits.

`match_examples` catches only `UnexpectedToken` (`lark/common.py:54`). Any other exception raised by `parse_fn` ends the call, and the model gives `Err(Propagated)` for it.

Python truthiness is kept where the source relies on it:

- `assert self.state` rejects both a missing state and state `0`.
- `elif not candidate` lets a later label replace an earlier candidate whose label is `""`.

## Model

| member | source | states |
|---|---|---|
| Patterns.NewPatternStr | lark/common.py:90-92 | a literal pattern keeps its value, and its flag set holds exactly the flags given, in any order and with any repeats |
| Patterns.NewPatternRE | lark/common.py:90-92 | the same for a regular-expression pattern |
| Patterns.Eq | lark/common.py:100-101 | `__eq__` (same subclass, same value, same flag set) holds exactly when the two patterns are the same value |
| Patterns.ConstructionIgnoresFlagOrder | lark/common.py:90-101 | two patterns built from one value are equal if and only if their flag lists hold the same flags, for both subclasses |
| Patterns.StrNeverEqualsRE | lark/common.py:100-101 | a literal pattern never equals a regular-expression pattern with the same value and flags |
| Patterns.EqualPatternsHashEqually | lark/common.py:97-101 | equal patterns hash equally, whatever the tuple hash is |
| Patterns.WrapFlag | lark/common.py:105-114 | one wrapping adds `len(f) + 4` characters with the `(?f:...)` syntax and `len(f) + 3` with the `(?f)` prefix |
| Patterns.ScopedWrapping | lark/common.py:105-108 | with the `(?f:...)` syntax the result is the opening groups (last flag outermost), the untouched value, then one `)` per flag |
| Patterns.InlineWrapping | lark/common.py:111-114 | with the prefix syntax the result is the prefixes (last flag first), then the untouched value |
| Patterns.WrapFlagsShape | lark/common.py:105-114 | the length grows by `len(f) + 4` (or `+ 3`) per flag; the value stands contiguous inside the result; no flags leaves the value unchanged |
| Patterns.GetFlags | lark/common.py:103-114 | the loop over an enumeration of the flag set yields the value wrapped once per flag, in that order |
| Patterns.ToRegexp | lark/common.py:116-127 | the escaped literal or the raw regular expression, wrapped once per flag; the length grows by the flags' cost; without flags it is the unwrapped base |
| Patterns.Hash | lark/common.py:98-99 | the hash of `p` is the tuple hash of `(type, value, flags)` of every pattern equal to `p` |
| Patterns.WrapFlags | lark/common.py:105-114 | wrapping in every flag of `order` adds, per flag, its length plus 4 characters (`(?f:...)`) or 3 (`(?f)`) |
| Patterns.MinWidth | lark/common.py:120-122 | `min_width` of a literal is the length of the shortest string it matches |
| Patterns.MaxWidth | lark/common.py:123 | `max_width` of a literal is the length of the longest string it matches |
| Patterns.LiteralWidth | lark/common.py:120-123 | a literal pattern's `min_width` and `max_width` are both its length, whatever its flags |
| Terminals.UpperScan | lark/common.py:10-11 | the scan answers true exactly when an upper-case letter was seen before or occurs in the rest, and no lower-case letter occurs |
| Terminals.IsTerminal | lark/common.py:10-11 | a name is a terminal if and only if it holds an upper-case letter and no lower-case letter |
| Terminals.TerminalNeedsUpperAndNoLower | lark/common.py:10-11 | adding a lower-case letter at either end makes a name a non-terminal; a name without upper-case letters is not a terminal |
| Terminals.TokenDef.constructor | lark/common.py:136-141 | the definition holds the given name, pattern and priority |
| Terminals.DefaultPriority | lark/common.py:137-141 | a definition built without a priority has priority 1 and keeps its name and pattern |
| Errors.CoordOf | lark/common.py:23-24 | the line or column is `'?'` exactly when the token lacks it, and otherwise the token's own number |
| Errors.Window | lark/common.py:29-31 | `seq[index:index+5]` holds at most five elements, exactly `min(5, len - index)` when the index is in range, each the element at its offset |
| Errors.ContextOf | lark/common.py:28-33 | `"<no context>"` exactly when `seq` cannot be sliced; the raw window exactly when some element of the window lacks `.value`/`.type`; otherwise the window's tokens rendered in order |
| Errors.ContextPastEnd | lark/common.py:28-31 | an index past the end gives an empty rendering, not an error |
| Errors.TextShowsRawSlice | lark/common.py:28-31 | text passed as `seq` shows its raw slice whenever that slice is not empty |
| Errors.UnexpectedToken.constructor | lark/common.py:20-33 | the exception keeps the token, the expected set, the considered rules and the state, the `'?'`-defaulted line and column, and the three-tier context |
| Errors.UnexpectedToken.MatchExamples | lark/common.py:40-61 | the nested loop returns exactly `MatchSpec`, token equality being `SameToken`; it fails with `NotSupported` when the state is not truthy |
| Scan.Judge | lark/common.py:49-58 | a step aborts exactly for a string-valued label or an exception other than `UnexpectedToken`; it is exact exactly for a failure in the same state on an equal token, and a same-state match exactly for one on another token |
| Scan.Run | lark/common.py:47-61 | an error comes from a step that aborts; a label other than the incoming candidate is the label of a step that failed in the failure's state |
| Scan.MatchSpec | lark/common.py:45-61 | a failure without a truthy state is refused; the returned label is a label of the catalogue; a string-valued example is reported only when the catalogue holds one |
| Scan.StepsLabels | lark/common.py:48-51 | every step belongs to a label of the catalogue, and a failing check to a label whose value is a string |
| Scan.ExactMatchWins | lark/common.py:48-57 | when the first decisive step is an exact match (same state, same token), its label is returned, whatever same-state matches came before it |
| Scan.FirstAbortWins | lark/common.py:49-54 | when the first decisive step is a string-valued label or another exception from `parse_fn`, the call fails with that error |
| Scan.TruthyCandidateKept | lark/common.py:58-61 | once the candidate is truthy, steps without an exact match or an error leave it unchanged |
| Scan.FirstTruthySameStateWins | lark/common.py:55-61 | without an exact match or an error, the result is the label of the first same-state match whose label is truthy |
| Scan.NoSameStateKeepsCandidate | lark/common.py:47-61 | when no step fails in the failure's state and none aborts, the result is the candidate unchanged (`None` from the start) |
| Scan.UninformativeStepIrrelevant | lark/common.py:51-60 | removing an input that parses, or that fails in another state, from anywhere does not change the result |
| Scan.SuccessfulExampleIrrelevant | lark/common.py:51-61 | removing an input that parses successfully, from under any label at any place in the catalogue, never changes what `match_examples` answers |
| Scan.ExactMatchBeatsEarlierSameState | lark/common.py:48-59 | after any labels that decide nothing, a label whose input fails in the same state on another token followed by a label whose input fails on an equal token returns the second label, whatever follows |
| Strings.SliceBound | lark/common.py:65-68 | a Python slice bound lies within the sequence, and a non-negative bound is only clipped to its length |
| Strings.Slice | lark/common.py:65-68 | with non-negative bounds, `s[i:j]` is the part of `s` between the clipped bounds, at most `j - i` long |
| Strings.AfterLastNewline | lark/common.py:67 | `rsplit('\n', 1)[-1]` holds no newline |
| Strings.BeforeFirstNewline | lark/common.py:68 | `split('\n', 1)[0]` holds no newline |
| Strings.Repeat | lark/common.py:69 | `c * n` is `n` copies of `c` (the caret line's spaces, and the `)` that close scoped flag groups) |
| Lines.BeforeStart | lark/common.py:64-67 | `before` starts at most `min(span, pos)` characters back from the position; the stretch holds no newline; it stops short of that bound only just after a newline |
| Lines.LineBefore | lark/common.py:65-67 | `before` holds no newline, and its length is at most `min(span, pos)` and at most the text's length |
| Lines.LineBeforeIsLastLine | lark/common.py:65-67 | `before` is exactly `text[max(pos - span, 0):pos].rsplit('\n', 1)[-1]` |
| Lines.AfterEnd | lark/common.py:64-68 | `after` reaches at most `span` characters forward within the text; the stretch holds no newline; it stops short of `span` or of the end of the text only at a newline |
| Lines.LineAfter | lark/common.py:66-68 | `after` holds no newline and is at most `span` long |
| Lines.LineAfterIsFirstLine | lark/common.py:66-68 | `after` is exactly `text[pos:pos + span].split('\n', 1)[0]` |
| Lines.TwoLines | lark/common.py:69 | the rendering is `before`, `after`, a newline, a space under each character of `before`, `^` and a newline, character by character |
| Lines.RenderedLines | lark/common.py:63-69 | the rendering of `before` and `after` shows the source from where `before` starts to where `after` ends, with the caret in the column of the position |
| Lines.SliceLines | lark/common.py:69 | two adjacent newline-free stretches of the text render as the source they span, followed by the caret line |
| Errors.UnexpectedToken.At | lark/common.py:64 | the token's position, clipped to the text, lies within the text |
| Errors.UnexpectedToken.GetContext | lark/common.py:63-69 | `get_context` never fails; its first line is the newline-free source from `BeforeStart` to `AfterEnd`; its second line puts the caret under the token's position |
| Errors.UnexpectedToken.CaretUnderToken | lark/common.py:63-69 | for a token inside the text, on a character other than a newline, and a positive span, the first line shows that character and the caret stands in its column |

## Left out

- `PatternRE.min_width` and `max_width` (lines 129-134) are not modelled. They delegate to `get_regexp_width` in `lark/utils`, which wraps Python's own regular-expression parser; `lark/utils.py` is not part of this model.
- Patterns.ToRegexp: `re.escape` is Python's escaping routine and is passed in as the parameter `escape`. Nothing is proved about the escaped text.
- Patterns.Hash: Python's tuple hash is passed in as a parameter. Only "equal patterns hash equally" is stated.
- Patterns.GetFlags: the iteration order of a `frozenset` is unspecified in Python. The order is the parameter `order`, which must list each flag exactly once.
- The `Py36` switch (lines 6 and 103) picks one `_get_flags` at import time. Here it is the parameter `syntax`.
- The `%r`/`repr` text of the message and of the context (lines 29, 34-36), and the `__repr__` methods, are not modelled. Only which kind of context is chosen is modelled; the raw context keeps the window's elements.
- Terminals.IsTerminal: `str.isupper` is modelled for ASCII letters only. Other cased Unicode characters count as uncased here.
- Terminals.TokenDef.constructor: the source asserts that `pattern` is a `Pattern`. The parameter's type makes that assertion always hold here.
- `LexerConf`, `ParserConf`, `GrammarError` and `ParseError` hold no behaviour and are not modelled. `UnexpectedToken` is a class of its own, not a subclass.
- The parser behind `parse_fn` is a total function from input to outcome: parsed, `UnexpectedToken` with a state and token, or any other exception.
- `lark/lexer.py` is not part of this model. The token is a value with `type`, `value`, `pos_in_stream` and optional `line` and `column`. Token `==` is `Tokens.SameToken`: the same type and the same text, whatever the position, as lark's `Token` compares.
- Errors.UnexpectedToken.constructor: the message text is not stored, and `super().__init__` (Python's exception machinery) is not modelled.
- The `seq` argument is a sequence of token-like elements and plain characters, or something that cannot be sliced. Other element types, and a slice that raises something else, are not modelled.
- A `str` example (line 49) is recognised by the `Examples.Text` case. The source's `STRING_TYPE` also covers Python 2 `unicode`; the model has one string type.
- Errors.UnexpectedToken.GetContext: the position is a natural number, as `pos_in_stream` is for a lexer token. A negative position is not modelled.
