/**
 * `UnexpectedToken.match_examples` of lark/common.py as a specification: the
 * labelled catalogue of malformed inputs flattened into a sequence of steps,
 * the verdict of each step, and the scan that picks the label.
 */
module Scan {
  import opened Wrappers
  import opened Tokens

  /** What `parse_fn(malformed)` does: returns, raises `UnexpectedToken`, or raises anything else. */
  datatype ParseOutcome = Parsed | Unexpected(state: Option<int>, token: Token) | Raised

  /**
   * The value stored under a label: a collection of malformed inputs, or, by
   * mistake, a single string (which the source refuses with an assertion).
   */
  datatype Examples = Malformed(items: seq<string>) | Text(s: string)

  /** Why `match_examples` ends without a result. */
  datatype MatchFailure =
    | NotSupported      // `assert self.state`: the failure has no (truthy) parser state
    | ExampleIsString   // `assert not isinstance(example, STRING_TYPE)`
    | Propagated        // `parse_fn` raised something other than `UnexpectedToken`

  /** One step of the scan, in label-then-example order: the check on a label's value, or one replay. */
  datatype Step = Guard(key: string, isString: bool) | Replay(key: string, malformed: string)

  /** Python truthiness of the candidate label: `None` and `""` are false. */
  predicate Truthy(candidate: Option<string>)
  {
    candidate.Some? && candidate.value != ""
  }

  /** Python truthiness of the parser state, an automaton state number: `None` and `0` are false. */
  predicate StateTruthy(state: Option<int>)
  {
    state.Some? && state.value != 0
  }

  function Replays(key: string, items: seq<string>): (r: seq<Step>)
    ensures |r| == |items|
    ensures forall k :: 0 <= k < |r| ==> r[k] == Replay(key, items[k])
  {
    seq(|items|, k requires 0 <= k < |items| => Replay(key, items[k]))
  }

  /** The steps for one label: its check, then (if it passes) one replay per malformed input. */
  function LabelSteps(key: string, examples: Examples): (r: seq<Step>)
    ensures forall k :: 0 <= k < |r| ==> r[k].key == key
    ensures forall k :: 0 <= k < |r| && r[k].Guard? && r[k].isString ==> examples.Text?
  {
    match examples
    case Text(_) => [Guard(key, true)]
    case Malformed(items) => [Guard(key, false)] + Replays(key, items)
  }

  /** The labels of the catalogue. */
  function Labels(catalogue: seq<(string, Examples)>): set<string>
  {
    set i | 0 <= i < |catalogue| :: catalogue[i].0
  }

  /** All steps, labels in the dictionary's iteration order and each label's inputs in order. */
  function Steps(catalogue: seq<(string, Examples)>): seq<Step>
    decreases |catalogue|
  {
    if catalogue == [] then []
    else LabelSteps(catalogue[0].0, catalogue[0].1) + Steps(catalogue[1..])
  }

  /** Every step belongs to a label of the catalogue, and a failing check to a label whose value is a string. */
  lemma {:induction false} StepsLabels(catalogue: seq<(string, Examples)>)
    ensures forall k :: 0 <= k < |Steps(catalogue)| ==> Steps(catalogue)[k].key in Labels(catalogue)
    ensures forall k :: 0 <= k < |Steps(catalogue)| && Steps(catalogue)[k].Guard? && Steps(catalogue)[k].isString ==>
              exists i :: 0 <= i < |catalogue| && catalogue[i].0 == Steps(catalogue)[k].key && catalogue[i].1.Text?
    decreases |catalogue|
  {
    if catalogue != [] {
      StepsLabels(catalogue[1..]);
      assert forall i :: 0 <= i < |catalogue| - 1 ==> catalogue[1..][i] == catalogue[i + 1];
    }
  }

  /** The steps of two catalogues one after the other. */
  lemma {:induction false} StepsAppend(a: seq<(string, Examples)>, b: seq<(string, Examples)>)
    ensures Steps(a + b) == Steps(a) + Steps(b)
    decreases |a|
  {
    if a != [] {
      assert (a + b)[0] == a[0] && (a + b)[1..] == a[1..] + b;
      StepsAppend(a[1..], b);
      Associate([], LabelSteps(a[0].0, a[0].1), Steps(a[1..]), Steps(b));
    } else {
      assert a + b == b;
    }
  }

  /** The steps of a catalogue with one label `x` somewhere in it. */
  lemma StepsAround(prefix: seq<(string, Examples)>, x: (string, Examples), rest: seq<(string, Examples)>)
    ensures Steps(prefix + [x] + rest) == Steps(prefix) + Steps([x] + rest)
  {
    assert prefix + [x] + rest == prefix + ([x] + rest);
    StepsAppend(prefix, [x] + rest);
  }

  lemma StepsCons(head: (string, Examples), rest: seq<(string, Examples)>)
    ensures Steps([head] + rest) == LabelSteps(head.0, head.1) + Steps(rest)
  {
    assert ([head] + rest)[1..] == rest;
  }

  /** The steps from label `i` on: label `i`'s steps, then those of the labels after it. */
  lemma StepsAt(catalogue: seq<(string, Examples)>, i: nat)
    requires i < |catalogue|
    ensures Steps(catalogue[i..]) == LabelSteps(catalogue[i].0, catalogue[i].1) + Steps(catalogue[i + 1..])
  {
    assert catalogue[i..] == [catalogue[i]] + catalogue[i + 1..];
    StepsCons(catalogue[i], catalogue[i + 1..]);
  }

  /** A label whose value is not a string: its check, then its replays, then the steps after it. */
  lemma GuardPasses(key: string, items: seq<string>, rest: seq<Step>)
    ensures LabelSteps(key, Malformed(items)) + rest == [Guard(key, false)] + (Replays(key, items[0..]) + rest)
  {
    assert items[0..] == items;
  }

  /** The replays from input `j` on: replay `j`, then the rest. */
  lemma ReplaysAt(key: string, items: seq<string>, j: nat, rest: seq<Step>)
    requires j < |items|
    ensures Replays(key, items[j..]) + rest == [Replay(key, items[j])] + (Replays(key, items[j + 1..]) + rest)
  {
    assert Replays(key, items[j..]) == [Replay(key, items[j])] + Replays(key, items[j + 1..]);
  }

  lemma ReplaysAppend(key: string, xs: seq<string>, ys: seq<string>)
    ensures Replays(key, xs + ys) == Replays(key, xs) + Replays(key, ys)
  {
  }

  /** How one step bears on the result. */
  datatype Verdict =
    | Aborts(failure: MatchFailure)   // ends the call with an exception
    | Exact                           // same state and same token: the step's label is returned at once
    | SameState                       // same state, other token: the label may become the candidate
    | Uninformative                   // anything else leaves the scan as it was

  /**
   * A string-valued label and any exception but `UnexpectedToken` abort; a
   * failure in the same state on an equal token is exact, on another token it
   * is a same-state match; everything else is uninformative.
   */
  function Judge(step: Step, state: Option<int>, token: Token, parse: string -> ParseOutcome): (v: Verdict)
    ensures v.Aborts? <==> (step.Guard? && step.isString) || (step.Replay? && parse(step.malformed).Raised?)
    ensures v.Aborts? ==> v.failure == (if step.Guard? then ExampleIsString else Propagated)
    ensures v.Exact? <==> step.Replay? && parse(step.malformed).Unexpected?
                          && parse(step.malformed).state == state && SameToken(parse(step.malformed).token, token)
    ensures v.SameState? <==> step.Replay? && parse(step.malformed).Unexpected?
                              && parse(step.malformed).state == state && !SameToken(parse(step.malformed).token, token)
  {
    match step
    case Guard(_, isString) => if isString then Aborts(ExampleIsString) else Uninformative
    case Replay(_, malformed) =>
      match parse(malformed)
      case Parsed => Uninformative
      case Raised => Aborts(Propagated)
      case Unexpected(s, t) =>
        if s != state then Uninformative
        else if SameToken(t, token) then Exact
        else SameState
  }

  /** A step that ends the scan: an exception or an exact match. */
  predicate Decisive(v: Verdict)
  {
    v.Aborts? || v.Exact?
  }

  /**
   * The scan over `steps` from the candidate found so far. An error comes from a
   * step that aborts; a label other than the incoming candidate comes from a
   * step that failed in the failure's state.
   */
  function Run(steps: seq<Step>, state: Option<int>, token: Token, parse: string -> ParseOutcome,
               candidate: Option<string>): (r: Result<Option<string>, MatchFailure>)
    ensures r.Err? ==> exists k :: 0 <= k < |steps| && Judge(steps[k], state, token, parse) == Aborts(r.error)
    ensures r.Ok? && r.value != candidate ==>
              exists k :: 0 <= k < |steps| && r.value == Some(steps[k].key)
                          && (Judge(steps[k], state, token, parse).Exact? || Judge(steps[k], state, token, parse).SameState?)
    decreases |steps|
  {
    if steps == [] then Ok(candidate)
    else
      assert forall k :: 0 <= k < |steps| - 1 ==> steps[1..][k] == steps[k + 1];
      match Judge(steps[0], state, token, parse)
      case Aborts(failure) => Err(failure)
      case Exact => Ok(Some(steps[0].key))
      case SameState =>
        Run(steps[1..], state, token, parse, if Truthy(candidate) then candidate else Some(steps[0].key))
      case Uninformative => Run(steps[1..], state, token, parse, candidate)
  }

  /** One step of `Run`, unfolded. */
  lemma RunCons(step: Step, rest: seq<Step>, state: Option<int>, token: Token, parse: string -> ParseOutcome,
                candidate: Option<string>)
    ensures Run([step] + rest, state, token, parse, candidate) ==
      match Judge(step, state, token, parse)
      case Aborts(failure) => Err(failure)
      case Exact => Ok(Some(step.key))
      case SameState => Run(rest, state, token, parse, if Truthy(candidate) then candidate else Some(step.key))
      case Uninformative => Run(rest, state, token, parse, candidate)
  {
    assert ([step] + rest)[0] == step && ([step] + rest)[1..] == rest;
  }

  /**
   * What `match_examples` computes for a failure with this state and token. It
   * refuses a failure without a truthy state, names only labels of the
   * catalogue, and reports a string-valued example only when there is one.
   */
  function MatchSpec(state: Option<int>, token: Token, parse: string -> ParseOutcome,
                     catalogue: seq<(string, Examples)>): (r: Result<Option<string>, MatchFailure>)
    ensures !StateTruthy(state) ==> r == Err(NotSupported)
    ensures r.Ok? && r.value.Some? ==> r.value.value in Labels(catalogue)
    ensures r == Err(ExampleIsString) ==> exists i :: 0 <= i < |catalogue| && catalogue[i].1.Text?
  {
    StepsLabels(catalogue);
    if !StateTruthy(state) then Err(NotSupported)
    else Run(Steps(catalogue), state, token, parse, None)
  }

  // ---------------------------------------------------------------------------
  // Properties of the scan
  // ---------------------------------------------------------------------------

  /**
   * The first decisive step that is an exact match decides the result: its label
   * is returned, whatever same-state matches came before it.
   */
  lemma {:induction false} ExactMatchWins(steps: seq<Step>, k: nat, state: Option<int>, token: Token,
                                          parse: string -> ParseOutcome, candidate: Option<string>)
    requires k < |steps| && Judge(steps[k], state, token, parse) == Exact
    requires forall j :: 0 <= j < k ==> !Decisive(Judge(steps[j], state, token, parse))
    ensures Run(steps, state, token, parse, candidate) == Ok(Some(steps[k].key))
    decreases k
  {
    if k > 0 {
      assert !Decisive(Judge(steps[0], state, token, parse));
      var next := if Judge(steps[0], state, token, parse).SameState? && !Truthy(candidate)
                  then Some(steps[0].key) else candidate;
      ExactMatchWins(steps[1..], k - 1, state, token, parse, next);
    }
  }

  /** The first decisive step that is an exception ends the call with that exception. */
  lemma {:induction false} FirstAbortWins(steps: seq<Step>, k: nat, state: Option<int>, token: Token,
                                          parse: string -> ParseOutcome, candidate: Option<string>)
    requires k < |steps| && Judge(steps[k], state, token, parse).Aborts?
    requires forall j :: 0 <= j < k ==> !Decisive(Judge(steps[j], state, token, parse))
    ensures Run(steps, state, token, parse, candidate) == Err(Judge(steps[k], state, token, parse).failure)
    decreases k
  {
    if k > 0 {
      assert !Decisive(Judge(steps[0], state, token, parse));
      var next := if Judge(steps[0], state, token, parse).SameState? && !Truthy(candidate)
                  then Some(steps[0].key) else candidate;
      FirstAbortWins(steps[1..], k - 1, state, token, parse, next);
    }
  }

  /** Without a decisive step, a truthy candidate is never replaced. */
  lemma {:induction false} TruthyCandidateKept(steps: seq<Step>, state: Option<int>, token: Token,
                                               parse: string -> ParseOutcome, candidate: Option<string>)
    requires Truthy(candidate)
    requires forall j :: 0 <= j < |steps| ==> !Decisive(Judge(steps[j], state, token, parse))
    ensures Run(steps, state, token, parse, candidate) == Ok(candidate)
    decreases |steps|
  {
    if steps != [] {
      assert !Decisive(Judge(steps[0], state, token, parse));
      TruthyCandidateKept(steps[1..], state, token, parse, candidate);
    }
  }

  /**
   * Without a decisive step, the result is the label of the first same-state
   * match whose label is truthy (same-state matches with the label `""` before
   * it do not stick, because `not candidate` still holds after them).
   */
  lemma {:induction false} FirstTruthySameStateWins(steps: seq<Step>, k: nat, state: Option<int>, token: Token,
                                                    parse: string -> ParseOutcome, candidate: Option<string>)
    requires !Truthy(candidate)
    requires forall j :: 0 <= j < |steps| ==> !Decisive(Judge(steps[j], state, token, parse))
    requires k < |steps| && Judge(steps[k], state, token, parse) == SameState && steps[k].key != ""
    requires forall j :: 0 <= j < k && Judge(steps[j], state, token, parse) == SameState ==> steps[j].key == ""
    ensures Run(steps, state, token, parse, candidate) == Ok(Some(steps[k].key))
    decreases k
  {
    var next := if Judge(steps[0], state, token, parse).SameState? then Some(steps[0].key) else candidate;
    if k == 0 {
      TruthyCandidateKept(steps[1..], state, token, parse, next);
    } else {
      FirstTruthySameStateWins(steps[1..], k - 1, state, token, parse, next);
    }
  }

  /** When no step aborts and no replay fails in the failure's state, the candidate is returned unchanged. */
  lemma {:induction false} NoSameStateKeepsCandidate(steps: seq<Step>, state: Option<int>, token: Token,
                                                     parse: string -> ParseOutcome, candidate: Option<string>)
    requires forall j :: 0 <= j < |steps| ==> Judge(steps[j], state, token, parse) == Uninformative
    ensures Run(steps, state, token, parse, candidate) == Ok(candidate)
    decreases |steps|
  {
    if steps != [] {
      assert Judge(steps[0], state, token, parse) == Uninformative;
      NoSameStateKeepsCandidate(steps[1..], state, token, parse, candidate);
    }
  }

  /**
   * An uninformative step (an input that parses, or that fails in another state)
   * can be removed anywhere without changing the result.
   */
  lemma {:induction false} UninformativeStepIrrelevant(before: seq<Step>, step: Step, after: seq<Step>,
                                                       state: Option<int>, token: Token,
                                                       parse: string -> ParseOutcome, candidate: Option<string>)
    requires Judge(step, state, token, parse) == Uninformative
    ensures Run(before + [step] + after, state, token, parse, candidate)
         == Run(before + after, state, token, parse, candidate)
    decreases |before|
  {
    if before == [] {
      assert before + [step] + after == [step] + after;
      assert before + after == after;
      RunCons(step, after, state, token, parse, candidate);
    } else {
      var first := before[0];
      assert before + [step] + after == [first] + (before[1..] + [step] + after);
      assert before + after == [first] + (before[1..] + after);
      RunCons(first, before[1..] + [step] + after, state, token, parse, candidate);
      RunCons(first, before[1..] + after, state, token, parse, candidate);
      var next := if Judge(first, state, token, parse).SameState? && !Truthy(candidate)
                  then Some(first.key) else candidate;
      UninformativeStepIrrelevant(before[1..], step, after, state, token, parse, next);
    }
  }

  /** An input that parses successfully, under any label of the catalogue, never changes what `match_examples` answers. */
  lemma SuccessfulExampleIrrelevant(state: Option<int>, token: Token, parse: string -> ParseOutcome,
                                    prefix: seq<(string, Examples)>, key: string,
                                    before: seq<string>, malformed: string, after: seq<string>,
                                    rest: seq<(string, Examples)>)
    requires parse(malformed) == Parsed
    ensures MatchSpec(state, token, parse, prefix + [(key, Malformed(before + [malformed] + after))] + rest)
         == MatchSpec(state, token, parse, prefix + [(key, Malformed(before + after))] + rest)
  {
    var p, g, a := Steps(prefix), [Guard(key, false)] + Replays(key, before), Replays(key, after) + Steps(rest);
    StepsSplitWith(prefix, key, before, malformed, after, rest);
    StepsSplitWithout(prefix, key, before, after, rest);
    UninformativeStepIrrelevant(p + g, Replay(key, malformed), a, state, token, parse, None);
  }

  /** The steps of a catalogue with `before`, `malformed` and `after` under a label somewhere in it. */
  lemma StepsSplitWith(prefix: seq<(string, Examples)>, key: string, before: seq<string>, malformed: string,
                       after: seq<string>, rest: seq<(string, Examples)>)
    ensures Steps(prefix + [(key, Malformed(before + [malformed] + after))] + rest)
         == (Steps(prefix) + ([Guard(key, false)] + Replays(key, before))) + [Replay(key, malformed)]
            + (Replays(key, after) + Steps(rest))
  {
    StepsAround(prefix, (key, Malformed(before + [malformed] + after)), rest);
    StepsWith(key, before, malformed, after, rest);
    Regroup(Steps(prefix), [Guard(key, false)] + Replays(key, before), [Replay(key, malformed)],
            Replays(key, after) + Steps(rest));
  }

  /** The steps of a catalogue with `before` and `after` under a label somewhere in it. */
  lemma StepsSplitWithout(prefix: seq<(string, Examples)>, key: string, before: seq<string>,
                          after: seq<string>, rest: seq<(string, Examples)>)
    ensures Steps(prefix + [(key, Malformed(before + after))] + rest)
         == (Steps(prefix) + ([Guard(key, false)] + Replays(key, before))) + (Replays(key, after) + Steps(rest))
  {
    StepsAround(prefix, (key, Malformed(before + after)), rest);
    StepsWithout(key, before, after, rest);
  }

  /** The steps when the first label holds `before`, then `malformed`, then `after`. */
  lemma StepsWith(key: string, before: seq<string>, malformed: string, after: seq<string>,
                  rest: seq<(string, Examples)>)
    ensures Steps([(key, Malformed(before + [malformed] + after))] + rest)
         == ([Guard(key, false)] + Replays(key, before)) + [Replay(key, malformed)] + (Replays(key, after) + Steps(rest))
  {
    StepsCons((key, Malformed(before + [malformed] + after)), rest);
    assert Replays(key, before + [malformed] + after)
        == Replays(key, before) + [Replay(key, malformed)] + Replays(key, after);
    Regroup5([Guard(key, false)], Replays(key, before), [Replay(key, malformed)], Replays(key, after), Steps(rest));
  }

  /** The steps when the first label holds `before`, then `after`. */
  lemma StepsWithout(key: string, before: seq<string>, after: seq<string>, rest: seq<(string, Examples)>)
    ensures Steps([(key, Malformed(before + after))] + rest)
         == ([Guard(key, false)] + Replays(key, before)) + (Replays(key, after) + Steps(rest))
  {
    StepsCons((key, Malformed(before + after)), rest);
    ReplaysAppend(key, before, after);
    Associate([Guard(key, false)], Replays(key, before), Replays(key, after), Steps(rest));
  }

  lemma Assoc<T>(a: seq<T>, b: seq<T>, c: seq<T>)
    ensures a + b + c == a + (b + c)
  {
  }

  /** Concatenation regrouped: `g`, then `b` and `a` together, then `t`. */
  lemma Associate<T>(g: seq<T>, b: seq<T>, a: seq<T>, t: seq<T>)
    ensures (g + (b + a)) + t == (g + b) + (a + t)
  {
  }

  /** Concatenation regrouped: `g`, then `b`, `m` and `a` together, then `t`. */
  lemma Regroup5<T>(g: seq<T>, b: seq<T>, m: seq<T>, a: seq<T>, t: seq<T>)
    ensures (g + (b + m + a)) + t == (g + b) + m + (a + t)
  {
  }

  /** Concatenation regrouped: `p`, then `g`, `m` and `a` as one. */
  lemma Regroup<T>(p: seq<T>, g: seq<T>, m: seq<T>, a: seq<T>)
    ensures p + (g + m + a) == (p + g) + m + a
  {
  }

  /**
   * After labels that decide nothing, a label whose one input fails in the same
   * state on another token, followed by a label whose one input fails on an
   * equal token: the second label is returned, not the first, whatever follows.
   */
  lemma ExactMatchBeatsEarlierSameState(state: Option<int>, token: Token, parse: string -> ParseOutcome,
                                        prefix: seq<(string, Examples)>, weakKey: string, weak: string,
                                        exactKey: string, exact: string, suffix: seq<(string, Examples)>)
    requires StateTruthy(state)
    requires forall j :: 0 <= j < |Steps(prefix)| ==> !Decisive(Judge(Steps(prefix)[j], state, token, parse))
    requires parse(weak).Unexpected? && parse(weak).state == state && !SameToken(parse(weak).token, token)
    requires parse(exact).Unexpected? && parse(exact).state == state && SameToken(parse(exact).token, token)
    ensures MatchSpec(state, token, parse,
                      prefix + [(weakKey, Malformed([weak])), (exactKey, Malformed([exact]))] + suffix)
         == Ok(Some(exactKey))
  {
    var p, m, t := Steps(prefix),
                   [Guard(weakKey, false), Replay(weakKey, weak), Guard(exactKey, false), Replay(exactKey, exact)],
                   Steps(suffix);
    PairSteps(prefix, weakKey, weak, exactKey, exact, suffix);
    Assoc(p, m, t);
    RunThrough(p, m + t, state, token, parse, None);
    PairRun(weakKey, weak, exactKey, exact, t, state, token, parse, Run(p, state, token, parse, None).value);
  }

  /** The two labels' steps, from any candidate: the exact match is reached and returned. */
  lemma PairRun(weakKey: string, weak: string, exactKey: string, exact: string, t: seq<Step>,
                state: Option<int>, token: Token, parse: string -> ParseOutcome, candidate: Option<string>)
    requires parse(weak).Unexpected? && parse(weak).state == state && !SameToken(parse(weak).token, token)
    requires parse(exact).Unexpected? && parse(exact).state == state && SameToken(parse(exact).token, token)
    ensures Run([Guard(weakKey, false), Replay(weakKey, weak), Guard(exactKey, false), Replay(exactKey, exact)] + t,
                state, token, parse, candidate) == Ok(Some(exactKey))
  {
    var m := [Guard(weakKey, false), Replay(weakKey, weak), Guard(exactKey, false), Replay(exactKey, exact)];
    assert (m + t)[0] == m[0] && (m + t)[1] == m[1] && (m + t)[2] == m[2] && (m + t)[3] == m[3];
    ExactMatchWins(m + t, 3, state, token, parse, candidate);
  }

  /** Steps that decide nothing only move the candidate on: the scan continues after them. */
  lemma {:induction false} RunThrough(p: seq<Step>, t: seq<Step>, state: Option<int>, token: Token,
                                      parse: string -> ParseOutcome, candidate: Option<string>)
    requires forall j :: 0 <= j < |p| ==> !Decisive(Judge(p[j], state, token, parse))
    ensures Run(p, state, token, parse, candidate).Ok?
    ensures Run(p + t, state, token, parse, candidate)
         == Run(t, state, token, parse, Run(p, state, token, parse, candidate).value)
    decreases |p|
  {
    if p == [] {
      assert p + t == t;
    } else {
      assert (p + t)[0] == p[0] && (p + t)[1..] == p[1..] + t;
      assert !Decisive(Judge(p[0], state, token, parse));
      var next := if Judge(p[0], state, token, parse).SameState? && !Truthy(candidate)
                  then Some(p[0].key) else candidate;
      RunThrough(p[1..], t, state, token, parse, next);
    }
  }

  /** The steps of a catalogue with two labels of one input each after `prefix`. */
  lemma PairSteps(prefix: seq<(string, Examples)>, weakKey: string, weak: string,
                  exactKey: string, exact: string, suffix: seq<(string, Examples)>)
    ensures Steps(prefix + [(weakKey, Malformed([weak])), (exactKey, Malformed([exact]))] + suffix)
         == Steps(prefix) + [Guard(weakKey, false), Replay(weakKey, weak), Guard(exactKey, false), Replay(exactKey, exact)]
            + Steps(suffix)
  {
    var middle := [(weakKey, Malformed([weak])), (exactKey, Malformed([exact]))];
    PairMiddle(weakKey, weak, exactKey, exact);
    StepsAppend(prefix + middle, suffix);
    StepsAppend(prefix, middle);
  }

  lemma PairMiddle(weakKey: string, weak: string, exactKey: string, exact: string)
    ensures Steps([(weakKey, Malformed([weak])), (exactKey, Malformed([exact]))])
         == [Guard(weakKey, false), Replay(weakKey, weak), Guard(exactKey, false), Replay(exactKey, exact)]
  {
    StepsCons((exactKey, Malformed([exact])), []);
    StepsCons((weakKey, Malformed([weak])), [(exactKey, Malformed([exact]))]);
    assert [(weakKey, Malformed([weak])), (exactKey, Malformed([exact]))]
        == [(weakKey, Malformed([weak]))] + [(exactKey, Malformed([exact]))];
    assert [(exactKey, Malformed([exact]))] + [] == [(exactKey, Malformed([exact]))];
  }
}
