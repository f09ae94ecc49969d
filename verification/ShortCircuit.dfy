/**
 What `if`, `and` and `or` mean: chains of conditions that evaluate only what they need, in terms of how one
 value is evaluated.
 */
module ShortCircuit {
  import opened Text
  import opened JsonLogic

  type Evaluation = Value -> Outcome<Value>

  /** Evaluating with the interpreter. */
  function Evaluator(h: Host, data: seq<Field>): Evaluation {
    rule => Apply(h, rule, data)
  }

  /** `if` as a chain of conditions: only the conditions up to the first truthy one, and one branch, are evaluated. */
  function IfChain(evaluate: Evaluation, values: seq<Value>): Outcome<Value> {
    if values == [] then Ok(Null)
    else if |values| == 1 then evaluate(values[0])
    else
      var condition :- evaluate(values[0]);
      if IsTruthy(condition) then evaluate(values[1]) else IfChain(evaluate, values[2..])
  }

  /** `and` (`or`): the first falsy (truthy) value, else the last one; nothing after it is evaluated. */
  function Chain(evaluate: Evaluation, values: seq<Value>, isOr: bool): Outcome<Value> {
    if values == [] then Ok(Null)
    else
      var value :- evaluate(values[0]);
      if IsTruthy(value) == isOr || |values| == 1 then Ok(value) else Chain(evaluate, values[1..], isOr)
  }

  lemma {:induction false} FindTakenIsChain(h: Host, node: Value, values: seq<Value>, pair: nat, data: seq<Field>)
    requires Below(values, node) && pair <= |values| / 2
    ensures var taken := FindTaken(h, node, values, pair, data);
            IfChain(Evaluator(h, data), values[2 * pair..]) ==
            if taken.Error? then Error(taken.error)
            else if taken.value.Some? then Apply(h, values[taken.value.value + 1], data)
            else if |values| % 2 == 1 then Apply(h, values[|values| - 1], data)
            else Ok(Null)
    decreases |values| / 2 - pair
  {
    hide Apply, IsTruthy, Below;
    var rest := values[2 * pair..];
    if pair < |values| / 2 {
      FindTakenIsChain(h, node, values, pair + 1, data);
      assert rest[0] == values[2 * pair] && rest[1] == values[2 * pair + 1];
      assert rest[2..] == values[2 * (pair + 1)..];
    }
  }

  lemma {:induction false} ReduceDone(h: Host, node: Value, values: seq<Value>, isOr: bool, state: Progress, data: seq<Field>)
    requires Below(values, node) && state.isDone
    ensures Reduce(h, node, values, isOr, state, data) == Ok(state)
  {
    if values != [] {
      ReduceDone(h, node, values[1..], isOr, state, data);
    }
  }

  lemma {:induction false} ReduceIsChain(h: Host, node: Value, values: seq<Value>, isOr: bool, last: Value, data: seq<Field>)
    requires Below(values, node)
    ensures var reduced := Reduce(h, node, values, isOr, Progress(false, last), data);
            if values == [] then reduced == Ok(Progress(false, last))
            else if reduced.Error? then Chain(Evaluator(h, data), values, isOr) == Error(reduced.error)
            else Chain(Evaluator(h, data), values, isOr) == Ok(reduced.value.value)
  {
    if values != [] {
      var value := Apply(h, values[0], data);
      if value.Ok? {
        if IsTruthy(value.value) == isOr {
          ReduceDone(h, node, values[1..], isOr, Progress(true, value.value), data);
        } else {
          ReduceIsChain(h, node, values[1..], isOr, value.value, data);
        }
      }
    }
  }

  /** The index search and the reduce of the interpreter mean the short-circuit chains, for argument lists of any length. */
  lemma {:induction false} LazyOperatorsShortCircuit(h: Host, raw: Value, data: seq<Field>)
    ensures Apply(h, Operation("if", raw), data) == IfChain(Evaluator(h, data), Args(raw))
    ensures Apply(h, Operation("and", raw), data) == Chain(Evaluator(h, data), Args(raw), false)
    ensures Apply(h, Operation("or", raw), data) == Chain(Evaluator(h, data), Args(raw), true)
  {
    var values := Args(raw);
    ArgsAreBelow("if", raw);
    ArgsAreBelow("and", raw);
    ArgsAreBelow("or", raw);
    FindTakenIsChain(h, Operation("if", raw), values, 0, data);
    assert values[0..] == values;
    ReduceIsChain(h, Operation("and", raw), values, false, Null, data);
    ReduceIsChain(h, Operation("or", raw), values, true, Null, data);
  }

  /** `if` with one condition takes a branch by it; without an else value it is null. */
  lemma {:induction false} IfAnswers(h: Host, data: seq<Field>, condition: Value, value: Value, first: Value, second: Value)
    requires Apply(h, condition, data) == Ok(value)
    ensures Apply(h, Operation("if", Arr([condition, first, second])), data) == Apply(h, if IsTruthy(value) then first else second, data)
    ensures Apply(h, Operation("if", Arr([condition, first])), data) == if IsTruthy(value) then Apply(h, first, data) else Ok(Null)
  {
    LazyOperatorsShortCircuit(h, Arr([condition, first, second]), data);
    LazyOperatorsShortCircuit(h, Arr([condition, first]), data);
    assert [condition, first, second][2..] == [second] && [condition, first][2..] == [];
    hide Apply, IsTruthy;
  }

  /** `and` goes on past a truthy value and `or` past a falsy one; otherwise the value itself is the answer. */
  lemma {:induction false} AndOrAnswer(h: Host, data: seq<Field>, rule: Value, value: Value, other: Value)
    requires Apply(h, rule, data) == Ok(value)
    ensures Apply(h, Operation("and", Arr([rule, other])), data) == if IsTruthy(value) then Apply(h, other, data) else Ok(value)
    ensures Apply(h, Operation("or", Arr([rule, other])), data) == if IsTruthy(value) then Ok(value) else Apply(h, other, data)
  {
    LazyOperatorsShortCircuit(h, Arr([rule, other]), data);
    assert [rule, other][1..] == [other];
    hide Apply, IsTruthy;
  }

  /** The condition of pair `i` of an `if`. */
  function Condition(values: seq<Value>, i: nat): Value
    requires 2 * i < |values|
  {
    values[2 * i]
  }

  predicate IsFalsy(evaluate: Evaluation, rule: Value) {
    evaluate(rule).Ok? && !IsTruthy(evaluate(rule).value)
  }

  /** Evaluating the rule fails, or gives a value that is truthy when `isTruthy` and falsy otherwise. */
  predicate Decides(evaluate: Evaluation, rule: Value, isTruthy: bool) {
    evaluate(rule).Ok? ==> IsTruthy(evaluate(rule).value) == isTruthy
  }

  lemma {:induction false} ChainStopsAtBranch(evaluate: Evaluation, values: seq<Value>, n: nat)
    requires 2 * n + 1 < |values|
    requires forall i :: 0 <= i < n ==> IsFalsy(evaluate, Condition(values, i))
    requires Decides(evaluate, Condition(values, n), true)
    ensures IfChain(evaluate, values) ==
            if evaluate(Condition(values, n)).Error? then evaluate(Condition(values, n)) else evaluate(values[2 * n + 1])
    decreases n
  {
    hide IsTruthy;
    if n > 0 {
      assert IsFalsy(evaluate, Condition(values, 0));
      var rest := values[2..];
      assert forall i :: 0 <= i < n ==> Condition(rest, i) == Condition(values, i + 1);
      ChainStopsAtBranch(evaluate, rest, n - 1);
    }
  }

  lemma {:induction false} ChainFallsThrough(evaluate: Evaluation, values: seq<Value>)
    requires forall i :: 0 <= i < |values| / 2 ==> IsFalsy(evaluate, Condition(values, i))
    ensures IfChain(evaluate, values) == if |values| % 2 == 0 then Ok(Null) else evaluate(values[|values| - 1])
    decreases |values|
  {
    hide IsTruthy;
    if |values| >= 2 {
      assert IsFalsy(evaluate, Condition(values, 0));
      var rest := values[2..];
      assert forall i :: 0 <= i < |rest| / 2 ==> Condition(rest, i) == Condition(values, i + 1);
      ChainFallsThrough(evaluate, rest);
    }
  }

  /**
   Wherever an `if` is decided, at pair `n`: neither the branches under the falsy conditions before it nor
   anything after its branch matters, and if the deciding condition fails, its branch does not matter either.
   */
  lemma {:induction false} UntakenBranchesNeverMatter(h: Host, values: seq<Value>, others: seq<Value>, n: nat, data: seq<Field>)
    requires 2 * n + 1 < |values| && 2 * n + 1 < |others|
    requires forall i :: 0 <= i <= n ==> Condition(others, i) == Condition(values, i)
    requires forall i :: 0 <= i < n ==> IsFalsy(Evaluator(h, data), Condition(values, i))
    requires Decides(Evaluator(h, data), Condition(values, n), true)
    requires Apply(h, Condition(values, n), data).Ok? ==> others[2 * n + 1] == values[2 * n + 1]
    ensures Apply(h, Operation("if", Arr(others)), data) == Apply(h, Operation("if", Arr(values)), data)
  {
    hide Apply;
    LazyOperatorsShortCircuit(h, Arr(values), data);
    LazyOperatorsShortCircuit(h, Arr(others), data);
    ChainStopsAtBranch(Evaluator(h, data), values, n);
    ChainStopsAtBranch(Evaluator(h, data), others, n);
  }

  /** When no condition of an `if` is truthy, no branch matters but the last value of an odd list. */
  lemma {:induction false} BranchesNeverMatterToElse(h: Host, values: seq<Value>, others: seq<Value>, data: seq<Field>)
    requires |values| == |others|
    requires forall i :: 0 <= i < |values| / 2 ==> Condition(others, i) == Condition(values, i) && IsFalsy(Evaluator(h, data), Condition(values, i))
    requires |values| % 2 == 1 ==> others[|values| - 1] == values[|values| - 1]
    ensures Apply(h, Operation("if", Arr(others)), data) == Apply(h, Operation("if", Arr(values)), data)
  {
    hide Apply;
    LazyOperatorsShortCircuit(h, Arr(values), data);
    LazyOperatorsShortCircuit(h, Arr(others), data);
    ChainFallsThrough(Evaluator(h, data), values);
    ChainFallsThrough(Evaluator(h, data), others);
  }

  lemma {:induction false} ChainStopsAt(evaluate: Evaluation, values: seq<Value>, isOr: bool, n: nat)
    requires n < |values|
    requires forall i :: 0 <= i < n ==> evaluate(values[i]).Ok? && Decides(evaluate, values[i], !isOr)
    requires Decides(evaluate, values[n], isOr)
    ensures Chain(evaluate, values, isOr) == evaluate(values[n])
    decreases n
  {
    hide IsTruthy;
    if n > 0 {
      assert Decides(evaluate, values[0], !isOr);
      ChainStopsAt(evaluate, values[1..], isOr, n - 1);
    }
  }

  /** Wherever an `and` (`or`) is decided, at value `n`, by a falsy (truthy) value or a failing one: nothing after it matters. */
  lemma {:induction false} SkippedValuesNeverMatter(h: Host, values: seq<Value>, others: seq<Value>, isOr: bool, n: nat, data: seq<Field>)
    requires n < |values| && n < |others|
    requires forall i :: 0 <= i <= n ==> others[i] == values[i]
    requires forall i :: 0 <= i < n ==> Apply(h, values[i], data).Ok? && Decides(Evaluator(h, data), values[i], !isOr)
    requires Decides(Evaluator(h, data), values[n], isOr)
    ensures var operator := if isOr then "or" else "and";
            Apply(h, Operation(operator, Arr(others)), data) == Apply(h, Operation(operator, Arr(values)), data) == Apply(h, values[n], data)
  {
    hide Apply;
    LazyOperatorsShortCircuit(h, Arr(values), data);
    LazyOperatorsShortCircuit(h, Arr(others), data);
    ChainStopsAt(Evaluator(h, data), values, isOr, n);
    ChainStopsAt(Evaluator(h, data), others, isOr, n);
  }
}
