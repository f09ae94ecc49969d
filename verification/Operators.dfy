/** What the eager operators answer, in terms of what their arguments evaluate to. */
module Operators {
  import opened Text
  import opened JsonLogic
  import SemVer
  import ShortCircuit

  /** The rules evaluate to the values, one by one. */
  ghost predicate Give(h: Host, data: seq<Field>, rules: seq<Value>, values: seq<Value>) {
    |rules| == |values| && forall k :: 0 <= k < |rules| ==> Apply(h, rules[k], data) == Ok(values[k])
  }

  /** The operation of that name on those arguments. */
  function Call(operator: string, args: seq<Value>): Value {
    Operation(operator, Arr(args))
  }

  lemma {:induction false} AllApplied(h: Host, node: Value, rules: seq<Value>, values: seq<Value>, data: seq<Field>)
    requires Below(rules, node) && Give(h, data, rules, values)
    ensures ApplyAll(h, node, rules, data) == Ok(values)
  {
    hide Apply;
    if rules != [] {
      assert Give(h, data, rules[1..], values[1..]);
      AllApplied(h, node, rules[1..], values[1..], data);
      assert [values[0]] + values[1..] == values;
    }
  }

  lemma {:induction false} CallOperates(h: Host, data: seq<Field>, name: string, operator: Eager, rules: seq<Value>, values: seq<Value>)
    requires OperatorNamed(name) == Some(Eagerly(operator)) && Give(h, data, rules, values)
    ensures Apply(h, Call(name, rules), data) == Operate(h, operator, values, data)
  {
    hide Operate, OperatorNamed;
    var node := Call(name, rules);
    ArgsAreBelow(name, Arr(rules));
    AllApplied(h, node, rules, values, data);
    assert IsOperation(node) && Args(node.fields[0].value) == rules;
  }

  /** An array evaluates item by item. */
  lemma {:induction false} ArrayAnswers(h: Host, data: seq<Field>, rules: seq<Value>, values: seq<Value>)
    requires Give(h, data, rules, values)
    ensures Apply(h, Arr(rules), data) == Ok(Arr(values))
  {
    AllApplied(h, Arr(rules), rules, values, data);
  }

  /** An argument that is no array may stand alone. */
  lemma {:induction false} LoneArgument(h: Host, data: seq<Field>, name: string, operator: Eager, rule: Value, value: Value)
    requires OperatorNamed(name) == Some(Eagerly(operator)) && Give(h, data, [rule], [value]) && !rule.Arr?
    ensures Apply(h, Operation(name, rule), data) == Apply(h, Call(name, [rule]), data)
  {
    hide Operate, OperatorNamed;
    CallOperates(h, data, name, operator, [rule], [value]);
    assert Apply(h, [rule][0], data) == Ok([value][0]);
    OneArgument(h, name, operator, rule, data);
  }

  lemma {:induction false} FirstErrorEnds(h: Host, node: Value, rules: seq<Value>, n: nat, data: seq<Field>)
    requires Below(rules, node) && n < |rules| && Apply(h, rules[n], data).Error?
    requires forall k :: 0 <= k < n ==> Apply(h, rules[k], data).Ok?
    ensures ApplyAll(h, node, rules, data) == Error(Apply(h, rules[n], data).error)
  {
    hide Apply;
    if n > 0 {
      FirstErrorEnds(h, node, rules[1..], n - 1, data);
    }
  }

  /** An eager operation stops on the first argument that fails. */
  lemma {:induction false} FailingArgumentStops(h: Host, data: seq<Field>, name: string, operator: Eager, rules: seq<Value>, n: nat)
    requires OperatorNamed(name) == Some(Eagerly(operator)) && n < |rules| && Apply(h, rules[n], data).Error?
    requires forall k :: 0 <= k < n ==> Apply(h, rules[k], data).Ok?
    ensures Apply(h, Call(name, rules), data) == Apply(h, rules[n], data)
  {
    hide Operate, OperatorNamed;
    var node := Call(name, rules);
    ArgsAreBelow(name, Arr(rules));
    FirstErrorEnds(h, node, rules, n, data);
    assert IsOperation(node) && Args(node.fields[0].value) == rules;
  }

  // ----- Truth -----

  /** The falsy values. */
  lemma {:induction false} FalsyValues(v: Value)
    ensures !IsTruthy(v) <==> v in [Undefined, Null, Bool(false), Num(0.0), Str(""), Arr([])]
  {
  }

  /** `!` answers whether its argument is falsy. */
  lemma {:induction false} NotAnswers(h: Host, data: seq<Field>, a: Value, v: Value)
    requires Give(h, data, [a], [v])
    ensures Apply(h, Call("!", [a]), data) == Ok(Bool(v in [Undefined, Null, Bool(false), Num(0.0), Str(""), Arr([])]))
  {
    FalsyValues(v);
    CallOperates(h, data, "!", Not, [a], [v]);
    hide Apply;
  }

  /** Negating a condition swaps the branches of an `if`. */
  lemma {:induction false} NotSwapsBranches(h: Host, data: seq<Field>, condition: Value, value: Value, first: Value, second: Value)
    requires Give(h, data, [condition], [value])
    ensures Apply(h, Call("if", [Call("!", [condition]), first, second]), data) == Apply(h, Call("if", [condition, second, first]), data)
  {
    NotAnswers(h, data, condition, value);
    FalsyValues(value);
    assert Apply(h, condition, data) == Ok(value);
    var negated := Bool(!IsTruthy(value));
    assert IsTruthy(negated) == !IsTruthy(value);
    hide Apply, IsTruthy;
    ShortCircuit.IfAnswers(h, data, Call("!", [condition]), negated, first, second);
    ShortCircuit.IfAnswers(h, data, condition, value, second, first);
  }

  // ----- Equality -----

  predicate IsPrimitive(v: Value) {
    v.Bool? || v.Num? || v.Str?
  }

  /** Comparing the two has to convert an object that cannot be converted. */
  predicate ClashesWith(x: Value, y: Value) {
    (CannotConvert(x) && IsPrimitive(y)) || (CannotConvert(y) && IsPrimitive(x))
  }

  /** `==` answers whether the engine holds the values loosely equal, `!=` the opposite; both stop on the same conversions. */
  lemma {:induction false} EqualityAnswers(h: Host, data: seq<Field>, a: Value, b: Value, x: Value, y: Value)
    requires Give(h, data, [a, b], [x, y])
    ensures Apply(h, Call("==", [a, b]), data) == if ClashesWith(x, y) then Error(CoercionFailure) else Ok(Bool(h.isLooselyEqual(x, y)))
    ensures Apply(h, Call("!=", [a, b]), data) == if ClashesWith(x, y) then Error(CoercionFailure) else Ok(Bool(!h.isLooselyEqual(x, y)))
  {
    CallOperates(h, data, "==", Equal, [a, b], [x, y]);
    CallOperates(h, data, "!=", NotEqual, [a, b], [x, y]);
    hide Apply, CannotConvert;
  }

  // ----- Order -----

  /** What a comparison of two values answers: texts by the engine's text order, anything else as numbers. */
  ghost predicate Compares(h: Host, x: Value, y: Value, isEqualAllowed: bool, answer: Outcome<Value>) {
    if x.Str? && y.Str? then answer == Ok(Bool(h.isTextBefore(x.s, y.s) || (isEqualAllowed && x == y)))
    else if CannotConvert(x) || CannotConvert(y) then answer == Error(CoercionFailure)
    else answer == Ok(Bool(h.isNumericallyBefore(x, y, isEqualAllowed)))
  }

  /** `<` and `<=` compare their two arguments in order. */
  lemma {:induction false} LessAnswers(h: Host, data: seq<Field>, a: Value, b: Value, x: Value, y: Value)
    requires Give(h, data, [a, b], [x, y])
    ensures Compares(h, x, y, false, Apply(h, Call("<", [a, b]), data))
    ensures Compares(h, x, y, true, Apply(h, Call("<=", [a, b]), data))
  {
    CallOperates(h, data, "<", Less, [a, b], [x, y]);
    CallOperates(h, data, "<=", AtMost, [a, b], [x, y]);
    hide Apply, CannotConvert;
  }

  lemma {:induction false} OrdersOperate(h: Host, data: seq<Field>, x: Value, y: Value)
    ensures Operate(h, Less, [x, y], data) == Asserted(IsBefore(h, x, y, false)) == Operate(h, Greater, [y, x], data)
    ensures Operate(h, AtMost, [x, y], data) == Asserted(IsBefore(h, x, y, true)) == Operate(h, AtLeast, [y, x], data)
  {
    hide IsBefore;
  }

  lemma {:induction false} GivePair(h: Host, data: seq<Field>, a: Value, b: Value, x: Value, y: Value)
    requires Give(h, data, [a, b], [x, y])
    ensures Give(h, data, [a], [x]) && Give(h, data, [b, a], [y, x])
  {
    hide Apply;
    var rules, values := [a, b], [x, y];
    assert rules[0] == a && rules[1] == b && values[0] == x && values[1] == y;
    assert Apply(h, rules[0], data) == Ok(values[0]) && Apply(h, rules[1], data) == Ok(values[1]);
  }

  /** `>` and `>=` are `<` and `<=` with the arguments exchanged. */
  lemma {:induction false} GreaterAnswers(h: Host, data: seq<Field>, a: Value, b: Value, x: Value, y: Value)
    requires Give(h, data, [a, b], [x, y])
    ensures Apply(h, Call(">", [a, b]), data) == Apply(h, Call("<", [b, a]), data)
    ensures Apply(h, Call(">=", [a, b]), data) == Apply(h, Call("<=", [b, a]), data)
  {
    GivePair(h, data, a, b, x, y);
    hide Apply, Operate, Give, Call;
    OrderNames();
    OrdersOperate(h, data, y, x);
    CallOperates(h, data, ">", Greater, [a, b], [x, y]);
    CallOperates(h, data, ">=", AtLeast, [a, b], [x, y]);
    CallOperates(h, data, "<", Less, [b, a], [y, x]);
    CallOperates(h, data, "<=", AtMost, [b, a], [y, x]);
  }

  lemma OrderNames()
    ensures OperatorNamed("<") == Some(Eagerly(Less)) && OperatorNamed("<=") == Some(Eagerly(AtMost))
    ensures OperatorNamed(">") == Some(Eagerly(Greater)) && OperatorNamed(">=") == Some(Eagerly(AtLeast))
  {
  }

  /** With three arguments, `<` and `<=` hold when the middle one is between: the first comparison decides unless it is true, then the second. */
  lemma {:induction false} BetweenAnswers(h: Host, data: seq<Field>, a: Value, b: Value, c: Value, x: Value, y: Value, z: Value, isEqualAllowed: bool)
    requires Give(h, data, [a, b, c], [x, y, z]) && !z.Undefined?
    ensures var name := if isEqualAllowed then "<=" else "<";
            var first := Apply(h, Call(name, [a, b]), data);
            Apply(h, Call(name, [a, b, c]), data) ==
            if first == Ok(Bool(true)) then Apply(h, Call(name, [b, c]), data) else first
  {
    var name, operator := if isEqualAllowed then "<=" else "<", if isEqualAllowed then AtMost else Less;
    GiveParts(h, data, a, b, c, x, y, z);
    hide Apply, Operate, Give, Call;
    OrderNames();
    BetweenOperates(h, data, x, y, z, isEqualAllowed);
    CallOperates(h, data, name, operator, [a, b, c], [x, y, z]);
    CallOperates(h, data, name, operator, [a, b], [x, y]);
    CallOperates(h, data, name, operator, [b, c], [y, z]);
  }

  lemma {:induction false} GiveParts(h: Host, data: seq<Field>, a: Value, b: Value, c: Value, x: Value, y: Value, z: Value)
    requires Give(h, data, [a, b, c], [x, y, z])
    ensures Give(h, data, [a, b], [x, y]) && Give(h, data, [b, c], [y, z])
  {
    hide Apply;
    var rules, values := [a, b, c], [x, y, z];
    assert rules[0] == a && rules[1] == b && rules[2] == c && values[0] == x && values[1] == y && values[2] == z;
    assert Apply(h, rules[0], data) == Ok(values[0]) && Apply(h, rules[1], data) == Ok(values[1]) && Apply(h, rules[2], data) == Ok(values[2]);
  }

  lemma {:induction false} BetweenOperates(h: Host, data: seq<Field>, x: Value, y: Value, z: Value, isEqualAllowed: bool)
    requires !z.Undefined?
    ensures var operator := if isEqualAllowed then AtMost else Less;
            var first := Operate(h, operator, [x, y], data);
            Operate(h, operator, [x, y, z], data) == if first == Ok(Bool(true)) then Operate(h, operator, [y, z], data) else first
  {
    hide IsBefore;
  }

  // ----- Texts -----

  /** `starts_with` of two texts holds when the first is the second and some rest, `ends_with` when it is some head and the second; of anything else both are null. */
  lemma {:induction false} AffixesAnswer(h: Host, data: seq<Field>, rules: seq<Value>, values: seq<Value>)
    requires Give(h, data, rules, values)
    ensures Apply(h, Call("starts_with", rules), data) ==
            Ok(if |values| == 2 && values[0].Str? && values[1].Str? then Bool(exists rest :: values[0].s == values[1].s + rest) else Null)
    ensures Apply(h, Call("ends_with", rules), data) ==
            Ok(if |values| == 2 && values[0].Str? && values[1].Str? then Bool(exists head :: values[0].s == head + values[1].s) else Null)
  {
    CallOperates(h, data, "starts_with", StartsWith, rules, values);
    CallOperates(h, data, "ends_with", EndsWith, rules, values);
    hide Apply, Give, Call, OperatorNamed;
    if |values| == 2 && values[0].Str? && values[1].Str? {
      AffixesAreParts(values[0].s, values[1].s);
    }
  }

  lemma {:induction false} AffixesAreParts(text: string, part: string)
    ensures part <= text <==> exists rest :: text == part + rest
    ensures |part| <= |text| && text[|text| - |part|..] == part <==> exists head :: text == head + part
  {
    if part <= text {
      assert text == part + text[|part|..];
    }
    if |part| <= |text| && text[|text| - |part|..] == part {
      assert text == text[..|text| - |part|] + part;
    }
  }

  lemma {:induction false} IncludesIsInfix(haystack: string, needle: string)
    ensures Includes(haystack, needle) <==> exists head, rest :: haystack == head + needle + rest
  {
    if Includes(haystack, needle) {
      var i :| 0 <= i <= |haystack| && OccursAt(haystack, needle, i);
      assert haystack == haystack[..i] + needle + haystack[i + |needle|..];
    }
    if head, rest :| haystack == head + needle + rest {
      assert OccursAt(haystack, needle, |head|);
    }
  }

  /** `in` a text holds when the needle stands in it somewhere, `in` an array when the engine holds some element the same as the needle, and in nothing else. */
  lemma {:induction false} InAnswers(h: Host, data: seq<Field>, a: Value, b: Value, needle: Value, haystack: Value)
    requires Give(h, data, [a, b], [needle, haystack])
    ensures haystack.Str? && needle.Str? ==>
              Apply(h, Call("in", [a, b]), data) == Ok(Bool(exists head, rest :: haystack.s == head + needle.s + rest))
    ensures haystack.Str? && !needle.Str? ==>
              Apply(h, Call("in", [a, b]), data) ==
              if CannotConvert(needle) then Error(CoercionFailure)
              else Ok(Bool(exists head, rest :: haystack.s == head + h.text(needle) + rest))
    ensures !haystack.Str? ==>
              Apply(h, Call("in", [a, b]), data) ==
              Ok(Bool(haystack.Arr? && exists v :: v in haystack.items && h.isSameValue(v, needle)))
  {
    CallOperates(h, data, "in", In, [a, b], [needle, haystack]);
    hide Apply, CannotConvert;
    if haystack.Str? {
      IncludesIsInfix(haystack.s, if needle.Str? then needle.s else h.text(needle));
    } else if haystack.Arr? {
      SomeElement(h, haystack.items, needle);
    }
  }

  lemma {:induction false} SomeElement(h: Host, items: seq<Value>, needle: Value)
    ensures (exists k :: 0 <= k < |items| && h.isSameValue(items[k], needle)) <==> exists v :: v in items && h.isSameValue(v, needle)
  {
    if k :| 0 <= k < |items| && h.isSameValue(items[k], needle) {
      assert items[k] in items;
    }
  }

  /** The text a value turns into. */
  function TextOf(h: Host, v: Value): string {
    if v.Str? then v.s else h.text(v)
  }

  function TextsOf(h: Host, values: seq<Value>): seq<string> {
    seq(|values|, k requires 0 <= k < |values| => TextOf(h, values[k]))
  }

  /** `cat` joins the texts of its arguments, in order, or stops on one that cannot be converted. */
  lemma {:induction false} CatAnswers(h: Host, data: seq<Field>, rules: seq<Value>, values: seq<Value>)
    requires Give(h, data, rules, values)
    ensures Apply(h, Call("cat", rules), data) ==
            if exists v :: v in values && CannotConvert(v) then Error(CoercionFailure) else Ok(Str(Join(TextsOf(h, values), "")))
  {
    CallOperates(h, data, "cat", Cat, rules, values);
    ConcatenationIsJoin(h, values);
  }

  lemma {:induction false} ConcatenationIsJoin(h: Host, values: seq<Value>)
    ensures Concatenated(h, values) ==
            if exists v :: v in values && CannotConvert(v) then Error(CoercionFailure) else Ok(Join(TextsOf(h, values), ""))
  {
    if values != [] {
      var rest := values[1..];
      ConcatenationIsJoin(h, rest);
      assert TextsOf(h, values)[1..] == TextsOf(h, rest);
      assert forall v :: v in values <==> v == values[0] || v in rest;
      if |values| == 1 {
        assert TextOf(h, values[0]) + "" == TextOf(h, values[0]);
      } else {
        assert TextOf(h, values[0]) + "" + Join(TextsOf(h, rest), "") == TextOf(h, values[0]) + Join(TextsOf(h, rest), "");
      }
    }
  }

  /** What `sem_ver` answers for three values: the first and the third as versions, by the operator named between them. */
  function VersionAnswer(h: Host, actual: Value, operator: Value, target: Value): Value {
    if !operator.Str? then Null
    else
      var matches := SemVer.SemverMatches(TextOf(h, actual), operator.s, TextOf(h, target));
      if matches.None? then Null else Bool(matches.value)
  }

  /** `sem_ver` compares its first and third argument as versions, in that order; other numbers of arguments are null. */
  lemma {:induction false} SemVerAnswers(h: Host, data: seq<Field>, rules: seq<Value>, values: seq<Value>)
    requires Give(h, data, rules, values)
    ensures |values| != 3 ==> Apply(h, Call("sem_ver", rules), data) == Ok(Null)
    ensures |values| == 3 && (CannotConvert(values[0]) || CannotConvert(values[2])) ==>
              Apply(h, Call("sem_ver", rules), data) == Error(CoercionFailure)
    ensures |values| == 3 && !CannotConvert(values[0]) && !CannotConvert(values[2]) ==>
              Apply(h, Call("sem_ver", rules), data) == Ok(VersionAnswer(h, values[0], values[1], values[2]))
  {
    CallOperates(h, data, "sem_ver", SemVerMatch, rules, values);
    assert Operate(h, SemVerMatch, values, data) == SemVerOf(h, values);
    hide Apply, Operate, SemVer.SemverMatches;
  }

  // ----- Variables -----

  /** `var` without a path, or with an empty one, is the whole context. */
  lemma {:induction false} WholeContextAnswers(h: Host, data: seq<Field>, a: Value, path: Value)
    requires Give(h, data, [a], [path]) && path in [Undefined, Null, Str("")]
    ensures Apply(h, Call("var", [a]), data) == Ok(Obj(data))
    ensures Apply(h, Call("var", []), data) == Ok(Obj(data))
  {
    CallOperates(h, data, "var", Var, [a], [path]);
    CallOperates(h, data, "var", Var, [], []);
    hide Apply;
  }

  /** The value at a path; where it leads nowhere the fallback, and null without one. */
  lemma {:induction false} VariableAnswers(h: Host, data: seq<Field>, a: Value, b: Value, path: string, fallback: Value)
    requires Give(h, data, [a, b], [Str(path), fallback]) && path != "" && !fallback.Undefined?
    ensures var found := Reached(h, data, path);
            && Apply(h, Call("var", [a, b]), data) == Ok(if found.Undefined? then fallback else found)
            && Apply(h, Call("var", [a]), data) == Ok(if found.Undefined? then Null else found)
  {
    GivePair(h, data, a, b, Str(path), fallback);
    CallOperates(h, data, "var", Var, [a, b], [Str(path), fallback]);
    CallOperates(h, data, "var", Var, [a], [Str(path)]);
    hide Apply, Follow, Give, Call, OperatorNamed;
  }

  /** A path without dots leads to the context's own field, if it has one. */
  lemma {:induction false} FieldIsReached(h: Host, data: seq<Field>, key: string)
    requires key != "" && '.' !in key && HasOwn(data, key)
    ensures Reached(h, data, key) == Own(data, key)
  {
    SplitPlain(key, '.');
    assert [key][1..] == [];
    assert Follow(h, Obj(data), [key]) == Member(h, Obj(data), key);
  }

  lemma {:induction false} FollowOn(h: Host, v: Value, segments: seq<string>, last: string)
    ensures Follow(h, v, segments + [last]) == Member(h, Follow(h, v, segments), last)
    decreases |segments|
  {
    if segments == [] {
      assert [last][1..] == [] && [] + [last] == [last];
    } else {
      assert (segments + [last])[1..] == segments[1..] + [last];
      FollowOn(h, Member(h, v, segments[0]), segments[1..], last);
    }
  }

  /** A path goes on, past a dot, with an own field of the object it led to, or an element of the array. */
  lemma {:induction false} PathGoesOn(h: Host, data: seq<Field>, path: string, key: string)
    requires path != "" && '.' !in key
    ensures var v := Reached(h, data, path);
            && (v.Obj? && HasOwn(v.fields, key) ==> Reached(h, data, path + "." + key) == Own(v.fields, key))
            && (v.Arr? && SemVer.IsNumber(key) && SemVer.Value(key) < |v.items| ==> Reached(h, data, path + "." + key) == v.items[SemVer.Value(key)])
            && (v.Arr? && key == "length" ==> Reached(h, data, path + "." + key) == Num(|v.items| as real))
            && (!v.Obj? && !v.Arr? ==> Reached(h, data, path + "." + key) == Undefined)
  {
    SplitLast(path, '.', key);
    FollowOn(h, Obj(data), Split(path, '.'), key);
    hide Follow;
  }

  lemma {:induction false} SplitLast(text: string, c: char, last: string)
    requires c !in last
    ensures Split(text + [c] + last, c) == Split(text, c) + [last]
  {
    if text == "" {
      assert [c] + last == "" + [c] + last;
      SplitPlain(last, c);
      assert ([c] + last)[1..] == last;
    } else {
      var s := text + [c] + last;
      assert s[1..] == text[1..] + [c] + last;
      SplitLast(text[1..], c, last);
    }
  }
}
