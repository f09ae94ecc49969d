/**
 The restricted JsonLogic interpreter that evaluates targeting rules, and its validator. The host's
 conversions (loose equality, `Number`, `String`, UTF-8, inherited members) are parameters.
 */
module JsonLogic {
  import opened Text
  import SemVer
  import Murmur3
  import Fractional

  /** A JavaScript value as rules and contexts hold them. `Undefined` is only ever a missing argument or member. */
  datatype Value =
    | Undefined
    | Null
    | Bool(b: bool)
    | Num(n: real)
    | Str(s: string)
    | Arr(items: seq<Value>)
    | Obj(fields: seq<Field>)
  datatype Field = Field(key: string, value: Value)

  /** What the JavaScript engine decides: conversions and comparisons of values, and members that are not own. */
  datatype Host = Host(
    text: Value -> string,
    isLooselyEqual: (Value, Value) -> bool,
    isNumericallyBefore: (Value, Value, bool) -> bool,
    isTextBefore: (string, string) -> bool,
    isSameValue: (Value, Value) -> bool,
    inherited: (Value, string) -> Value,
    json: Value -> string,
    utf8: string -> seq<bv8>)

  datatype LogicError = UnsupportedOperator | BadFractional | CoercionFailure

  datatype Outcome<+T> = Ok(value: T) | Error(error: LogicError) {
    predicate IsFailure() { Error? }
    function PropagateFailure<U>(): Outcome<U> requires Error? { Error(error) }
    function Extract(): T requires Ok? { value }
  }

  // ----- Values -----

  function IndexOfKey(fields: seq<Field>, key: string): (i: nat)
    ensures i <= |fields|
    ensures i < |fields| ==> fields[i].key == key
  {
    if fields == [] || fields[0].key == key then 0 else 1 + IndexOfKey(fields[1..], key)
  }

  predicate HasOwn(fields: seq<Field>, key: string) {
    IndexOfKey(fields, key) < |fields|
  }

  function Own(fields: seq<Field>, key: string): Value {
    if HasOwn(fields, key) then fields[IndexOfKey(fields, key)].value else Undefined
  }

  /** Truthiness as in JavaScript, except that empty arrays are falsy. */
  predicate IsTruthy(v: Value) {
    match v
    case Undefined => false
    case Null => false
    case Bool(b) => b
    case Num(n) => n != 0.0
    case Str(s) => s != ""
    case Arr(items) => |items| > 0
    case Obj(_) => true
  }

  /**
   Converting the value to a string or number throws: an own `toString`, which is never callable in
   data, hides the inherited one. Arrays convert item by item.
   */
  predicate CannotConvert(v: Value) {
    match v
    case Arr(items) => exists k :: 0 <= k < |items| && CannotConvert(items[k])
    case Obj(fields) => HasOwn(fields, "toString")
    case _ => false
  }

  /** `String(value)` */
  function ToText(h: Host, v: Value): Outcome<string> {
    if v.Str? then Ok(v.s) else if CannotConvert(v) then Error(CoercionFailure) else Ok(h.text(v))
  }

  function Arg(args: seq<Value>, i: nat): Value {
    if i < |args| then args[i] else Undefined
  }

  // ----- Reading variables -----

  /** The key is the decimal of an index into the array. */
  predicate IsIndex(items: seq<Value>, key: string) {
    SemVer.IsNumber(key) && SemVer.Value(key) < |items|
  }

  /** A member by its key: an object's own field, an array's element or length, else what the value inherits. */
  function Member(h: Host, v: Value, key: string): Value {
    match v
    case Obj(fields) => if HasOwn(fields, key) then Own(fields, key) else h.inherited(v, key)
    case Arr(items) =>
      if key == "length" then Num(|items| as real)
      else if IsIndex(items, key) then items[SemVer.Value(key)]
      else h.inherited(v, key)
    case _ => Undefined
  }

  /** Follow a dotted path; Undefined when it leads nowhere. */
  function Follow(h: Host, v: Value, segments: seq<string>): Value
    decreases |segments|
  {
    if segments == [] then v else Follow(h, Member(h, v, segments[0]), segments[1..])
  }

  function ReadVar(h: Host, data: Value, path: Value, fallback: Value): Outcome<Value> {
    if path.Undefined? || path.Null? then Ok(data)
    else
      var text :- ToText(h, path);
      if text == "" then Ok(data)
      else
        var found := Follow(h, data, Split(text, '.'));
        Ok(if found.Undefined? then fallback else found)
  }

  // ----- Fractional -----

  /** The bucketing key and the entries, or None for no result. */
  function FractionalInput(args: seq<Value>, data: seq<Field>): Option<(string, seq<Value>)> {
    if Arg(args, 0).Str? then Some((args[0].s, args[1..]))
    else
      var targetingKey := Own(data, "targetingKey");
      if !targetingKey.Str? || targetingKey.s == "" then None
      else
        var flagd := Own(data, "$flagd");
        var flagKey := if flagd.Obj? && Own(flagd.fields, "flagKey").Str? then Own(flagd.fields, "flagKey").s else "";
        Some((flagKey + targetingKey.s, if args != [] && (args[0].Null? || args[0].Undefined?) then args[1..] else args))
  }

  const MAX_SAFE_INTEGER := 0x1f_ffff_ffff_ffff

  predicate IsSafeInteger(n: real) {
    n == n.Floor as real && -MAX_SAFE_INTEGER <= n.Floor <= MAX_SAFE_INTEGER
  }

  /** `[variant, weight?]` with an integer weight. */
  predicate IsEntry(v: Value) {
    && v.Arr? && v.items != []
    && (Arg(v.items, 1).Undefined? || (v.items[1].Num? && IsSafeInteger(v.items[1].n)))
  }

  predicate AreEntries(entries: seq<Value>) {
    forall k :: 0 <= k < |entries| ==> IsEntry(entries[k])
  }

  /** An entry's weight: 1 by default, and never below 0. */
  function Weight(entry: Value): nat
    requires IsEntry(entry)
  {
    if Arg(entry.items, 1).Undefined? then 1
    else if entry.items[1].n.Floor < 0 then 0
    else entry.items[1].n.Floor
  }

  function Weights(entries: seq<Value>): seq<nat>
    requires AreEntries(entries)
  {
    if entries == [] then [] else [Weight(entries[0])] + Weights(entries[1..])
  }

  function KeyHash(h: Host, key: string): nat {
    Murmur3.Hash(h.utf8(key), 0) as nat
  }

  function Variant(entries: seq<Value>, chosen: Option<nat>): Value {
    if chosen.Some? && chosen.value < |entries| && entries[chosen.value].Arr? && entries[chosen.value].items != [] then
      (var v := entries[chosen.value].items[0]; if v.Undefined? then Null else v)
    else Null
  }

  function FractionalOf(h: Host, args: seq<Value>, data: seq<Field>): Outcome<Value> {
    var input := if args == [] then None else FractionalInput(args, data);
    if input.None? then Ok(Null)
    else if !AreEntries(input.value.1) then Error(BadFractional)
    else Ok(Variant(input.value.1, Fractional.Choose(Weights(input.value.1), KeyHash(h, input.value.0))))
  }

  // ----- The eager operators -----

  function IsBefore(h: Host, left: Value, right: Value, isEqualAllowed: bool): Outcome<bool> {
    if left.Str? && right.Str? then Ok(h.isTextBefore(left.s, right.s) || (isEqualAllowed && left.s == right.s))
    else if CannotConvert(left) || CannotConvert(right) then Error(CoercionFailure)
    else Ok(h.isNumericallyBefore(left, right, isEqualAllowed))
  }

  predicate IsObject(v: Value) {
    v.Arr? || v.Obj?
  }

  /** Loose equality converts an object only to compare it with a boolean, a number or a string. */
  function LooseEquality(h: Host, left: Value, right: Value): Outcome<bool> {
    if || (CannotConvert(left) && (right.Bool? || right.Num? || right.Str?))
       || (CannotConvert(right) && (left.Bool? || left.Num? || left.Str?))
    then Error(CoercionFailure)
    else Ok(h.isLooselyEqual(left, right))
  }

  function Ordered(h: Host, args: seq<Value>, isEqualAllowed: bool): Outcome<Value> {
    var first :- IsBefore(h, Arg(args, 0), Arg(args, 1), isEqualAllowed);
    if Arg(args, 2).Undefined? || !first then Ok(Bool(first))
    else
      var second :- IsBefore(h, Arg(args, 1), Arg(args, 2), isEqualAllowed);
      Ok(Bool(second))
  }

  predicate OccursAt(haystack: string, needle: string, i: nat) {
    i + |needle| <= |haystack| && haystack[i..i + |needle|] == needle
  }

  predicate Includes(haystack: string, needle: string) {
    exists i :: 0 <= i <= |haystack| && OccursAt(haystack, needle, i)
  }

  function Membership(h: Host, needle: Value, haystack: Value): Outcome<Value> {
    if haystack.Str? then
      var text :- ToText(h, needle);
      Ok(Bool(Includes(haystack.s, text)))
    else Ok(Bool(haystack.Arr? && exists k :: 0 <= k < |haystack.items| && h.isSameValue(haystack.items[k], needle)))
  }

  function Concatenated(h: Host, args: seq<Value>): Outcome<string> {
    if args == [] then Ok("")
    else
      var first :- ToText(h, args[0]);
      var rest :- Concatenated(h, args[1..]);
      Ok(first + rest)
  }

  predicate IsStringPair(args: seq<Value>) {
    |args| == 2 && args[0].Str? && args[1].Str?
  }

  function SemVerOf(h: Host, args: seq<Value>): Outcome<Value> {
    if |args| != 3 then Ok(Null)
    else
      var actual :- ToText(h, args[0]);
      var target :- ToText(h, args[2]);
      var matches := if args[1].Str? then SemVer.SemverMatches(actual, args[1].s, target) else None;
      Ok(if matches.None? then Null else Bool(matches.value))
  }

  datatype Eager =
    | Not | Equal | NotEqual | Less | AtMost | Greater | AtLeast
    | In | Var | Cat | StartsWith | EndsWith | SemVerMatch | Fraction
  datatype Operator = If | And | Or | Eagerly(eager: Eager)

  /** The operator a key names: the lazy ones, then the eager table. */
  function OperatorNamed(key: string): Option<Operator> {
    match key
    case "if" => Some(If)
    case "and" => Some(And)
    case "or" => Some(Or)
    case "!" => Some(Eagerly(Not))
    case "==" => Some(Eagerly(Equal))
    case "!=" => Some(Eagerly(NotEqual))
    case "<" => Some(Eagerly(Less))
    case "<=" => Some(Eagerly(AtMost))
    case ">" => Some(Eagerly(Greater))
    case ">=" => Some(Eagerly(AtLeast))
    case "in" => Some(Eagerly(In))
    case "var" => Some(Eagerly(Var))
    case "cat" => Some(Eagerly(Cat))
    case "starts_with" => Some(Eagerly(StartsWith))
    case "ends_with" => Some(Eagerly(EndsWith))
    case "sem_ver" => Some(Eagerly(SemVerMatch))
    case "fractional" => Some(Eagerly(Fraction))
    case _ => None
  }

  function Negated(b: Outcome<bool>): Outcome<Value> {
    if b.Error? then Error(b.error) else Ok(Bool(!b.value))
  }

  function Asserted(b: Outcome<bool>): Outcome<Value> {
    if b.Error? then Error(b.error) else Ok(Bool(b.value))
  }

  function Operate(h: Host, operator: Eager, args: seq<Value>, data: seq<Field>): Outcome<Value> {
    var first, second := Arg(args, 0), Arg(args, 1);
    match operator
    case Not => Ok(Bool(!IsTruthy(first)))
    case Equal => Asserted(LooseEquality(h, first, second))
    case NotEqual => Negated(LooseEquality(h, first, second))
    case Less => Ordered(h, args, false)
    case AtMost => Ordered(h, args, true)
    case Greater => Asserted(IsBefore(h, second, first, false))
    case AtLeast => Asserted(IsBefore(h, second, first, true))
    case In => Membership(h, first, second)
    case Var => ReadVar(h, Obj(data), first, if second.Undefined? then Null else second)
    case Cat =>
      var text := Concatenated(h, args);
      if text.Error? then Error(text.error) else Ok(Str(text.value))
    case StartsWith => Ok(if IsStringPair(args) then Bool(second.s <= first.s) else Null)
    case EndsWith =>
      Ok(if IsStringPair(args) then Bool(|second.s| <= |first.s| && first.s[|first.s| - |second.s|..] == second.s) else Null)
    case SemVerMatch => SemVerOf(h, args)
    case Fraction => FractionalOf(h, args, data)
  }

  // ----- The interpreter -----

  /** The arguments of an operation: its array, or its one argument. */
  function Args(raw: Value): seq<Value> {
    if raw.Arr? then raw.items else [raw]
  }

  /** A single-key object is an operation. */
  predicate IsOperation(rule: Value) {
    rule.Obj? && |rule.fields| == 1
  }

  ghost predicate Below(values: seq<Value>, node: Value) {
    forall k :: 0 <= k < |values| ==> values[k] < node
  }

  function Apply(h: Host, rule: Value, data: seq<Field>): Outcome<Value>
    decreases rule, 1
  {
    if rule.Arr? then
      var values :- ApplyAll(h, rule, rule.items, data);
      Ok(Arr(values))
    else if !IsOperation(rule) then Ok(rule)
    else
      var operator, values := OperatorNamed(rule.fields[0].key), Args(rule.fields[0].value);
      assert rule.fields[0] in rule.fields;
      match operator
      case None => Error(UnsupportedOperator)
      case Some(If) =>
        var taken :- FindTaken(h, rule, values, 0, data);
        if taken.Some? then Apply(h, values[taken.value + 1], data)
        else if |values| % 2 == 1 then Apply(h, values[|values| - 1], data)
        else Ok(Null)
      case Some(Eagerly(eager)) =>
        var args :- ApplyAll(h, rule, values, data);
        Operate(h, eager, args, data)
      case _ =>
        var state :- Reduce(h, rule, values, operator == Some(Or), Progress(false, Null), data);
        Ok(state.value)
  }

  /** Evaluate each value in turn; the first error ends it. */
  function ApplyAll(h: Host, ghost node: Value, values: seq<Value>, data: seq<Field>): (r: Outcome<seq<Value>>)
    requires Below(values, node)
    ensures r.Ok? ==> |r.value| == |values|
    decreases node, 0, |values|
  {
    if values == [] then Ok([])
    else
      var first :- Apply(h, values[0], data);
      var rest :- ApplyAll(h, node, values[1..], data);
      Ok([first] + rest)
  }

  /** The index of the first truthy condition of an `if`, from pair `pair` on. */
  function FindTaken(h: Host, ghost node: Value, values: seq<Value>, pair: nat, data: seq<Field>): (r: Outcome<Option<nat>>)
    requires Below(values, node) && pair <= |values| / 2
    ensures r.Ok? && r.value.Some? ==> r.value.value + 1 < |values|
    decreases node, 0, |values| / 2 - pair
  {
    if pair == |values| / 2 then Ok(None)
    else
      var condition :- Apply(h, values[2 * pair], data);
      if IsTruthy(condition) then Ok(Some(2 * pair)) else FindTaken(h, node, values, pair + 1, data)
  }

  datatype Progress = Progress(isDone: bool, value: Value)

  /** The reduce of `and` and `or`: once done, the rest is skipped. */
  function Reduce(h: Host, ghost node: Value, values: seq<Value>, isOr: bool, state: Progress, data: seq<Field>): Outcome<Progress>
    requires Below(values, node)
    decreases node, 0, |values|
  {
    if values == [] then Ok(state)
    else if state.isDone then Reduce(h, node, values[1..], isOr, state, data)
    else
      var value :- Apply(h, values[0], data);
      Reduce(h, node, values[1..], isOr, Progress(IsTruthy(value) == isOr, value), data)
  }

  function Operation(operator: string, raw: Value): Value {
    Obj([Field(operator, raw)])
  }

  lemma {:induction false} ArgsAreBelow(operator: string, raw: Value)
    ensures Below(Args(raw), Operation(operator, raw))
  {
    var node := Operation(operator, raw);
    assert node.fields[0] in node.fields;
  }

  // ----- The validator -----

  datatype Step = Index(i: nat) | Key(key: string)
  datatype ProblemKind = NotOneOperator | NotAnOperator(operator: string)
  datatype Problem = Problem(path: seq<Step>, kind: ProblemKind)

  function ValidateLogic(rule: Value, path: seq<Step>): seq<Problem>
    decreases rule, 1
  {
    if rule.Arr? then ValidateAll(rule, rule.items, 0, path)
    else if !rule.Obj? || rule.fields == [] then []
    else if |rule.fields| != 1 then [Problem(path, NotOneOperator)]
    else
      var field := rule.fields[0];
      assert field in rule.fields;
      if OperatorNamed(field.key).Some? then ValidateLogic(field.value, path + [Key(field.key)])
      else [Problem(path, NotAnOperator(field.key))]
  }

  function ValidateAll(ghost node: Value, items: seq<Value>, i: nat, path: seq<Step>): seq<Problem>
    requires Below(items, node)
    decreases node, 0, |items|
  {
    if items == [] then []
    else ValidateLogic(items[0], path + [Index(i)]) + ValidateAll(node, items[1..], i + 1, path)
  }

  /** Every object in the rule is empty or a supported operation. */
  predicate WellFormed(rule: Value) {
    match rule
    case Arr(items) => forall k :: 0 <= k < |items| ==> WellFormed(items[k])
    case Obj(fields) => fields == [] || (|fields| == 1 && OperatorNamed(fields[0].key).Some? && WellFormed(fields[0].value))
    case _ => true
  }

  /** The validator finds nothing exactly in the well-formed rules. */
  lemma {:induction false} ValidatorFindsAll(rule: Value, path: seq<Step>)
    ensures ValidateLogic(rule, path) == [] <==> WellFormed(rule)
    decreases rule, 1
  {
    if rule.Arr? {
      ValidatorFindsAllIn(rule, rule.items, 0, path);
    } else if rule.Obj? && |rule.fields| == 1 {
      assert rule.fields[0] in rule.fields;
      ValidatorFindsAll(rule.fields[0].value, path + [Key(rule.fields[0].key)]);
    }
  }

  /** The part of a rule that a problem's path leads to. */
  function NodeAt(rule: Value, path: seq<Step>): Option<Value>
    decreases |path|
  {
    if path == [] then Some(rule)
    else
      match path[0]
      case Index(i) => if rule.Arr? && i < |rule.items| then NodeAt(rule.items[i], path[1..]) else None
      case Key(key) => if IsOperation(rule) && rule.fields[0].key == key then NodeAt(rule.fields[0].value, path[1..]) else None
  }

  /** The problem is that of the node: an object of several keys, or of one key that names no operator. */
  predicate IsFaultOf(kind: ProblemKind, node: Value) {
    node.Obj? &&
    match kind
    case NotOneOperator => |node.fields| > 1
    case NotAnOperator(operator) => |node.fields| == 1 && node.fields[0].key == operator && OperatorNamed(operator).None?
  }

  /** A problem found below `path` leads to the fault it names. */
  predicate PointsAtFault(rule: Value, path: seq<Step>, problem: Problem) {
    path <= problem.path
    && NodeAt(rule, problem.path[|path|..]).Some? && IsFaultOf(problem.kind, NodeAt(rule, problem.path[|path|..]).value)
  }

  /** Every problem the validator reports leads to the faulty object it names. */
  lemma {:induction false} ProblemsPointAtFaults(rule: Value, path: seq<Step>, k: nat)
    requires k < |ValidateLogic(rule, path)|
    ensures PointsAtFault(rule, path, ValidateLogic(rule, path)[k])
    decreases rule, 1
  {
    hide OperatorNamed;
    var problem := ValidateLogic(rule, path)[k];
    if rule.Arr? {
      var i := ItemsPointAtFaults(rule, rule.items, 0, path, k);
      PointsFurther(rule, rule.items[i], path, Index(i), problem);
    } else if rule.Obj? && |rule.fields| == 1 {
      var field := rule.fields[0];
      assert field in rule.fields;
      if OperatorNamed(field.key).Some? {
        ProblemsPointAtFaults(field.value, path + [Key(field.key)], k);
        PointsFurther(rule, field.value, path, Key(field.key), problem);
      } else {
        assert problem.path[|path|..] == [];
      }
    } else {
      assert problem.path[|path|..] == [];
    }
  }

  lemma {:induction false} PointsFurther(rule: Value, part: Value, path: seq<Step>, step: Step, problem: Problem)
    requires NodeAt(rule, [step]) == Some(part) && PointsAtFault(part, path + [step], problem)
    ensures PointsAtFault(rule, path, problem)
  {
    var rest := problem.path[|path| + 1..];
    assert problem.path[|path|..] == [step] + rest;
    assert ([step] + rest)[1..] == rest && [step][1..] == [];
    assert problem.path[|path + [step]|..] == rest;
    assert NodeAt(rule, [step] + rest) == NodeAt(part, rest);
  }

  lemma {:induction false} ItemsPointAtFaults(node: Value, items: seq<Value>, first: nat, path: seq<Step>, k: nat) returns (i: nat)
    requires Below(items, node) && k < |ValidateAll(node, items, first, path)|
    ensures first <= i < first + |items|
    ensures PointsAtFault(items[i - first], path + [Index(i)], ValidateAll(node, items, first, path)[k])
    decreases node, 0, |items|
  {
    var here := ValidateLogic(items[0], path + [Index(first)]);
    if k < |here| {
      ProblemsPointAtFaults(items[0], path + [Index(first)], k);
      i := first;
    } else {
      i := ItemsPointAtFaults(node, items[1..], first + 1, path, k - |here|);
    }
  }

  /** And every fault that supported operations lead to is reported. */
  lemma {:induction false} FaultsAreReported(rule: Value, path: seq<Step>, way: seq<Step>, kind: ProblemKind)
    requires forall k :: 0 <= k < |way| && way[k].Key? ==> OperatorNamed(way[k].key).Some?
    requires NodeAt(rule, way).Some? && IsFaultOf(kind, NodeAt(rule, way).value)
    ensures Problem(path + way, kind) in ValidateLogic(rule, path)
    decreases |way|
  {
    hide OperatorNamed;
    if way == [] {
      assert path + way == path;
    } else {
      var rest := way[1..];
      assert path + [way[0]] + rest == path + way;
      if rule.Arr? {
        FaultsAreReported(rule.items[way[0].i], path + [way[0]], rest, kind);
        ItemIsReported(rule, rule.items, 0, path, way[0].i, Problem(path + way, kind));
      } else {
        FaultsAreReported(rule.fields[0].value, path + [way[0]], rest, kind);
      }
    }
  }

  lemma {:induction false} ItemIsReported(node: Value, items: seq<Value>, first: nat, path: seq<Step>, i: nat, problem: Problem)
    requires Below(items, node) && i < |items|
    requires problem in ValidateLogic(items[i], path + [Index(first + i)])
    ensures problem in ValidateAll(node, items, first, path)
  {
    if i > 0 {
      ItemIsReported(node, items[1..], first + 1, path, i - 1, problem);
    }
  }

  lemma {:induction false} ValidatorFindsAllIn(node: Value, items: seq<Value>, i: nat, path: seq<Step>)
    requires Below(items, node)
    ensures ValidateAll(node, items, i, path) == [] <==> forall k :: 0 <= k < |items| ==> WellFormed(items[k])
    decreases node, 0, |items|
  {
    if items != [] {
      ValidatorFindsAll(items[0], path + [Index(i)]);
      ValidatorFindsAllIn(node, items[1..], i + 1, path);
      if forall k :: 0 <= k < |items[1..]| ==> WellFormed(items[1..][k]) {
        forall k | 0 < k < |items| ensures WellFormed(items[k]) {
          assert items[k] == items[1..][k - 1];
        }
      }
    }
  }

  // ----- Validated rules do not go wrong -----

  /** No object in the value has a `toString` of its own, so every conversion of it succeeds. */
  predicate IsPlain(v: Value) {
    match v
    case Arr(items) => forall k :: 0 <= k < |items| ==> IsPlain(items[k])
    case Obj(fields) => forall k :: 0 <= k < |fields| ==> fields[k].key != "toString" && IsPlain(fields[k].value)
    case _ => true
  }

  /** What plain values inherit is plain. */
  ghost predicate InheritsPlain(h: Host) {
    forall v, key :: IsPlain(v) ==> IsPlain(h.inherited(v, key))
  }

  lemma {:induction false} PlainConverts(v: Value)
    requires IsPlain(v)
    ensures !CannotConvert(v)
  {
    if v.Arr? {
      forall k | 0 <= k < |v.items| ensures !CannotConvert(v.items[k]) {
        PlainConverts(v.items[k]);
      }
    }
  }

  lemma {:induction false} PlainMembers(h: Host, v: Value, segments: seq<string>)
    requires IsPlain(v) && InheritsPlain(h)
    ensures IsPlain(Follow(h, v, segments))
    decreases |segments|
  {
    if segments != [] {
      assert IsPlain(Member(h, v, segments[0]));
      PlainMembers(h, Member(h, v, segments[0]), segments[1..]);
    }
  }

  /** What the variable path leads to. */
  function Reached(h: Host, data: seq<Field>, path: string): Value {
    if path == "" then Obj(data) else Follow(h, Obj(data), Split(path, '.'))
  }

  /** No path leads to a value that cannot be converted: an object with its own `toString`, or an array that holds one. */
  ghost predicate ReadsConvert(h: Host, data: seq<Field>) {
    forall path: string :: !CannotConvert(Reached(h, data, path))
  }

  /** Contexts without an own `toString` anywhere are fine. */
  lemma {:induction false} PlainContextsConvert(h: Host, data: seq<Field>)
    requires IsPlain(Obj(data)) && InheritsPlain(h)
    ensures ReadsConvert(h, data)
  {
    hide CannotConvert;
    forall path: string ensures !CannotConvert(Reached(h, data, path)) {
      PlainMembers(h, Obj(data), Split(path, '.'));
      PlainConverts(Reached(h, data, path));
    }
  }

  /** As JSON has it: no object has a key twice. */
  predicate HasDistinctKeys(v: Value) {
    match v
    case Arr(items) => forall k :: 0 <= k < |items| ==> HasDistinctKeys(items[k])
    case Obj(fields) => AreDistinctFields(fields) && forall k :: 0 <= k < |fields| ==> HasDistinctKeys(fields[k].value)
    case _ => true
  }

  predicate AreDistinctFields(fields: seq<Field>) {
    forall j, k :: 0 <= j < k < |fields| ==> fields[j].key != fields[k].key
  }

  /** No own `toString`, here or wherever a path leads from here: through the elements of arrays and the keys without a dot. */
  predicate IsReadable(v: Value) {
    match v
    case Arr(items) => forall k :: 0 <= k < |items| ==> IsReadable(items[k])
    case Obj(fields) => forall k :: 0 <= k < |fields| ==> fields[k].key != "toString" && ('.' !in fields[k].key ==> IsReadable(fields[k].value))
    case _ => true
  }

  /** The same of what a path leads to from here, apart from the value itself. */
  predicate IsReadableBelow(v: Value) {
    match v
    case Arr(items) => forall k :: 0 <= k < |items| ==> IsReadable(items[k])
    case Obj(fields) => forall k :: 0 <= k < |fields| ==> '.' !in fields[k].key ==> IsReadable(fields[k].value)
    case _ => true
  }

  /** A context that is readable. The empty path is the whole context, so what the empty key holds is reached only through its members. */
  predicate IsReadableContext(data: seq<Field>) {
    forall k :: 0 <= k < |data| ==>
      && data[k].key != "toString"
      && ('.' !in data[k].key ==> if data[k].key == "" then IsReadableBelow(data[k].value) else IsReadable(data[k].value))
  }

  /** The context, and whatever is readable from some value on, inherits nothing that hides `toString`. */
  ghost predicate InheritsReadable(h: Host, data: seq<Field>) {
    forall v, key :: IsReadableBelow(v) || v == Obj(data) ==> IsReadable(h.inherited(v, key))
  }

  predicate LackDots(segments: seq<string>) {
    forall k :: 0 <= k < |segments| ==> '.' !in segments[k]
  }

  lemma {:induction false} OwnField(fields: seq<Field>, k: nat)
    requires k < |fields| && AreDistinctFields(fields)
    ensures HasOwn(fields, fields[k].key) && Own(fields, fields[k].key) == fields[k].value
  {
    if k > 0 {
      OwnField(fields[1..], k - 1);
    }
  }

  lemma {:induction false} ElementIsMember(h: Host, items: seq<Value>, k: nat)
    requires k < |items|
    ensures '.' !in SemVer.Decimal(k) && Member(h, Arr(items), SemVer.Decimal(k)) == items[k]
  {
    SemVer.DecimalDenotes(k);
    assert SemVer.IsDigit(SemVer.Decimal(k)[0]);
  }

  lemma {:induction false} ReadableConverts(v: Value)
    requires IsReadable(v)
    ensures !CannotConvert(v)
  {
    if v.Arr? {
      forall k | 0 <= k < |v.items| ensures !CannotConvert(v.items[k]) {
        ReadableConverts(v.items[k]);
      }
    }
  }

  lemma {:induction false} MemberIsReadable(h: Host, data: seq<Field>, v: Value, key: string)
    requires IsReadableBelow(v) && InheritsReadable(h, data) && '.' !in key
    ensures IsReadable(Member(h, v, key))
  {
    hide IsReadable;
    if v.Obj? && HasOwn(v.fields, key) {
      assert v.fields[IndexOfKey(v.fields, key)].key == key;
    } else if !v.Arr? && !v.Obj? {
      UndefinedIsReadable();
    } else if v.Arr? {
      NumberIsReadable(|v.items| as real);
    }
  }

  lemma UndefinedIsReadable()
    ensures IsReadable(Undefined)
  {
  }

  lemma NumberIsReadable(n: real)
    ensures IsReadable(Num(n))
  {
  }

  lemma {:induction false} ReadableFollows(h: Host, data: seq<Field>, v: Value, segments: seq<string>)
    requires IsReadable(v) && InheritsReadable(h, data) && LackDots(segments)
    ensures IsReadable(Follow(h, v, segments))
    decreases |segments|
  {
    if segments != [] {
      assert IsReadableBelow(v);
      hide IsReadable, IsReadableBelow, Member;
      MemberIsReadable(h, data, v, segments[0]);
      ReadableFollows(h, data, Member(h, v, segments[0]), segments[1..]);
    }
  }

  lemma {:induction false} FirstMemberIsReadable(h: Host, data: seq<Field>, key: string)
    requires IsReadableContext(data) && InheritsReadable(h, data) && '.' !in key
    ensures key != "" ==> IsReadable(Member(h, Obj(data), key))
    ensures IsReadableBelow(Member(h, Obj(data), key))
  {
    if HasOwn(data, key) {
      assert data[IndexOfKey(data, key)].key == key;
    }
  }

  lemma {:induction false} ReadableContextConverts(h: Host, data: seq<Field>, path: string)
    requires IsReadableContext(data) && InheritsReadable(h, data)
    ensures !CannotConvert(Reached(h, data, path))
  {
    if path == "" {
      forall k | 0 <= k < |data| ensures data[k].key != "toString" {}
    } else {
      var segments := Split(path, '.');
      SplitParts(path, '.');
      JoinSplit(path, '.');
      var first := Member(h, Obj(data), segments[0]);
      FirstMemberIsReadable(h, data, segments[0]);
      hide CannotConvert, IsReadable, IsReadableBelow, Member, IsReadableContext, Split;
      assert Reached(h, data, path) == Follow(h, first, segments[1..]);
      if segments[0] != "" {
        ReadableFollows(h, data, first, segments[1..]);
      } else {
        assert segments != [""];
        var second := Member(h, first, segments[1]);
        MemberIsReadable(h, data, first, segments[1]);
        ReadableFollows(h, data, second, segments[2..]);
        assert segments[1..][1..] == segments[2..] && segments[1..][0] == segments[1];
        assert Follow(h, first, segments[1..]) == Follow(h, second, segments[2..]);
      }
      ReadableConverts(Reached(h, data, path));
    }
  }

  /** Some path leads to each object with an own `toString`. */
  lemma {:induction false} PathToOwnToString(h: Host, v: Value) returns (segments: seq<string>)
    requires HasDistinctKeys(v) && !IsReadable(v)
    ensures LackDots(segments) && CannotConvert(Follow(h, v, segments))
    decreases v, 1
  {
    if v.Obj? && exists k :: 0 <= k < |v.fields| && v.fields[k].key == "toString" {
      var k :| 0 <= k < |v.fields| && v.fields[k].key == "toString";
      OwnField(v.fields, k);
      return [];
    }
    segments := PathBelow(h, v);
  }

  lemma {:induction false} PathBelow(h: Host, v: Value) returns (segments: seq<string>)
    requires HasDistinctKeys(v) && !IsReadableBelow(v)
    ensures segments != [] && LackDots(segments) && CannotConvert(Follow(h, v, segments))
    decreases v, 0
  {
    var key: string, inner: Value;
    match v {
      case Arr(items) =>
        var k :| 0 <= k < |items| && !IsReadable(items[k]);
        ElementIsMember(h, items, k);
        key, inner := SemVer.Decimal(k), items[k];
      case Obj(fields) =>
        var k :| 0 <= k < |fields| && '.' !in fields[k].key && !IsReadable(fields[k].value);
        OwnField(fields, k);
        key, inner := fields[k].key, fields[k].value;
    }
    hide IsReadable, IsReadableBelow, Member;
    var rest := PathToOwnToString(h, inner);
    segments := [key] + rest;
    assert segments[1..] == rest;
  }

  lemma {:induction false} PathToUnreadable(h: Host, data: seq<Field>) returns (path: string)
    requires HasDistinctKeys(Obj(data)) && !IsReadableContext(data)
    ensures CannotConvert(Reached(h, data, path))
  {
    var k :| 0 <= k < |data| &&
      (|| data[k].key == "toString"
       || ('.' !in data[k].key && !if data[k].key == "" then IsReadableBelow(data[k].value) else IsReadable(data[k].value)));
    OwnField(data, k);
    if data[k].key == "toString" {
      return "";
    }
    var rest: seq<string>;
    if data[k].key == "" {
      rest := PathBelow(h, data[k].value);
    } else {
      rest := PathToOwnToString(h, data[k].value);
    }
    var segments := [data[k].key] + rest;
    assert segments[1..] == rest;
    path := Join(segments, ".");
    SplitJoin(segments, '.');
  }

  /** For every context: each path leads to something convertible exactly when the context is readable. */
  lemma {:induction false} ReadsConvertIffReadable(h: Host, data: seq<Field>)
    requires HasDistinctKeys(Obj(data)) && InheritsReadable(h, data)
    ensures ReadsConvert(h, data) <==> IsReadableContext(data)
  {
    hide CannotConvert, IsReadableContext, Reached;
    if IsReadableContext(data) {
      forall path: string ensures !CannotConvert(Reached(h, data, path)) {
        ReadableContextConverts(h, data, path);
      }
    } else {
      var path := PathToUnreadable(h, data);
      assert CannotConvert(Reached(h, data, path));
    }
  }

  /** An entry that evaluates to an entry in every context. */
  predicate IsStaticEntry(v: Value) {
    && v.Arr? && v.items != []
    && (|v.items| > 1 ==> v.items[1].Num? && IsSafeInteger(v.items[1].n))
  }

  /** A bucketing value that is a string, or absent, in every context. */
  predicate IsStaticKey(v: Value) {
    v.Str? || v.Null? || (IsOperation(v) && OperatorNamed(v.fields[0].key) == Some(Eagerly(Cat)))
  }

  predicate AreSoundArgs(values: seq<Value>) {
    values == [] ||
    ((IsStaticKey(values[0]) || IsStaticEntry(values[0])) && forall k :: 1 <= k < |values| ==> IsStaticEntry(values[k]))
  }

  /** Every `fractional` in the rule is well formed as it is written. */
  predicate HasSoundFractionals(rule: Value) {
    match rule
    case Arr(items) => forall k :: 0 <= k < |items| ==> HasSoundFractionals(items[k])
    case Obj(fields) =>
      |fields| == 1 ==>
        HasSoundFractionals(fields[0].value) && (OperatorNamed(fields[0].key) == Some(Eagerly(Fraction)) ==> AreSoundArgs(Args(fields[0].value)))
    case _ => true
  }

  /**
   What is known of a run besides that its rule was validated: nothing, that whatever the context's paths
   lead to converts, or also that the rule's fractionals are sound.
   */
  datatype Trust = AnyContext | ConvertibleContext | SoundRule

  ghost predicate Trusted(t: Trust, h: Host, rule: Value, data: seq<Field>) {
    && WellFormed(rule)
    && (t != AnyContext ==> ReadsConvert(h, data))
    && (t == SoundRule ==> HasSoundFractionals(rule))
  }

  ghost predicate AllTrusted(t: Trust, h: Host, values: seq<Value>, data: seq<Field>) {
    && (t != AnyContext ==> ReadsConvert(h, data))
    && forall k :: 0 <= k < |values| ==> Trusted(t, h, values[k], data)
  }

  /** The errors a trusted run may still meet. */
  predicate MayMeet(t: Trust, error: LogicError) {
    error != UnsupportedOperator && (t != AnyContext ==> error == BadFractional) && t != SoundRule
  }

  ghost predicate Expected(t: Trust, outcome: Outcome<Value>) {
    match outcome
    case Ok(v) => t != AnyContext ==> !CannotConvert(v)
    case Error(error) => MayMeet(t, error)
  }

  ghost predicate AllExpected(t: Trust, outcome: Outcome<seq<Value>>) {
    match outcome
    case Ok(values) => t != AnyContext ==> forall k :: 0 <= k < |values| ==> !CannotConvert(values[k])
    case Error(error) => MayMeet(t, error)
  }

  lemma {:induction false} ConcatenatedConverts(h: Host, args: seq<Value>)
    ensures Concatenated(h, args).Error? ==> Concatenated(h, args).error == CoercionFailure
    ensures (forall k :: 0 <= k < |args| ==> !CannotConvert(args[k])) ==> Concatenated(h, args).Ok?
  {
    hide CannotConvert;
    if args != [] {
      ConcatenatedConverts(h, args[1..]);
    }
  }

  /** Only `fractional` rejects arguments that convert. */
  lemma {:induction false} OperateExpected(t: Trust, h: Host, operator: Eager, args: seq<Value>, data: seq<Field>)
    requires operator != Fraction
    requires t != AnyContext ==> ReadsConvert(h, data) && forall k :: 0 <= k < |args| ==> !CannotConvert(args[k])
    ensures Expected(t, Operate(h, operator, args, data))
  {
    ConcatenatedConverts(h, args);
    if t != AnyContext {
      assert !CannotConvert(Arg(args, 0)) && !CannotConvert(Arg(args, 1)) && !CannotConvert(Arg(args, 2));
      if operator == Var {
        assert !CannotConvert(Reached(h, data, ""));
        if ToText(h, Arg(args, 0)).Ok? {
          assert !CannotConvert(Reached(h, data, ToText(h, Arg(args, 0)).value));
        }
      }
    }
  }

  /** `fractional` fails exactly when it has a bucketing key and an entry is malformed; a chosen variant comes from its arguments. */
  lemma {:induction false} FractionalFailsIff(h: Host, args: seq<Value>, data: seq<Field>)
    ensures FractionalOf(h, args, data) == Error(BadFractional) <==>
            args != [] && FractionalInput(args, data).Some? && !AreEntries(FractionalInput(args, data).value.1)
    ensures FractionalOf(h, args, data).Error? ==> FractionalOf(h, args, data) == Error(BadFractional)
    ensures (forall k :: 0 <= k < |args| ==> !CannotConvert(args[k])) && FractionalOf(h, args, data).Ok? ==>
              !CannotConvert(FractionalOf(h, args, data).value)
  {
  }

  lemma {:induction false} WeightsAt(entries: seq<Value>)
    requires AreEntries(entries)
    ensures |Weights(entries)| == |entries|
    ensures forall k :: 0 <= k < |entries| ==> Weights(entries)[k] == Weight(entries[k])
  {
    if entries != [] {
      WeightsAt(entries[1..]);
    }
  }

  /** With a bucketing key and an allowed total weight, `fractional` serves the variant of the entry that owns the key's hash, and never one of weight 0. */
  lemma {:induction false} FractionalServesOwner(h: Host, args: seq<Value>, data: seq<Field>) returns (owner: nat)
    requires args != [] && FractionalInput(args, data).Some? && AreEntries(FractionalInput(args, data).value.1)
    requires Fractional.Allowed(Weights(FractionalInput(args, data).value.1))
    ensures var (key, entries) := FractionalInput(args, data).value;
            && Fractional.Owns(Weights(entries), owner, KeyHash(h, key))
            && owner < |entries| && Weight(entries[owner]) > 0
            && var variant := entries[owner].items[0];
               FractionalOf(h, args, data) == Ok(if variant.Undefined? then Null else variant)
  {
    var (key, entries) := FractionalInput(args, data).value;
    WeightsAt(entries);
    Fractional.ChosenOwns(Weights(entries), KeyHash(h, key));
    owner := Fractional.Pick(Weights(entries), KeyHash(h, key));
  }

  function RolloutEntry(variant: string, weight: int): Value {
    Arr([Str(variant), Num(weight as real)])
  }

  /** A rollout keyed on "a": of variants A, B and C with weight 1, 1 and the given one. */
  function RolloutOnA(weight: nat): seq<Value> {
    [Str("a"), RolloutEntry("A", 1), RolloutEntry("B", 1), RolloutEntry("C", weight)]
  }

  lemma {:induction false} RolloutServes(h: Host, data: seq<Field>, weight: nat)
    requires weight <= MAX_SAFE_INTEGER
    ensures FractionalOf(h, RolloutOnA(weight), data) ==
            Ok(Variant(RolloutOnA(weight)[1..], Fractional.Choose([1, 1, weight], KeyHash(h, "a"))))
  {
    var args := RolloutOnA(weight);
    var entries := args[1..];
    assert entries == [RolloutEntry("A", 1), RolloutEntry("B", 1), RolloutEntry("C", weight)];
    forall k | 0 <= k < |entries| ensures IsEntry(entries[k]) && Weight(entries[k]) == [1, 1, weight][k] {
    }
    WeightsAt(entries);
    assert Weights(entries) == [1, 1, weight];
  }

  /** Raising the weight of C from 1 to 4 moves the key "a" from A to B. */
  lemma {:induction false} RaisingMovesKeyA(h: Host, data: seq<Field>)
    requires h.utf8("a") == [0x61]
    ensures FractionalOf(h, RolloutOnA(1), data) == Ok(Str("A"))
    ensures FractionalOf(h, RolloutOnA(4), data) == Ok(Str("B"))
  {
    Murmur3.HashOfA();
    RolloutServes(h, data, 1);
    RolloutServes(h, data, 4);
    hide FractionalOf;
    Fractional.SixthMoves(KeyHash(h, "a"));
  }

  lemma {:induction false} EvaluatedAt(h: Host, node: Value, values: seq<Value>, data: seq<Field>, k: nat)
    requires Below(values, node) && k < |values|
    ensures ApplyAll(h, node, values, data).Ok? ==> Apply(h, values[k], data) == Ok(ApplyAll(h, node, values, data).value[k])
  {
    if k > 0 {
      EvaluatedAt(h, node, values[1..], data, k - 1);
    }
  }

  lemma {:induction false} StaticEntryEvaluates(h: Host, v: Value, data: seq<Field>)
    requires IsStaticEntry(v)
    ensures Apply(h, v, data).Ok? ==> IsEntry(Apply(h, v, data).value)
  {
    if |v.items| > 1 {
      EvaluatedAt(h, v, v.items, data, 1);
    }
  }

  lemma {:induction false} StaticKeyEvaluates(h: Host, v: Value, data: seq<Field>)
    requires IsStaticKey(v)
    ensures Apply(h, v, data).Ok? ==> Apply(h, v, data).value.Str? || Apply(h, v, data).value.Null?
  {
  }

  lemma {:induction false} SoundFractionalSucceeds(h: Host, node: Value, values: seq<Value>, data: seq<Field>)
    requires Below(values, node) && AreSoundArgs(values)
    ensures ApplyAll(h, node, values, data).Ok? ==> FractionalOf(h, ApplyAll(h, node, values, data).value, data).Ok?
  {
    if ApplyAll(h, node, values, data).Error? {
      return;
    }
    var args := ApplyAll(h, node, values, data).value;
    forall k | 0 <= k < |values| ensures IsStaticEntry(values[k]) ==> IsEntry(args[k]) {
      EvaluatedAt(h, node, values, data, k);
      if IsStaticEntry(values[k]) {
        StaticEntryEvaluates(h, values[k], data);
      }
    }
    if values != [] && IsStaticKey(values[0]) {
      EvaluatedAt(h, node, values, data, 0);
      StaticKeyEvaluates(h, values[0], data);
    }
  }

  lemma {:induction false} ArgsAreTrusted(t: Trust, h: Host, rule: Value, data: seq<Field>)
    requires Trusted(t, h, rule, data) && IsOperation(rule)
    ensures AllTrusted(t, h, Args(rule.fields[0].value), data)
    ensures Below(Args(rule.fields[0].value), rule)
    ensures OperatorNamed(rule.fields[0].key).Some?
  {
    hide OperatorNamed;
    assert rule.fields[0] in rule.fields;
    var raw := rule.fields[0].value;
    assert WellFormed(raw) && (t == SoundRule ==> HasSoundFractionals(raw));
  }

  /**
   A validated rule never meets an operator it does not know; where reads convert only a malformed
   `fractional` stops it; and when its fractionals are sound as written, nothing does.
   */
  lemma {:induction false} TrustedRunsAreExpected(t: Trust, h: Host, rule: Value, data: seq<Field>)
    requires Trusted(t, h, rule, data)
    ensures Expected(t, Apply(h, rule, data))
    decreases rule, 1
  {
    hide OperatorNamed, Operate, MayMeet;
    if rule.Arr? {
      AllTrustedRunsAreExpected(t, h, rule, rule.items, data);
    } else if IsOperation(rule) {
      var operator, values := OperatorNamed(rule.fields[0].key), Args(rule.fields[0].value);
      ArgsAreTrusted(t, h, rule, data);
      match operator
      case Some(If) =>
        TakenIsExpected(t, h, rule, values, 0, data);
        var taken := FindTaken(h, rule, values, 0, data);
        if taken.Ok? {
          var branch := if taken.value.Some? then taken.value.value + 1 else |values| - 1;
          if 0 <= branch {
            TrustedRunsAreExpected(t, h, values[branch], data);
          }
        }
      case Some(Eagerly(eager)) =>
        AllTrustedRunsAreExpected(t, h, rule, values, data);
        if ApplyAll(h, rule, values, data).Ok? {
          EagerIsExpected(t, h, rule, eager, values, data);
        }
      case Some(And) =>
        ReducedIsExpected(t, h, rule, values, false, Progress(false, Null), data);
      case Some(Or) =>
        ReducedIsExpected(t, h, rule, values, true, Progress(false, Null), data);
    }
  }

  lemma {:induction false} EagerIsExpected(t: Trust, h: Host, node: Value, operator: Eager, values: seq<Value>, data: seq<Field>)
    requires Below(values, node) && AllTrusted(t, h, values, data)
    requires t == SoundRule && operator == Fraction ==> AreSoundArgs(values)
    ensures AllExpected(t, ApplyAll(h, node, values, data)) && ApplyAll(h, node, values, data).Ok? ==>
              Expected(t, Operate(h, operator, ApplyAll(h, node, values, data).value, data))
  {
    if !AllExpected(t, ApplyAll(h, node, values, data)) || ApplyAll(h, node, values, data).Error? {
      return;
    }
    var args := ApplyAll(h, node, values, data).value;
    if operator != Fraction {
      OperateExpected(t, h, operator, args, data);
    } else {
      FractionalFailsIff(h, args, data);
      if t == SoundRule {
        SoundFractionalSucceeds(h, node, values, data);
      }
    }
  }

  lemma {:induction false} AllTrustedRunsAreExpected(t: Trust, h: Host, node: Value, values: seq<Value>, data: seq<Field>)
    requires Below(values, node) && AllTrusted(t, h, values, data)
    ensures AllExpected(t, ApplyAll(h, node, values, data))
    decreases node, 0, |values|
  {
    if values != [] {
      TrustedRunsAreExpected(t, h, values[0], data);
      AllTrustedRunsAreExpected(t, h, node, values[1..], data);
    }
  }

  lemma {:induction false} TakenIsExpected(t: Trust, h: Host, node: Value, values: seq<Value>, pair: nat, data: seq<Field>)
    requires Below(values, node) && AllTrusted(t, h, values, data) && pair <= |values| / 2
    ensures var taken := FindTaken(h, node, values, pair, data); taken.Error? ==> MayMeet(t, taken.error)
    decreases node, 0, |values| / 2 - pair
  {
    if pair < |values| / 2 {
      TrustedRunsAreExpected(t, h, values[2 * pair], data);
      TakenIsExpected(t, h, node, values, pair + 1, data);
    }
  }

  lemma {:induction false} ReducedIsExpected(t: Trust, h: Host, node: Value, values: seq<Value>, isOr: bool, state: Progress, data: seq<Field>)
    requires Below(values, node) && AllTrusted(t, h, values, data) && (t != AnyContext ==> !CannotConvert(state.value))
    ensures var reduced := Reduce(h, node, values, isOr, state, data);
            Expected(t, if reduced.Ok? then Ok(reduced.value.value) else Error(reduced.error))
    decreases node, 0, |values|
  {
    if values != [] {
      TrustedRunsAreExpected(t, h, values[0], data);
      var value := Apply(h, values[0], data);
      var next := if state.isDone || value.Error? then state else Progress(IsTruthy(value.value) == isOr, value.value);
      ReducedIsExpected(t, h, node, values[1..], isOr, next, data);
    }
  }

  /** Objects of no key, or of several, stand for themselves. */
  lemma {:induction false} ObjectIsItself(h: Host, v: Value, data: seq<Field>)
    requires v.Obj? && |v.fields| != 1
    ensures Apply(h, v, data) == Ok(v)
  {
  }

  lemma {:induction false} LiteralIsItself(h: Host, v: Value, data: seq<Field>)
    requires !IsObject(v)
    ensures Apply(h, v, data) == Ok(v)
  {
  }

  lemma {:induction false} OneArgument(h: Host, key: string, operator: Eager, raw: Value, data: seq<Field>)
    requires OperatorNamed(key) == Some(Eagerly(operator)) && !raw.Arr?
    ensures Apply(h, raw, data).Ok? ==>
              Apply(h, Operation(key, raw), data) == Operate(h, operator, [Apply(h, raw, data).value], data)
  {
    hide Operate, OperatorNamed;
    if Apply(h, raw, data).Error? {
      return;
    }
    var node := Operation(key, raw);
    ArgsAreBelow(key, raw);
    var value := Apply(h, raw, data).value;
    assert [raw][1..] == [] && [value] + [] == [value];
    assert ApplyAll(h, node, [raw][1..], data) == Ok([]);
    assert ApplyAll(h, node, [raw], data) == Ok([value]);
    assert IsOperation(node) && Args(node.fields[0].value) == [raw];
  }

  lemma {:induction false} PathReads(h: Host, path: string, data: seq<Field>)
    requires !Reached(h, data, path).Undefined?
    ensures Apply(h, Operation("var", Str(path)), data) == Ok(Reached(h, data, path))
  {
    LiteralIsItself(h, Str(path), data);
    OneArgument(h, "var", Var, Str(path), data);
    hide Apply, Follow, CannotConvert;
  }

  /** `cat` of the variable at a path. */
  function CatOfPath(path: string): Value {
    Operation("cat", Operation("var", Str(path)))
  }

  lemma {:induction false} CatOfPathIsWellFormed(path: string)
    ensures WellFormed(CatOfPath(path)) && HasSoundFractionals(CatOfPath(path))
  {
  }

  lemma {:induction false} CatOfPathFails(h: Host, path: string, data: seq<Field>)
    requires CannotConvert(Reached(h, data, path))
    ensures Apply(h, CatOfPath(path), data) == Error(CoercionFailure)
  {
    hide Apply, Reached, CannotConvert;
    var v := Reached(h, data, path);
    ConvertibleAtoms();
    PathReads(h, path, data);
    OneArgument(h, "cat", Cat, Operation("var", Str(path)), data);
    assert [v][1..] == [];
    assert ToText(h, v) == Error(CoercionFailure);
  }

  lemma ConvertibleAtoms()
    ensures forall v :: CannotConvert(v) ==> v.Arr? || v.Obj?
  {
  }

  /** For every engine and context, exactly: some validated rule stops on a conversion if and only if some path leads to a value that cannot be converted. */
  lemma {:induction false} ConversionStopsSomeRuleIff(h: Host, data: seq<Field>)
    ensures (exists rule :: WellFormed(rule) && Apply(h, rule, data) == Error(CoercionFailure)) <==> !ReadsConvert(h, data)
  {
    hide Apply, Reached, CannotConvert, WellFormed;
    if ReadsConvert(h, data) {
      forall rule | WellFormed(rule) ensures Apply(h, rule, data) != Error(CoercionFailure) {
        TrustedRunsAreExpected(ConvertibleContext, h, rule, data);
      }
    } else {
      var path: string :| CannotConvert(Reached(h, data, path));
      CatOfPathFails(h, path, data);
      CatOfPathIsWellFormed(path);
    }
  }

  /** What a caller can check: some validated rule stops on a conversion if and only if the context has an own `toString` where a path leads. */
  lemma {:induction false} OwnToStringStopsSomeRuleIff(h: Host, data: seq<Field>)
    requires HasDistinctKeys(Obj(data)) && InheritsReadable(h, data)
    ensures (exists rule :: WellFormed(rule) && Apply(h, rule, data) == Error(CoercionFailure)) <==> !IsReadableContext(data)
  {
    hide Apply, WellFormed, ReadsConvert, IsReadableContext;
    ConversionStopsSomeRuleIff(h, data);
    ReadsConvertIffReadable(h, data);
  }

  /** Not only a malformed `fractional` stops a validated rule: a context object with its own `toString` cannot be turned into text. */
  lemma {:induction false} OwnToStringStopsARule(h: Host, data: seq<Field>)
    requires data != [] && data[0] == Field("user", Obj([Field("toString", Null)]))
    ensures WellFormed(CatOfPath("user")) && HasSoundFractionals(CatOfPath("user")) && Apply(h, CatOfPath("user"), data) == Error(CoercionFailure)
  {
    hide Apply;
    var user := data[0].value;
    SplitPlain("user", '.');
    assert ["user"][1..] == [];
    assert Follow(h, Obj(data), ["user"]) == user;
    CatOfPathIsWellFormed("user");
    CatOfPathFails(h, "user", data);
  }
}
