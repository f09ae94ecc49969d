/**
 Flag resolution: which variant a context is served, why, and when the caller's default stands. What targeting
 evaluates to decides for enabled flags that have any; every other flag resolves by its definition alone.
 */
module Evaluate {
  import opened Text
  import opened JsonLogic
  import opened Ruleset

  datatype Reason = Static | Default | TargetingMatch | Disabled | Failed
  datatype ErrorCode = FlagNotFound | ParseError | TypeMismatch | General

  /** Without a `value`, callers get their own default. */
  datatype Resolution = Resolution(value: Option<Value>, variant: Option<string>, reason: Reason, errorCode: Option<ErrorCode>)

  datatype FlagValueType = BooleanType | StringType | NumberType | ObjectType

  function FlagIndex(flags: seq<FlagEntry>, key: string): (i: nat)
    ensures i <= |flags|
    ensures i < |flags| ==> flags[i].key == key
  {
    if flags == [] || flags[0].key == key then 0 else 1 + FlagIndex(flags[1..], key)
  }

  function FindFlag(rules: Rules, key: string): Option<Flag> {
    var i := FlagIndex(rules.flags, key);
    if i < |rules.flags| then Some(rules.flags[i].flag) else None
  }

  predicate HasTargeting(targeting: Value) {
    !targeting.Undefined? && !targeting.Null? && targeting != Obj([])
  }

  function Refusal(errorCode: ErrorCode): Resolution {
    Resolution(None, None, Failed, Some(errorCode))
  }

  function Served(flag: Flag, variant: Option<string>, reason: Reason): Resolution {
    if variant.None? then Resolution(None, None, Default, None)
    else Resolution(Some(Own(flag.variants, variant.value)), variant, reason, None)
  }

  /** `{ ...fields, [key]: value }` */
  function With(fields: seq<Field>, key: string, value: Value): seq<Field> {
    var i := IndexOfKey(fields, key);
    if i < |fields| then fields[i := Field(key, value)] else fields + [Field(key, value)]
  }

  function ContextOf(key: string, context: seq<Field>, timestamp: real): seq<Field> {
    With(context, "$flagd", Obj([Field("flagKey", Str(key)), Field("timestamp", Num(timestamp))]))
  }

  /** The variant a targeting result names: a string itself, anything else as JSON. */
  function VariantNamed(h: Host, result: Value): string {
    if result.Str? then result.s else h.json(result)
  }

  function ResolveFlag(h: Host, rules: Rules, key: string, context: seq<Field>, timestamp: real): Resolution {
    var found := FindFlag(rules, key);
    if found.None? then Refusal(FlagNotFound)
    else
      var flag := found.value;
      if !flag.isEnabled then Resolution(None, None, Disabled, None)
      else if !HasTargeting(flag.targeting) then Served(flag, flag.defaultVariant, Static)
      else
        var result := Apply(h, flag.targeting, ContextOf(key, context, timestamp));
        if result.Error? then Refusal(ParseError)
        else if result.value.Null? || result.value.Undefined? then Served(flag, flag.defaultVariant, Default)
        else
          var variant := VariantNamed(h, result.value);
          if HasOwn(flag.variants, variant) then Served(flag, Some(variant), TargetingMatch) else Refusal(General)
  }

  predicate IsOfType(v: Value, asked: FlagValueType) {
    match asked
    case BooleanType => v.Bool?
    case StringType => v.Str?
    case NumberType => v.Num?
    case ObjectType => v.Arr? || v.Obj?
  }

  /** A resolution whose value is always there. */
  datatype TypedResolution = TypedResolution(value: Value, variant: Option<string>, reason: Reason, errorCode: Option<ErrorCode>)

  function ResolveTyped(h: Host, rules: Rules, key: string, asked: FlagValueType, defaultValue: Value,
                        context: seq<Field>, timestamp: real): TypedResolution {
    var r := ResolveFlag(h, rules, key, context, timestamp);
    if r.value.None? || r.value.value.Undefined? then TypedResolution(defaultValue, r.variant, r.reason, r.errorCode)
    else if !IsOfType(r.value.value, asked) then TypedResolution(defaultValue, None, Failed, Some(TypeMismatch))
    else TypedResolution(r.value.value, r.variant, r.reason, r.errorCode)
  }

  // ----- Validated rulesets do not go wrong -----

  ghost predicate IsUsableRuleset(rules: Rules) {
    forall k :: 0 <= k < |rules.flags| ==> IsUsable(rules.flags[k].flag)
  }

  lemma {:induction false} FoundIsUsable(rules: Rules, key: string)
    requires IsUsableRuleset(rules) && FindFlag(rules, key).Some?
    ensures IsUsable(FindFlag(rules, key).value)
  {
  }

  lemma {:induction false} ContextStaysPlain(key: string, context: seq<Field>, timestamp: real)
    requires IsPlain(Obj(context))
    ensures IsPlain(Obj(ContextOf(key, context, timestamp)))
  {
    var flagd := Obj([Field("flagKey", Str(key)), Field("timestamp", Num(timestamp))]);
    assert IsPlain(flagd);
    assert "$flagd" != "toString";
  }

  /** A caller's context without an own `toString` anywhere reads without conversion failures. */
  lemma {:induction false} PlainCallersConvert(h: Host, key: string, context: seq<Field>, timestamp: real)
    requires IsPlain(Obj(context)) && InheritsPlain(h)
    ensures ReadsConvert(h, ContextOf(key, context, timestamp))
  {
    ContextStaysPlain(key, context, timestamp);
    PlainContextsConvert(h, ContextOf(key, context, timestamp));
  }

  /** Every variant served is one of the flag's, with that variant's value; a value comes only with its variant. */
  predicate ServesOwnVariant(rules: Rules, key: string, r: Resolution) {
    && (r.value.Some? <==> r.variant.Some?)
    && (r.variant.Some? ==>
          && FindFlag(rules, key).Some?
          && HasOwn(FindFlag(rules, key).value.variants, r.variant.value)
          && r.value == Some(Own(FindFlag(rules, key).value.variants, r.variant.value)))
  }

  /** How the reason, the error code and the flag go together. */
  predicate ExplainsItself(rules: Rules, key: string, r: Resolution) {
    && (r.reason == Failed <==> r.errorCode.Some?)
    && (r.errorCode == Some(FlagNotFound) <==> FindFlag(rules, key).None?)
    && (r.reason == Disabled <==> FindFlag(rules, key).Some? && !FindFlag(rules, key).value.isEnabled)
    && (r.reason in {Static, TargetingMatch} ==> r.variant.Some?)
    && (r.reason in {Disabled, Failed} ==> r.variant.None?)
    && r.errorCode != Some(TypeMismatch)
  }

  /** The targeting result that decides a flag, when its targeting is evaluated at all. */
  function Decision(h: Host, rules: Rules, key: string, context: seq<Field>, timestamp: real): Option<Outcome<Value>> {
    var found := FindFlag(rules, key);
    if found.None? || !found.value.isEnabled || !HasTargeting(found.value.targeting) then None
    else Some(Apply(h, found.value.targeting, ContextOf(key, context, timestamp)))
  }

  lemma {:induction false} UsableFlagsServeTheirVariants(h: Host, rules: Rules, key: string, context: seq<Field>, timestamp: real)
    requires FindFlag(rules, key).Some? ==> IsUsable(FindFlag(rules, key).value)
    ensures var r := ResolveFlag(h, rules, key, context, timestamp); ServesOwnVariant(rules, key, r) && ExplainsItself(rules, key, r)
  {
    hide FindFlag, Apply, Own, HasOwn, WellFormed, ContextOf, HasTargeting, VariantNamed;
  }

  /** Served variants are the flag's own and every reason fits, whatever key, context and engine. */
  lemma {:induction false} AcceptedRulesetsServeTheirVariants(h: Host, document: Value, key: string, context: seq<Field>, timestamp: real)
    requires ParseRuleset(document).Accepted?
    ensures var rules := ParseRuleset(document).rules;
            var r := ResolveFlag(h, rules, key, context, timestamp);
            ServesOwnVariant(rules, key, r) && ExplainsItself(rules, key, r)
  {
    AcceptedIffValid(document);
    var rules := ParseRuleset(document).rules;
    if FindFlag(rules, key).Some? {
      FoundIsUsable(rules, key);
    }
    hide FindFlag, ResolveFlag, IsUsable, ServesOwnVariant, ExplainsItself, ParseRuleset;
    UsableFlagsServeTheirVariants(h, rules, key, context, timestamp);
  }

  /**
   Evaluating an accepted ruleset never meets an unsupported operator. Where reads convert, PARSE_ERROR
   means a malformed `fractional`, and when the flag's fractionals are sound as written it cannot occur.
   */
  lemma {:induction false} AcceptedRulesetsDoNotGoWrong(h: Host, document: Value, key: string, context: seq<Field>, timestamp: real)
    requires ParseRuleset(document).Accepted?
    ensures var rules := ParseRuleset(document).rules;
            var decision := Decision(h, rules, key, context, timestamp);
            && decision != Some(Error(UnsupportedOperator))
            && (ResolveFlag(h, rules, key, context, timestamp).errorCode == Some(ParseError) <==>
                decision.Some? && decision.value.Error?)
            && (ReadsConvert(h, ContextOf(key, context, timestamp)) ==>
                  && (decision.Some? && decision.value.Error? ==> decision == Some(Error(BadFractional)))
                  && (decision.Some? && HasSoundFractionals(FindFlag(rules, key).value.targeting) ==> decision.value.Ok?))
  {
    AcceptedIffValid(document);
    var rules := ParseRuleset(document).rules;
    if FindFlag(rules, key).Some? {
      FoundIsUsable(rules, key);
    }
    hide FindFlag, Decision, ResolveFlag, IsUsable, ParseRuleset, ReadsConvert, HasSoundFractionals;
    UsableFlagsDoNotGoWrong(h, rules, key, context, timestamp);
  }

  lemma {:induction false} UsableFlagsDoNotGoWrong(h: Host, rules: Rules, key: string, context: seq<Field>, timestamp: real)
    requires FindFlag(rules, key).Some? ==> IsUsable(FindFlag(rules, key).value)
    ensures var decision := Decision(h, rules, key, context, timestamp);
            && decision != Some(Error(UnsupportedOperator))
            && (ResolveFlag(h, rules, key, context, timestamp).errorCode == Some(ParseError) <==>
                decision.Some? && decision.value.Error?)
            && (decision.Some? && ReadsConvert(h, ContextOf(key, context, timestamp)) ==>
                  && (decision.value.Error? ==> decision == Some(Error(BadFractional)))
                  && (HasSoundFractionals(FindFlag(rules, key).value.targeting) ==> decision.value.Ok?))
  {
    hide Apply, Own, HasOwn, WellFormed, FindFlag, HasTargeting, ContextOf, ReadsConvert, HasSoundFractionals;
    var decision := Decision(h, rules, key, context, timestamp);
    if decision.Some? {
      var targeting, data := FindFlag(rules, key).value.targeting, ContextOf(key, context, timestamp);
      TrustedRunsAreExpected(AnyContext, h, targeting, data);
      if ReadsConvert(h, data) {
        TrustedRunsAreExpected(ConvertibleContext, h, targeting, data);
        if HasSoundFractionals(targeting) {
          TrustedRunsAreExpected(SoundRule, h, targeting, data);
        }
      }
    }
  }

  // ----- What resolution answers -----

  /** The flag's default: its default variant with that variant's value and the given reason, or the caller's default when it has none. */
  ghost predicate ServesDefault(flag: Flag, r: Resolution, reason: Reason) {
    && r.errorCode == None && r.variant == flag.defaultVariant
    && match flag.defaultVariant
       case None => r.value == None && r.reason == Default
       case Some(name) => r.value == Some(Own(flag.variants, name)) && r.reason == reason
  }

  /** Without targeting a flag serves its default, and a disabled one or an unknown one nothing. */
  lemma {:induction false} UntargetedFlagsServeTheirDefault(h: Host, rules: Rules, key: string, context: seq<Field>, timestamp: real)
    ensures var found, r := FindFlag(rules, key), ResolveFlag(h, rules, key, context, timestamp);
            && (found.None? ==> r == Resolution(None, None, Failed, Some(FlagNotFound)))
            && (found.Some? && !found.value.isEnabled ==> r == Resolution(None, None, Disabled, None))
            && (found.Some? && found.value.isEnabled && found.value.targeting in [Undefined, Null, Obj([])] ==> ServesDefault(found.value, r, Static))
            && (Decision(h, rules, key, context, timestamp).Some? <==>
                found.Some? && found.value.isEnabled && found.value.targeting !in [Undefined, Null, Obj([])])
  {
    hide Apply, Own, HasOwn, FindFlag;
  }

  /**
   A flag whose targeting decides: null serves its default; a name of one of its variants serves exactly that variant, and
   any other name nothing. A text names itself, any other value the text of its JSON.
   */
  lemma {:induction false} DecisionsAreServed(h: Host, rules: Rules, key: string, context: seq<Field>, timestamp: real)
    requires Decision(h, rules, key, context, timestamp).Some?
    ensures var decision, r := Decision(h, rules, key, context, timestamp).value, ResolveFlag(h, rules, key, context, timestamp);
            var flag := FindFlag(rules, key).value;
            match decision
            case Error(_) => r == Resolution(None, None, Failed, Some(ParseError))
            case Ok(v) =>
              if v in [Undefined, Null] then ServesDefault(flag, r, Default)
              else
                var name := if v.Str? then v.s else h.json(v);
                r == if HasOwn(flag.variants, name) then Resolution(Some(Own(flag.variants, name)), Some(name), TargetingMatch, None)
                     else Resolution(None, None, Failed, Some(General))
  {
    hide Apply, Own, HasOwn, FindFlag, ContextOf, HasTargeting;
  }

  /** The value is of the type asked for, as JavaScript has it. */
  ghost predicate Fits(v: Value, asked: FlagValueType) {
    (v.Bool? && asked == BooleanType) || (v.Str? && asked == StringType) || (v.Num? && asked == NumberType)
    || ((v.Arr? || v.Obj?) && asked == ObjectType)
  }

  /** The typed resolution is the untyped one when its value fits; without a value it is the same around the caller's default; a value that does not fit is an error around the default. */
  lemma {:induction false} TypedResolutionMeans(h: Host, rules: Rules, key: string, asked: FlagValueType, defaultValue: Value,
                                                context: seq<Field>, timestamp: real)
    ensures var r := ResolveFlag(h, rules, key, context, timestamp);
            ResolveTyped(h, rules, key, asked, defaultValue, context, timestamp) ==
            if r.value in [None, Some(Undefined)] then TypedResolution(defaultValue, r.variant, r.reason, r.errorCode)
            else if Fits(r.value.value, asked) then TypedResolution(r.value.value, r.variant, r.reason, r.errorCode)
            else TypedResolution(defaultValue, None, Failed, Some(TypeMismatch))
  {
    hide ResolveFlag;
  }

  // ----- Conversions at the public entry -----

  function OneFlagFields(targeting: Value): seq<Field> {
    [Field("state", Str("ENABLED")), Field("variants", Obj([Field("on", Bool(true))])),
     Field("defaultVariant", Str("on")), Field("targeting", targeting)]
  }

  /** A ruleset document of one flag. */
  function OneFlag(key: string, targeting: Value): Value {
    Obj([Field("flags", Obj([Field(key, Obj(OneFlagFields(targeting)))]))])
  }

  lemma {:induction false} SkipsField(field: Field, rest: seq<Field>, key: string)
    ensures field.key == key ==> Own([field] + rest, key) == field.value
    ensures field.key != key ==> Own([field] + rest, key) == Own(rest, key)
  {
    assert ([field] + rest)[1..] == rest;
  }

  lemma {:induction false} OneFlagReads(targeting: Value, key: string)
    ensures Own(OneFlagFields(targeting), key) ==
            if key == "state" then Str("ENABLED")
            else if key == "variants" then Obj([Field("on", Bool(true))])
            else if key == "defaultVariant" then Str("on")
            else if key == "targeting" then targeting
            else Undefined
  {
    var fields := OneFlagFields(targeting);
    assert fields == [fields[0]] + fields[1..] && fields[1..] == [fields[1]] + fields[2..];
    assert fields[2..] == [fields[2]] + fields[3..] && fields[3..] == [fields[3]] + [];
    SkipsField(fields[0], fields[1..], key);
    SkipsField(fields[1], fields[2..], key);
    SkipsField(fields[2], fields[3..], key);
    SkipsField(fields[3], [], key);
  }

  lemma {:induction false} OneFlagIsValid(targeting: Value)
    requires WellFormed(targeting)
    ensures IsValidFlag(Obj(OneFlagFields(targeting)))
    ensures !targeting.Undefined? ==>
              FlagOf(Obj(OneFlagFields(targeting))) == Flag(true, [Field("on", Bool(true))], Some("on"), targeting)
  {
    OneFlagReads(targeting, "state");
    OneFlagReads(targeting, "variants");
    OneFlagReads(targeting, "defaultVariant");
    OneFlagReads(targeting, "targeting");
    OneFlagReads(targeting, "metadata");
    hide WellFormed, OneFlagFields, Own;
    assert HasOwn([Field("on", Bool(true))], "on");
  }

  lemma {:induction false} OneFlagIsAccepted(key: string, targeting: Value)
    requires WellFormed(targeting) && !targeting.Undefined?
    ensures ParseRuleset(OneFlag(key, targeting)).Accepted?
    ensures FindFlag(ParseRuleset(OneFlag(key, targeting)).rules, key)
         == Some(Flag(true, [Field("on", Bool(true))], Some("on"), targeting))
  {
    var document := OneFlag(key, targeting);
    var flags := [Field(key, Obj(OneFlagFields(targeting)))];
    OneFlagIsValid(targeting);
    SkipsField(document.fields[0], [], "flags");
    SkipsField(document.fields[0], [], "metadata");
    assert document.fields == [document.fields[0]] + [];
    hide IsValidFlag, FlagProblems, WellFormed, OneFlagFields, FlagOf, Own, IsPrimitiveRecord;
    AcceptedIffValid(document);
    assert flags[1..] == [];
    assert FlagsOf(flags) == [FlagEntry(key, FlagOf(flags[0].value))] by { NoProblemsMeansAllValid(flags); }
  }

  /** For every engine, key and context: in some accepted document the flag's evaluation stops on a conversion if and only if some path leads to a value that cannot be converted. */
  lemma {:induction false} ConversionStopsSomeFlagIff(h: Host, key: string, context: seq<Field>, timestamp: real)
    ensures (exists document :: ParseRuleset(document).Accepted? &&
               Decision(h, ParseRuleset(document).rules, key, context, timestamp) == Some(Error(CoercionFailure)))
       <==> !ReadsConvert(h, ContextOf(key, context, timestamp))
  {
    var data := ContextOf(key, context, timestamp);
    hide ParseRuleset, Apply, WellFormed, ContextOf;
    if ReadsConvert(h, data) {
      forall document | ParseRuleset(document).Accepted?
        ensures Decision(h, ParseRuleset(document).rules, key, context, timestamp) != Some(Error(CoercionFailure))
      {
        AcceptedRulesetsDoNotGoWrong(h, document, key, context, timestamp);
      }
    } else {
      ConversionStopsSomeRuleIff(h, data);
      var rule :| WellFormed(rule) && Apply(h, rule, data) == Error(CoercionFailure);
      FailingRuleIsTargeting(h, rule, data);
      OneFlagIsAccepted(key, rule);
      assert Decision(h, ParseRuleset(OneFlag(key, rule)).rules, key, context, timestamp) == Some(Error(CoercionFailure));
    }
  }

  lemma {:induction false} WithKeepsKeysDistinct(fields: seq<Field>, key: string, value: Value)
    requires HasDistinctKeys(Obj(fields)) && HasDistinctKeys(value)
    ensures HasDistinctKeys(Obj(With(fields, key, value)))
  {
    KeyIsMissing(fields, key);
  }

  lemma {:induction false} KeyIsMissing(fields: seq<Field>, key: string)
    ensures forall k :: 0 <= k < |fields| && k < IndexOfKey(fields, key) ==> fields[k].key != key
  {
    if fields != [] && fields[0].key != key {
      KeyIsMissing(fields[1..], key);
      assert forall k :: 0 < k < |fields| ==> fields[k] == fields[1..][k - 1];
    }
  }

  /**
   What a caller can check: in some accepted document the flag's evaluation stops on a conversion if and only if
   the context, with the flag properties in it, has an own `toString` where a path leads.
   */
  lemma {:induction false} OwnToStringStopsSomeFlagIff(h: Host, key: string, context: seq<Field>, timestamp: real)
    requires HasDistinctKeys(Obj(context)) && InheritsReadable(h, ContextOf(key, context, timestamp))
    ensures (exists document :: ParseRuleset(document).Accepted? &&
               Decision(h, ParseRuleset(document).rules, key, context, timestamp) == Some(Error(CoercionFailure)))
       <==> !IsReadableContext(ContextOf(key, context, timestamp))
  {
    var flagd := Obj([Field("flagKey", Str(key)), Field("timestamp", Num(timestamp))]);
    assert HasDistinctKeys(flagd);
    WithKeepsKeysDistinct(context, "$flagd", flagd);
    hide ParseRuleset, Decision, ReadsConvert, IsReadableContext, HasDistinctKeys;
    ConversionStopsSomeFlagIff(h, key, context, timestamp);
    ReadsConvertIffReadable(h, ContextOf(key, context, timestamp));
  }

  lemma {:induction false} FailingRuleIsTargeting(h: Host, rule: Value, data: seq<Field>)
    ensures Apply(h, rule, data).Error? ==> HasTargeting(rule)
  {
  }

  /** A flag whose targeting fails in a context resolves to PARSE_ERROR there. */
  lemma {:induction false} FailingTargetingGivesParseError(h: Host, key: string, targeting: Value, context: seq<Field>, timestamp: real)
    requires WellFormed(targeting) && Apply(h, targeting, ContextOf(key, context, timestamp)).Error?
    ensures ParseRuleset(OneFlag(key, targeting)).Accepted?
    ensures ResolveFlag(h, ParseRuleset(OneFlag(key, targeting)).rules, key, context, timestamp) == Refusal(ParseError)
  {
    FailingRuleIsTargeting(h, targeting, ContextOf(key, context, timestamp));
    OneFlagIsAccepted(key, targeting);
    hide ParseRuleset, Apply, ContextOf, WellFormed, FindFlag, OneFlag;
  }

  lemma {:induction false} FirstFieldStays(field: Field, key: string, timestamp: real)
    requires field.key != "$flagd"
    ensures ContextOf(key, [field], timestamp) != [] && ContextOf(key, [field], timestamp)[0] == field
  {
    assert [field][1..] == [];
  }

  /** An accepted document without any `fractional` that answers PARSE_ERROR. */
  lemma {:induction false} OwnToStringGivesParseError(h: Host, timestamp: real)
    ensures var document, context := OneFlag("f", CatOfPath("user")), [Field("user", Obj([Field("toString", Null)]))];
            && ParseRuleset(document).Accepted?
            && ResolveFlag(h, ParseRuleset(document).rules, "f", context, timestamp) == Refusal(ParseError)
  {
    hide ParseRuleset, Apply, ContextOf, WellFormed, ResolveFlag, OneFlag, CatOfPath, HasSoundFractionals;
    var user := Field("user", Obj([Field("toString", Null)]));
    FirstFieldStays(user, "f", timestamp);
    OwnToStringStopsARule(h, ContextOf("f", [user], timestamp));
    FailingTargetingGivesParseError(h, "f", CatOfPath("user"), [user], timestamp);
  }

  /** A typed resolution has the asked type whenever the caller's default has it; a value other than the default is the served variant's. */
  lemma {:induction false} TypedResolutionsAreTyped(h: Host, document: Value, key: string, asked: FlagValueType, defaultValue: Value,
                                                    context: seq<Field>, timestamp: real)
    requires ParseRuleset(document).Accepted?
    ensures var rules := ParseRuleset(document).rules;
            var typed := ResolveTyped(h, rules, key, asked, defaultValue, context, timestamp);
            var untyped := ResolveFlag(h, rules, key, context, timestamp);
            && (IsOfType(defaultValue, asked) ==> IsOfType(typed.value, asked))
            && (typed.value != defaultValue ==> untyped.value == Some(typed.value) && typed.variant == untyped.variant)
            && (typed.errorCode == Some(TypeMismatch) <==>
                untyped.value.Some? && !untyped.value.value.Undefined? && !IsOfType(untyped.value.value, asked))
  {
    AcceptedRulesetsServeTheirVariants(h, document, key, context, timestamp);
  }
}
