/** The structural check of a flag document before a provider uses it. */
module Ruleset {
  import opened Text
  import opened JsonLogic

  datatype Flag = Flag(isEnabled: bool, variants: seq<Field>, defaultVariant: Option<string>, targeting: Value)
  datatype FlagEntry = FlagEntry(key: string, flag: Flag)
  datatype Rules = Rules(flags: seq<FlagEntry>)

  datatype RulesetProblem =
    | NoFlags
    | BadMetadata
    | NotAnObject(key: string)
    | BadState(key: string)
    | NoVariants(key: string)
    | UnknownDefault(key: string)
    | BadFlagMetadata(key: string)
    | BadTargeting(key: string, problem: Problem)

  datatype RulesetCheck = Accepted(rules: Rules) | Refused(problems: seq<RulesetProblem>)

  predicate IsPrimitive(v: Value) {
    v.Str? || v.Num? || v.Bool?
  }

  predicate IsPrimitiveRecord(v: Value) {
    v.Obj? && forall k :: 0 <= k < |v.fields| ==> IsPrimitive(v.fields[k].value)
  }

  predicate IsState(v: Value) {
    v == Str("ENABLED") || v == Str("DISABLED")
  }

  predicate HasVariants(variants: Value) {
    variants.Obj? && variants.fields != []
  }

  predicate IsKnownVariant(variants: Value, name: Value) {
    name.Str? && variants.Obj? && HasOwn(variants.fields, name.s)
  }

  function TargetingProblems(key: string, problems: seq<Problem>): seq<RulesetProblem> {
    if problems == [] then [] else [BadTargeting(key, problems[0])] + TargetingProblems(key, problems[1..])
  }

  function When(isProblem: bool, problem: RulesetProblem): seq<RulesetProblem> {
    if isProblem then [problem] else []
  }

  /** The problems of one flag, in the order they are reported. */
  function FlagProblems(key: string, flag: Value): seq<RulesetProblem> {
    if !flag.Obj? then [NotAnObject(key)]
    else
      var variants, name := Own(flag.fields, "variants"), Own(flag.fields, "defaultVariant");
      var targeting, metadata := Own(flag.fields, "targeting"), Own(flag.fields, "metadata");
      When(!IsState(Own(flag.fields, "state")), BadState(key))
      + When(!HasVariants(variants), NoVariants(key))
      + When(!name.Null? && !IsKnownVariant(variants, name), UnknownDefault(key))
      + When(!metadata.Undefined? && !IsPrimitiveRecord(metadata), BadFlagMetadata(key))
      + if targeting.Undefined? then []
        else TargetingProblems(key, ValidateLogic(targeting, [Key("flags"), Key(key), Key("targeting")]))
  }

  /** The check as it runs, pushing onto one list. */
  method FlagErrors(key: string, flag: Value) returns (errors: seq<RulesetProblem>)
    ensures errors == FlagProblems(key, flag)
  {
    hide Own, IsState, HasVariants, IsKnownVariant, IsPrimitiveRecord, ValidateLogic, TargetingProblems;
    if !flag.Obj? {
      return [NotAnObject(key)];
    }
    var state, variants, name := Own(flag.fields, "state"), Own(flag.fields, "variants"), Own(flag.fields, "defaultVariant");
    var metadata, targeting := Own(flag.fields, "metadata"), Own(flag.fields, "targeting");
    errors := [];
    if !IsState(state) {
      errors := errors + [BadState(key)];
    }
    ghost var first := When(!IsState(state), BadState(key));
    assert errors == first;
    if !HasVariants(variants) {
      errors := errors + [NoVariants(key)];
    }
    ghost var second := first + When(!HasVariants(variants), NoVariants(key));
    assert errors == second;
    if !name.Null? && !IsKnownVariant(variants, name) {
      errors := errors + [UnknownDefault(key)];
    }
    ghost var third := second + When(!name.Null? && !IsKnownVariant(variants, name), UnknownDefault(key));
    assert errors == third;
    if !metadata.Undefined? && !IsPrimitiveRecord(metadata) {
      errors := errors + [BadFlagMetadata(key)];
    }
    assert errors == third + When(!metadata.Undefined? && !IsPrimitiveRecord(metadata), BadFlagMetadata(key));
    if !targeting.Undefined? {
      errors := errors + TargetingProblems(key, ValidateLogic(targeting, [Key("flags"), Key(key), Key("targeting")]));
    }
  }

  function AllFlagProblems(flags: seq<Field>): seq<RulesetProblem> {
    if flags == [] then [] else FlagProblems(flags[0].key, flags[0].value) + AllFlagProblems(flags[1..])
  }

  /** A checked flag, as the evaluator reads it. */
  function FlagOf(flag: Value): Flag
    requires flag.Obj? && Own(flag.fields, "variants").Obj?
  {
    var name := Own(flag.fields, "defaultVariant");
    Flag(Own(flag.fields, "state") == Str("ENABLED"),
         Own(flag.fields, "variants").fields,
         if name.Str? then Some(name.s) else None,
         Own(flag.fields, "targeting"))
  }

  function FlagsOf(flags: seq<Field>): (entries: seq<FlagEntry>)
    requires AllFlagProblems(flags) == []
    ensures |entries| == |flags|
  {
    if flags == [] then []
    else
      NoProblemsMeansValid(flags[0].key, flags[0].value);
      [FlagEntry(flags[0].key, FlagOf(flags[0].value))] + FlagsOf(flags[1..])
  }

  function ParseRuleset(document: Value): RulesetCheck {
    if !document.Obj? || !Own(document.fields, "flags").Obj? then Refused([NoFlags])
    else
      var metadata, flags := Own(document.fields, "metadata"), Own(document.fields, "flags").fields;
      var problems := When(!metadata.Undefined? && !IsPrimitiveRecord(metadata), BadMetadata) + AllFlagProblems(flags);
      if problems == [] then Accepted(Rules(FlagsOf(flags))) else Refused(problems)
  }

  /** What the check demands of one flag. */
  predicate IsValidFlag(flag: Value) {
    && flag.Obj?
    && Own(flag.fields, "state") in [Str("ENABLED"), Str("DISABLED")]
    && (var variants, name := Own(flag.fields, "variants"), Own(flag.fields, "defaultVariant");
        variants.Obj? && |variants.fields| > 0 && (name.Null? || (name.Str? && HasOwn(variants.fields, name.s))))
    && IsValidMetadata(Own(flag.fields, "metadata"))
    && WellFormed(Own(flag.fields, "targeting"))
  }

  /** Absent, or an object of texts, numbers and booleans. */
  predicate IsValidMetadata(metadata: Value) {
    metadata.Undefined? ||
    (metadata.Obj? && forall field :: field in metadata.fields ==> field.value.Str? || field.value.Num? || field.value.Bool?)
  }

  predicate IsValidDocument(document: Value) {
    && document.Obj? && Own(document.fields, "flags").Obj?
    && IsValidMetadata(Own(document.fields, "metadata"))
    && forall k :: 0 <= k < |Own(document.fields, "flags").fields| ==> IsValidFlag(Own(document.fields, "flags").fields[k].value)
  }

  lemma {:induction false} MetadataIsValid(metadata: Value)
    ensures metadata.Undefined? || IsPrimitiveRecord(metadata) <==> IsValidMetadata(metadata)
  {
    if metadata.Obj? && IsPrimitiveRecord(metadata) {
      forall field | field in metadata.fields ensures IsPrimitive(field.value) {
        var k :| 0 <= k < |metadata.fields| && metadata.fields[k] == field;
      }
    }
    if metadata.Obj? && IsValidMetadata(metadata) {
      forall k | 0 <= k < |metadata.fields| ensures IsPrimitive(metadata.fields[k].value) {
        assert metadata.fields[k] in metadata.fields;
      }
    }
  }

  /** What a flag can be told, by what is wrong with it. */
  predicate IsProblemOf(key: string, flag: Value, problem: RulesetProblem)
    requires flag.Obj?
  {
    var variants, name := Own(flag.fields, "variants"), Own(flag.fields, "defaultVariant");
    var targeting := Own(flag.fields, "targeting");
    match problem
    case BadState(at) => at == key && Own(flag.fields, "state") !in [Str("ENABLED"), Str("DISABLED")]
    case NoVariants(at) => at == key && (!variants.Obj? || variants.fields == [])
    case UnknownDefault(at) => at == key && !name.Null? && !(name.Str? && variants.Obj? && HasOwn(variants.fields, name.s))
    case BadFlagMetadata(at) => at == key && !IsValidMetadata(Own(flag.fields, "metadata"))
    case BadTargeting(at, fault) =>
      at == key && !targeting.Undefined? && fault in ValidateLogic(targeting, [Key("flags"), Key(key), Key("targeting")])
    case _ => false
  }

  /** A flag is told each problem that it has, and no other. */
  lemma {:induction false} ProblemsAreTheFlags(key: string, flag: Value, problem: RulesetProblem)
    ensures problem in FlagProblems(key, flag) <==> if flag.Obj? then IsProblemOf(key, flag, problem) else problem == NotAnObject(key)
  {
    hide Own, ValidateLogic, IsPrimitiveRecord, IsValidMetadata, TargetingProblems, HasOwn;
    if flag.Obj? {
      MetadataIsValid(Own(flag.fields, "metadata"));
      TargetingProblemsAre(key, ValidateLogic(Own(flag.fields, "targeting"), [Key("flags"), Key(key), Key("targeting")]));
    }
  }

  lemma {:induction false} TargetingProblemsAre(key: string, problems: seq<Problem>)
    ensures forall problem :: BadTargeting(key, problem) in TargetingProblems(key, problems) <==> problem in problems
    ensures forall problem :: problem in TargetingProblems(key, problems) ==> problem.BadTargeting? && problem.key == key
  {
    if problems != [] {
      TargetingProblemsAre(key, problems[1..]);
      assert forall problem :: problem in problems <==> problem == problems[0] || problem in problems[1..];
    }
  }

  lemma {:induction false} NoProblemsMeansValid(key: string, flag: Value)
    ensures FlagProblems(key, flag) == [] <==> IsValidFlag(flag)
  {
    if flag.Obj? {
      var targeting := Own(flag.fields, "targeting");
      MetadataIsValid(Own(flag.fields, "metadata"));
      ValidatorFindsAll(targeting, [Key("flags"), Key(key), Key("targeting")]);
      assert targeting.Undefined? ==> WellFormed(targeting);
    }
  }

  lemma {:induction false} FirstFlagThenOthers(flags: seq<Field>)
    ensures AllFlagProblems(flags) ==
            if flags == [] then [] else FlagProblems(flags[0].key, flags[0].value) + AllFlagProblems(flags[1..])
  {
    hide FlagProblems;
  }

  lemma {:induction false} NoProblemsMeansAllValid(flags: seq<Field>)
    ensures AllFlagProblems(flags) == [] <==> forall k :: 0 <= k < |flags| ==> IsValidFlag(flags[k].value)
  {
    hide *;
    FirstFlagThenOthers(flags);
    if flags != [] {
      NoProblemsMeansValid(flags[0].key, flags[0].value);
      NoProblemsMeansAllValid(flags[1..]);
      assert flags == [flags[0]] + flags[1..];
    }
  }

  /** A refused document is told all that is wrong with it: with its metadata, and with each flag. */
  lemma {:induction false} RefusalTellsAll(document: Value)
    ensures ParseRuleset(document) == Refused([NoFlags]) <==> !document.Obj? || !Own(document.fields, "flags").Obj?
    ensures ParseRuleset(document).Refused? && document.Obj? && Own(document.fields, "flags").Obj? ==>
              var flags, problems := Own(document.fields, "flags").fields, ParseRuleset(document).problems;
              forall problem :: problem in problems <==>
                (problem == BadMetadata && !IsValidMetadata(Own(document.fields, "metadata")))
                || exists k :: 0 <= k < |flags| && problem in FlagProblems(flags[k].key, flags[k].value)
  {
    if document.Obj? && Own(document.fields, "flags").Obj? {
      var flags := Own(document.fields, "flags").fields;
      MetadataIsValid(Own(document.fields, "metadata"));
      AllProblemsAreTheFlags(flags);
      assert NoFlags in [NoFlags] && NoFlags !in AllFlagProblems(flags);
    }
    hide FlagProblems, AllFlagProblems, Own, IsPrimitiveRecord, IsValidMetadata;
  }

  lemma {:induction false} AllProblemsAreTheFlags(flags: seq<Field>)
    ensures forall problem :: problem in AllFlagProblems(flags) <==>
              exists k :: 0 <= k < |flags| && problem in FlagProblems(flags[k].key, flags[k].value)
    ensures NoFlags !in AllFlagProblems(flags)
  {
    hide *;
    FirstFlagThenOthers(flags);
    if flags != [] {
      AllProblemsAreTheFlags(flags[1..]);
      NoFlagsIsNoFlagProblem(flags[0].key, flags[0].value);
      assert forall k :: 0 < k < |flags| ==> flags[k] == flags[1..][k - 1];
    }
  }

  lemma {:induction false} NoFlagsIsNoFlagProblem(key: string, flag: Value)
    ensures NoFlags !in FlagProblems(key, flag)
  {
    ProblemsAreTheFlags(key, flag, NoFlags);
    hide FlagProblems;
  }

  /** What every flag of an accepted ruleset satisfies. */
  predicate IsUsable(flag: Flag) {
    && flag.variants != []
    && (flag.defaultVariant.Some? ==> HasOwn(flag.variants, flag.defaultVariant.value))
    && WellFormed(flag.targeting)
  }

  lemma {:induction false} ValidFlagIsUsable(flag: Value)
    requires IsValidFlag(flag)
    ensures IsUsable(FlagOf(flag))
  {
  }

  /** A valid flag is read as it is written: enabled or disabled by its state, with its variants, its default variant if it names one, and its targeting. */
  lemma {:induction false} FlagIsReadAsWritten(flag: Value)
    requires IsValidFlag(flag)
    ensures Own(flag.fields, "state") == Str(if FlagOf(flag).isEnabled then "ENABLED" else "DISABLED")
    ensures Own(flag.fields, "variants") == Obj(FlagOf(flag).variants) && Own(flag.fields, "targeting") == FlagOf(flag).targeting
    ensures Own(flag.fields, "defaultVariant") == if FlagOf(flag).defaultVariant.Some? then Str(FlagOf(flag).defaultVariant.value) else Null
  {
  }

  lemma {:induction false} FlagIsUsable(flags: seq<Field>, k: nat)
    requires AllFlagProblems(flags) == [] && k < |flags|
    ensures FlagsOf(flags)[k].key == flags[k].key && IsUsable(FlagsOf(flags)[k].flag)
  {
    hide FlagProblems, IsUsable, IsValidFlag, FlagOf, Own;
    NoProblemsMeansValid(flags[0].key, flags[0].value);
    ValidFlagIsUsable(flags[0].value);
    if k > 0 {
      FlagIsUsable(flags[1..], k - 1);
    }
  }

  /** A document is accepted exactly when it is valid, and then has its flags, under their keys, all of them usable. */
  lemma {:induction false} AcceptedIffValid(document: Value)
    ensures ParseRuleset(document).Accepted? <==> IsValidDocument(document)
    ensures ParseRuleset(document).Accepted? ==>
              var flags, given := ParseRuleset(document).rules.flags, Own(document.fields, "flags").fields;
              |flags| == |given| && forall k :: 0 <= k < |flags| ==> flags[k].key == given[k].key && IsUsable(flags[k].flag)
  {
    if document.Obj? && Own(document.fields, "flags").Obj? {
      MetadataIsValid(Own(document.fields, "metadata"));
      var flags := Own(document.fields, "flags").fields;
      NoProblemsMeansAllValid(flags);
      if AllFlagProblems(flags) == [] {
        forall k: nat | k < |flags| ensures FlagsOf(flags)[k].key == flags[k].key && IsUsable(FlagsOf(flags)[k].flag) {
          FlagIsUsable(flags, k);
        }
      }
    }
  }
}
