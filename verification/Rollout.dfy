/**
 Percentage rollouts as flags use them: the key they hash, the shares they are written with, and the variant they
 serve. Shares are given as values; `Entries` writes them as a rule's entries. The hash's owner is that of `Fractional`.
 */
module Rollout {
  import opened Text
  import opened JsonLogic
  import opened Operators
  import opened Evaluate
  import Fractional
  import Murmur3

  /** A variant with its weight, if one is written. */
  datatype Share = Share(variant: Value, weight: Option<int>)

  function EntryOf(share: Share): Value {
    Arr([share.variant] + if share.weight.None? then [] else [Num(share.weight.value as real)])
  }

  function Entries(shares: seq<Share>): seq<Value> {
    seq(|shares|, k requires 0 <= k < |shares| => EntryOf(shares[k]))
  }

  /** A share weighs what is written, nothing when that is negative, and 1 when nothing is written. */
  function ShareWeights(shares: seq<Share>): seq<nat> {
    seq(|shares|, k requires 0 <= k < |shares| =>
      if shares[k].weight.None? then 1 else if shares[k].weight.value <= 0 then 0 else shares[k].weight.value)
  }

  predicate AreWritable(shares: seq<Share>) {
    forall k :: 0 <= k < |shares| ==>
      shares[k].weight.Some? ==> -MAX_SAFE_INTEGER <= shares[k].weight.value <= MAX_SAFE_INTEGER
  }

  /** The share that owns the key's hash. */
  ghost predicate Serves(h: Host, key: string, shares: seq<Share>, owner: nat) {
    Fractional.Owns(ShareWeights(shares), owner, Murmur3.Hash(h.utf8(key), 0) as nat)
  }

  /** A missing value is given out as null. */
  function GivenOut(v: Value): Value {
    if v.Undefined? then Null else v
  }

  lemma {:induction false} EntriesWeigh(shares: seq<Share>)
    requires AreWritable(shares)
    ensures AreEntries(Entries(shares)) && Weights(Entries(shares)) == ShareWeights(shares)
  {
    var entries := Entries(shares);
    forall k | 0 <= k < |entries| ensures IsEntry(entries[k]) && Weight(entries[k]) == ShareWeights(shares)[k] {
      EntryWeighs(shares[k]);
      assert entries[k] == EntryOf(shares[k]);
    }
    WeightsAt(entries);
  }

  lemma {:induction false} EntryWeighs(share: Share)
    requires share.weight.Some? ==> -MAX_SAFE_INTEGER <= share.weight.value <= MAX_SAFE_INTEGER
    ensures IsEntry(EntryOf(share))
    ensures Weight(EntryOf(share)) == if share.weight.None? then 1 else if share.weight.value <= 0 then 0 else share.weight.value
  {
    if share.weight.Some? {
      assert EntryOf(share).items[1] == Num(share.weight.value as real);
    }
  }

  /** With a written key, `fractional` gives out the variant of the share that owns the key's hash, and null when the weights are refused. */
  lemma {:induction false} WrittenKeyServesOwner(h: Host, data: seq<Field>, rules: seq<Value>, key: string, shares: seq<Share>, owner: nat)
    requires Give(h, data, rules, [Str(key)] + Entries(shares)) && AreWritable(shares)
    ensures Fractional.Allowed(ShareWeights(shares)) && Serves(h, key, shares, owner) ==>
              owner < |shares| && Apply(h, Call("fractional", rules), data) == Ok(GivenOut(shares[owner].variant))
    ensures !Fractional.Allowed(ShareWeights(shares)) ==> Apply(h, Call("fractional", rules), data) == Ok(Null)
  {
    var values, entries := [Str(key)] + Entries(shares), Entries(shares);
    CallOperates(h, data, "fractional", Fraction, rules, values);
    assert values[1..] == entries;
    EntriesWeigh(shares);
    assert FractionalOf(h, values, data) == Ok(Variant(entries, Fractional.Choose(ShareWeights(shares), Murmur3.Hash(h.utf8(key), 0) as nat)));
    hide Apply, FractionalOf, Weights, Murmur3.Hash;
    if Fractional.Allowed(ShareWeights(shares)) && Serves(h, key, shares, owner) {
      Fractional.ChosenOwns(ShareWeights(shares), Murmur3.Hash(h.utf8(key), 0) as nat);
      assert entries[owner] == EntryOf(shares[owner]);
    }
  }

  /** The flag's key in the context's flag properties, empty without one. */
  function FlagKeyOf(data: seq<Field>): string {
    var flagd := Own(data, "$flagd");
    if flagd.Obj? && Own(flagd.fields, "flagKey").Str? then Own(flagd.fields, "flagKey").s else ""
  }

  /** Without a written key, or with null in its place, the flag's key and then the targeting key are the key. */
  lemma {:induction false} ImplicitKeyIsWritten(h: Host, data: seq<Field>, entries: seq<Value>, targetingKey: string)
    requires Own(data, "targetingKey") == Str(targetingKey) && targetingKey != ""
    requires entries != [] && !entries[0].Str? && !entries[0].Null? && !entries[0].Undefined?
    ensures var written := FractionalOf(h, [Str(FlagKeyOf(data) + targetingKey)] + entries, data);
            FractionalOf(h, entries, data) == written && FractionalOf(h, [Null] + entries, data) == written
  {
    assert ([Null] + entries)[1..] == entries;
    assert ([Str(FlagKeyOf(data) + targetingKey)] + entries)[1..] == entries;
    hide AreEntries, Weights, KeyHash, Own;
  }

  /** Without a written key and without a targeting key that is a text and not empty, there is no result. */
  lemma {:induction false} NoKeyServesNothing(h: Host, data: seq<Field>, rules: seq<Value>, values: seq<Value>)
    requires Give(h, data, rules, values) && (values != [] ==> !values[0].Str?)
    requires !Own(data, "targetingKey").Str? || Own(data, "targetingKey") == Str("")
    ensures Apply(h, Call("fractional", rules), data) == Ok(Null)
  {
    CallOperates(h, data, "fractional", Fraction, rules, values);
    hide Apply, Own;
  }

  lemma {:induction false} LaterFieldReads(field: Field, rest: seq<Field>, key: string)
    ensures Own([field] + rest, key) == if field.key == key then field.value else Own(rest, key)
  {
    assert ([field] + rest)[1..] == rest;
  }

  lemma {:induction false} WithPasses(field: Field, rest: seq<Field>, key: string, value: Value)
    ensures With([field] + rest, key, value) == if field.key == key then [Field(key, value)] + rest else [field] + With(rest, key, value)
  {
    assert ([field] + rest)[1..] == rest;
  }

  lemma {:induction false} WithReads(fields: seq<Field>, key: string, value: Value, other: string)
    ensures Own(With(fields, key, value), key) == value
    ensures other != key ==> Own(With(fields, key, value), other) == Own(fields, other)
  {
    if fields == [] {
      assert With([], key, value) == [Field(key, value)] + [];
      LaterFieldReads(Field(key, value), [], key);
      LaterFieldReads(Field(key, value), [], other);
    } else {
      var field, rest := fields[0], fields[1..];
      assert fields == [field] + rest;
      WithPasses(field, rest, key, value);
      WithReads(rest, key, value, other);
      hide Own, With;
      LaterFieldReads(field, rest, other);
      LaterFieldReads(Field(key, value), rest, key);
      LaterFieldReads(Field(key, value), rest, other);
      LaterFieldReads(field, With(rest, key, value), key);
      LaterFieldReads(field, With(rest, key, value), other);
    }
  }

  /** Targeting sees the caller's context, with the flag's own properties in place of whatever is under `$flagd`. */
  lemma {:induction false} ContextReads(key: string, context: seq<Field>, timestamp: real, other: string)
    ensures var data := ContextOf(key, context, timestamp);
            && Own(data, "$flagd") == FlagProperties(key, timestamp)
            && FlagKeyOf(data) == key
            && (other != "$flagd" ==> Own(data, other) == Own(context, other))
  {
    WithReads(context, "$flagd", FlagProperties(key, timestamp), other);
    LaterFieldReads(Field("flagKey", Str(key)), [Field("timestamp", Num(timestamp))], "flagKey");
    assert FlagProperties(key, timestamp).fields == [Field("flagKey", Str(key))] + [Field("timestamp", Num(timestamp))];
    hide Own;
  }

  function FlagProperties(key: string, timestamp: real): Value {
    Obj([Field("flagKey", Str(key)), Field("timestamp", Num(timestamp))])
  }

  lemma PropertiesHave(key: string, timestamp: real)
    ensures var fields := FlagProperties(key, timestamp).fields;
            && HasOwn(fields, "flagKey") && Own(fields, "flagKey") == Str(key)
            && HasOwn(fields, "timestamp") && Own(fields, "timestamp") == Num(timestamp)
  {
    LaterFieldReads(Field("flagKey", Str(key)), [Field("timestamp", Num(timestamp))], "flagKey");
    LaterFieldReads(Field("flagKey", Str(key)), [Field("timestamp", Num(timestamp))], "timestamp");
    LaterFieldReads(Field("timestamp", Num(timestamp)), [], "timestamp");
    var fields := FlagProperties(key, timestamp).fields;
    assert fields == [Field("flagKey", Str(key))] + [Field("timestamp", Num(timestamp))];
    assert [Field("timestamp", Num(timestamp))] == [Field("timestamp", Num(timestamp))] + [];
    OwnedIsThere(fields, "flagKey");
    OwnedIsThere(fields, "timestamp");
    hide Own, HasOwn;
  }

  lemma {:induction false} OwnedIsThere(fields: seq<Field>, key: string)
    ensures Own(fields, key) != Undefined ==> HasOwn(fields, key)
  {
  }

  lemma {:induction false} PropertyIsReached(h: Host, data: seq<Field>, properties: seq<Field>, name: string)
    requires Own(data, "$flagd") == Obj(properties) && '.' !in name && HasOwn(properties, name)
    ensures Reached(h, data, "$flagd" + "." + name) == Own(properties, name)
  {
    OwnedIsThere(data, "$flagd");
    hide Own, HasOwn, Reached;
    FieldIsReached(h, data, "$flagd");
    PathGoesOn(h, data, "$flagd", name);
  }

  /** A rule reads the flag's key and the time, whatever the caller's context is. */
  lemma FlagPropertiesAreRead(h: Host, key: string, context: seq<Field>, timestamp: real)
    ensures Reached(h, ContextOf(key, context, timestamp), "$flagd" + "." + "flagKey") == Str(key)
    ensures Reached(h, ContextOf(key, context, timestamp), "$flagd" + "." + "timestamp") == Num(timestamp)
  {
    hide ContextOf, Own, HasOwn, Reached;
    ContextReads(key, context, timestamp, "$flagd");
    PropertiesHave(key, timestamp);
    var data, properties := ContextOf(key, context, timestamp), FlagProperties(key, timestamp).fields;
    PropertyIsReached(h, data, properties, "flagKey");
    PropertyIsReached(h, data, properties, "timestamp");
  }

  lemma {:induction false} GiveMore(h: Host, data: seq<Field>, rule: Value, value: Value, rules: seq<Value>, values: seq<Value>)
    requires Apply(h, rule, data) == Ok(value) && Give(h, data, rules, values)
    ensures Give(h, data, [rule] + rules, [value] + values)
  {
    hide Apply;
  }

  /**
   The usual rollout of a flag: entries without a written key, resolved for a user. Of the flag's key followed by
   the user's targeting key, the share that owns the hash is served.
   */
  lemma {:induction false} FlagRolloutServesOwner(h: Host, key: string, context: seq<Field>, timestamp: real, targetingKey: string,
                                                  rules: seq<Value>, shares: seq<Share>, owner: nat)
    requires Give(h, ContextOf(key, context, timestamp), rules, Entries(shares)) && AreWritable(shares) && shares != []
    requires Own(context, "targetingKey") == Str(targetingKey) && targetingKey != ""
    requires Fractional.Allowed(ShareWeights(shares)) && Serves(h, key + targetingKey, shares, owner)
    ensures owner < |shares|
    ensures Apply(h, Call("fractional", rules), ContextOf(key, context, timestamp)) == Ok(GivenOut(shares[owner].variant))
  {
    var data, entries := ContextOf(key, context, timestamp), Entries(shares);
    ContextReads(key, context, timestamp, "targetingKey");
    assert entries[0] == EntryOf(shares[0]);
    ImplicitKeyIsWritten(h, data, entries, targetingKey);
    OperatesFractional(h, data, entries);
    CallOperates(h, data, "fractional", Fraction, rules, entries);
    // The same entries, with the key written.
    var name := Str(key + targetingKey);
    LiteralIsItself(h, name, data);
    GiveMore(h, data, name, name, rules, entries);
    CallOperates(h, data, "fractional", Fraction, [name] + rules, [name] + entries);
    OperatesFractional(h, data, entries);
    OperatesFractional(h, data, [name] + entries);
    hide Apply, FractionalOf, ContextOf, Serves, Entries, Give, Operate, OperatorNamed, Own;
    WrittenKeyServesOwner(h, data, [name] + rules, key + targetingKey, shares, owner);
  }

  lemma {:induction false} OperatesFractional(h: Host, data: seq<Field>, values: seq<Value>)
    ensures OperatorNamed("fractional") == Some(Eagerly(Fraction))
    ensures Operate(h, Fraction, values, data) == FractionalOf(h, values, data)
  {
    hide FractionalOf;
  }

  /** An integer that numbers hold exactly. */
  predicate IsWeight(v: Value) {
    v.Num? && v.n == v.n.Floor as real && -9007199254740991 <= v.n.Floor <= 9007199254740991
  }

  predicate IsMalformed(entry: Value) {
    !entry.Arr? || entry.items == [] || (|entry.items| > 1 && !entry.items[1].Undefined? && !IsWeight(entry.items[1]))
  }

  lemma {:induction false} MalformedIsNoEntry(entries: seq<Value>)
    ensures AreEntries(entries) <==> forall entry :: entry in entries ==> !IsMalformed(entry)
  {
    forall k | 0 <= k < |entries| ensures IsEntry(entries[k]) <==> !IsMalformed(entries[k]) {
    }
    hide IsEntry, IsMalformed;
    if forall entry :: entry in entries ==> !IsMalformed(entry) {
      forall k | 0 <= k < |entries| ensures IsEntry(entries[k]) {
        assert entries[k] in entries;
      }
    }
  }

  /** The rollout stops exactly when some entry is no `[variant, weight?]`, or its weight no integer that numbers hold exactly. */
  lemma {:induction false} MalformedEntryStops(h: Host, data: seq<Field>, rules: seq<Value>, key: string, entries: seq<Value>)
    requires Give(h, data, rules, [Str(key)] + entries)
    ensures Apply(h, Call("fractional", rules), data).Error? <==> exists entry :: entry in entries && IsMalformed(entry)
  {
    var values := [Str(key)] + entries;
    OperatesFractional(h, data, values);
    CallOperates(h, data, "fractional", Fraction, rules, values);
    assert values[1..] == entries;
    MalformedIsNoEntry(entries);
    hide Apply, Operate, Weights, Fractional.Choose, KeyHash, Variant, AreEntries, IsMalformed;
  }
}
