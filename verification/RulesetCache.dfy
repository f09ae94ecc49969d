/**
 The server provider's cached ruleset: conditional polls against a server that may publish a new document at
 any moment, and the events that tell the application what changed. Each step is one stretch between two awaits.
 */
module RulesetCache {
  import opened Text
  import opened Lists
  import opened JsonLogic
  import opened Ruleset
  import opened Evaluate

  datatype Event = ConfigurationChanged(flagsChanged: seq<string>) | Ready | Stale | NotReady

  datatype Cache = Cache(ruleset: Option<Value>, etag: Option<string>, isDegraded: bool, isPolling: bool, events: seq<Event>)

  datatype Reply = NotModified | Modified(body: Value, etag: Option<string>) | Failed

  // ----- What changed -----

  function Keys(fields: seq<Field>): seq<string> {
    if fields == [] then [] else [fields[0].key] + Keys(fields[1..])
  }

  /** The members of `new Set(keys)`, in the order they were first seen. */
  function Distinct(keys: seq<string>): seq<string> {
    if keys == [] then []
    else
      var earlier, last := Distinct(keys[..|keys| - 1]), keys[|keys| - 1];
      if last in earlier then earlier else earlier + [last]
  }

  function FlagFields(document: Option<Value>): seq<Field> {
    if document.Some? && document.value.Obj? && Own(document.value.fields, "flags").Obj?
    then Own(document.value.fields, "flags").fields
    else []
  }

  function Definition(document: Option<Value>, key: string): Value {
    if HasOwn(FlagFields(document), key) then Own(FlagFields(document), key) else Null
  }

  predicate Differs(json: Value -> string, before: Option<Value>, after: Option<Value>, key: string) {
    json(Definition(before, key)) != json(Definition(after, key))
  }

  function Differing(json: Value -> string, before: Option<Value>, after: Option<Value>, keys: seq<string>): seq<string> {
    if keys == [] then []
    else (if Differs(json, before, after, keys[0]) then [keys[0]] else []) + Differing(json, before, after, keys[1..])
  }

  function ChangedFlags(json: Value -> string, before: Option<Value>, after: Value): seq<string> {
    Differing(json, before, Some(after), Distinct(Keys(FlagFields(before)) + Keys(FlagFields(Some(after)))))
  }

  lemma {:induction false} KeysAreOwn(fields: seq<Field>, key: string)
    ensures key in Keys(fields) <==> HasOwn(fields, key)
  {
    if fields != [] {
      KeysAreOwn(fields[1..], key);
    }
  }

  lemma {:induction false} DistinctIsSet(keys: seq<string>, key: string)
    ensures key in Distinct(keys) <==> key in keys
    ensures IsDistinct(Distinct(keys))
  {
    if keys != [] {
      DistinctIsSet(keys[..|keys| - 1], key);
      assert keys == keys[..|keys| - 1] + [keys[|keys| - 1]];
    }
  }

  lemma {:induction false} DifferingIsFilter(json: Value -> string, before: Option<Value>, after: Option<Value>, keys: seq<string>, key: string)
    ensures key in Differing(json, before, after, keys) <==> key in keys && Differs(json, before, after, key)
  {
    if keys != [] {
      DifferingIsFilter(json, before, after, keys[1..], key);
    }
  }

  lemma {:induction false} DifferingStaysDistinct(json: Value -> string, before: Option<Value>, after: Option<Value>, keys: seq<string>)
    requires IsDistinct(keys)
    ensures IsDistinct(Differing(json, before, after, keys))
  {
    if keys != [] {
      var rest := keys[1..];
      DifferingStaysDistinct(json, before, after, rest);
      DifferingIsFilter(json, before, after, rest, keys[0]);
    }
  }

  /** Exactly the flags whose definitions differ are listed, each once: added, removed and edited ones. */
  lemma {:induction false} ChangedFlagsAreExact(json: Value -> string, before: Option<Value>, after: Value, key: string)
    ensures key in ChangedFlags(json, before, after) <==> Differs(json, before, Some(after), key)
    ensures IsDistinct(ChangedFlags(json, before, after))
  {
    var keys := Keys(FlagFields(before)) + Keys(FlagFields(Some(after)));
    KeysAreOwn(FlagFields(before), key);
    KeysAreOwn(FlagFields(Some(after)), key);
    DistinctIsSet(keys, key);
    DifferingIsFilter(json, before, Some(after), Distinct(keys), key);
    DifferingStaysDistinct(json, before, Some(after), Distinct(keys));
  }

  lemma {:induction false} EntryIsDefinition(flags: seq<Field>, key: string)
    requires AllFlagProblems(flags) == []
    ensures FlagIndex(FlagsOf(flags), key) == IndexOfKey(flags, key)
    ensures HasOwn(flags, key) ==> var i := IndexOfKey(flags, key);
              && IsValidFlag(flags[i].value)
              && FlagsOf(flags)[i].flag == FlagOf(flags[i].value)
  {
    if flags != [] {
      NoProblemsMeansValid(flags[0].key, flags[0].value);
      hide FlagProblems, FlagOf, IsValidFlag, Own, ValidateLogic;
      assert FlagsOf(flags)[1..] == FlagsOf(flags[1..]);
      if flags[0].key != key {
        EntryIsDefinition(flags[1..], key);
      }
    }
  }

  lemma {:induction false} FoundIsDefinition(document: Value, key: string)
    requires ParseRuleset(document).Accepted?
    ensures var d := Definition(Some(document), key);
            && (!d.Null? ==> IsValidFlag(d))
            && FindFlag(ParseRuleset(document).rules, key) == if d.Null? then None else Some(FlagOf(d))
  {
    EntryIsDefinition(FlagFields(Some(document)), key);
  }

  /** At the public entry: a definition that is missing, disabled, or without targeting decides alone. */
  lemma {:induction false} DefinitionsDecide(h: Host, document: Value, key: string, context: seq<Field>, timestamp: real)
    requires ParseRuleset(document).Accepted?
    ensures var d, r := Definition(Some(document), key), ResolveFlag(h, ParseRuleset(document).rules, key, context, timestamp);
            && (d.Null? ==> r.errorCode == Some(FlagNotFound))
            && (!d.Null? ==> d.Obj? && (r.reason == Disabled <==> Own(d.fields, "state") == Str("DISABLED")))
  {
    FoundIsDefinition(document, key);
    var d := Definition(Some(document), key);
    if !d.Null? {
      FlagIsReadAsWritten(d);
    }
    UntargetedFlagsServeTheirDefault(h, ParseRuleset(document).rules, key, context, timestamp);
    if Decision(h, ParseRuleset(document).rules, key, context, timestamp).Some? {
      DecisionsAreServed(h, ParseRuleset(document).rules, key, context, timestamp);
    }
    hide ParseRuleset, Definition, FlagOf, Own, ResolveFlag, Decision, FindFlag;
  }

  /** A flag that a change of rulesets does not announce resolves as before, in every context. */
  lemma {:induction false} UnannouncedFlagsResolveAlike(h: Host, before: Value, after: Value, key: string, context: seq<Field>, timestamp: real)
    requires ParseRuleset(before).Accepted? && ParseRuleset(after).Accepted?
    requires key !in ChangedFlags(h.json, Some(before), after)
    requires var d, e := Definition(Some(before), key), Definition(Some(after), key); h.json(d) == h.json(e) ==> d == e
    ensures ResolveFlag(h, ParseRuleset(before).rules, key, context, timestamp)
         == ResolveFlag(h, ParseRuleset(after).rules, key, context, timestamp)
  {
    hide ParseRuleset, ChangedFlags, Definition, FindFlag, FlagOf, IsValidFlag, Apply, Served, ContextOf, HasTargeting;
    ChangedFlagsAreExact(h.json, Some(before), after, key);
    FoundIsDefinition(before, key);
    FoundIsDefinition(after, key);
  }

  // ----- A poll -----

  /** The ruleset after a reply, or None when the poll failed: unreachable, or an invalid document. */
  function Adopted(c: Cache, reply: Reply): Option<Cache> {
    match reply
    case NotModified => Some(c)
    case Modified(body, tag) => if ParseRuleset(body).Accepted? then Some(c.(ruleset := Some(body), etag := tag)) else None
    case Failed => None
  }

  function Announcement(json: Value -> string, c: Cache, isInitial: bool, reply: Reply): seq<Event> {
    if reply.Modified? && !isInitial && ChangedFlags(json, c.ruleset, reply.body) != []
    then [ConfigurationChanged(ChangedFlags(json, c.ruleset, reply.body))]
    else []
  }

  function EndPoll(json: Value -> string, c: Cache, isInitial: bool, reply: Reply): Cache {
    var adopted := Adopted(c, reply);
    if adopted.Some? then
      adopted.value.(isDegraded := false, isPolling := false,
                     events := c.events + Announcement(json, c, isInitial, reply) + if c.isDegraded then [Ready] else [])
    else if isInitial then c.(isDegraded := c.ruleset.None?, isPolling := false)
    else
      c.(isDegraded := true, isPolling := false,
         events := c.events + if c.isDegraded then [] else if c.ruleset.None? then [NotReady] else [Stale])
  }

  /**
   What the end of a poll changes: nothing held by a failed one, and the announcement of what changed, made exactly
   when a later poll brings a document in which some definition differs.
   */
  lemma {:induction false} PollMeans(json: Value -> string, c: Cache, isInitial: bool, reply: Reply)
    ensures var ended, isServed := EndPoll(json, c, isInitial, reply), reply.NotModified? || (reply.Modified? && ParseRuleset(reply.body).Accepted?);
            && !ended.isPolling && c.events <= ended.events
            && ended.ruleset == (if isServed && reply.Modified? then Some(reply.body) else c.ruleset)
            && ended.etag == (if isServed && reply.Modified? then reply.etag else c.etag)
            && (ended.isDegraded <==> !isServed && (isInitial ==> c.ruleset.None?))
            && forall keys :: ConfigurationChanged(keys) in ended.events[|c.events|..] <==>
                 && isServed && reply.Modified? && !isInitial && keys == ChangedFlags(json, c.ruleset, reply.body)
                 && exists key :: Differs(json, c.ruleset, Some(reply.body), key)
  {
    hide ParseRuleset, Announcement, ChangedFlags, Differs;
    forall keys ensures ConfigurationChanged(keys) in Announcement(json, c, isInitial, reply) <==>
                          && reply.Modified? && !isInitial && keys == ChangedFlags(json, c.ruleset, reply.body)
                          && exists key :: Differs(json, c.ruleset, Some(reply.body), key) {
      if reply.Modified? {
        SomeFlagChanged(json, c.ruleset, reply.body);
      }
      AnnouncementIs(json, c, isInitial, reply, keys);
    }
    var announced := Announcement(json, c, isInitial, reply);
    var added := EndPoll(json, c, isInitial, reply).events[|c.events|..];
    assert Adopted(c, reply).Some? ==> added == announced + if c.isDegraded then [Ready] else [];
  }

  lemma {:induction false} AnnouncementIs(json: Value -> string, c: Cache, isInitial: bool, reply: Reply, keys: seq<string>)
    ensures ConfigurationChanged(keys) in Announcement(json, c, isInitial, reply) <==>
            reply.Modified? && !isInitial && ChangedFlags(json, c.ruleset, reply.body) != [] && keys == ChangedFlags(json, c.ruleset, reply.body)
  {
    hide ChangedFlags;
  }

  lemma {:induction false} SomeFlagChanged(json: Value -> string, before: Option<Value>, after: Value)
    ensures ChangedFlags(json, before, after) != [] <==> exists key :: Differs(json, before, Some(after), key)
  {
    forall key ensures key in ChangedFlags(json, before, after) <==> Differs(json, before, Some(after), key) {
      ChangedFlagsAreExact(json, before, after, key);
    }
    var changed := ChangedFlags(json, before, after);
    hide ChangedFlags, Differs;
    assert changed != [] ==> changed[0] in changed;
  }

  class MoccoProvider {
    const json: Value -> string
    var ruleset: Option<Value>
    var etag: Option<string>
    var isDegraded: bool
    var isPolling: bool
    var events: seq<Event>

    ghost function State(): Cache
      reads this
    {
      Cache(ruleset, etag, isDegraded, isPolling, events)
    }

    constructor (json: Value -> string)
      ensures this.json == json && State() == Cache(None, None, false, false, [])
    {
      this.json := json;
      ruleset, etag, isDegraded, isPolling, events := None, None, false, false, [];
    }

    /** A provider that serves the bootstrap document, if any, until the first poll; None when that document is invalid. */
    static method Create(json: Value -> string, bootstrap: Option<Value>) returns (r: Option<MoccoProvider>)
      ensures r.Some? <==> bootstrap.None? || ParseRuleset(bootstrap.value).Accepted?
      ensures r.Some? ==> fresh(r.value) && r.value.json == json && r.value.State() == Cache(bootstrap, None, false, false, [])
    {
      var provider := new MoccoProvider(json);
      if bootstrap.Some? {
        if !ParseRuleset(bootstrap.value).Accepted? {
          return None;
        }
        provider.ruleset := bootstrap;
      }
      return Some(provider);
    }

    /** A poll up to its request: the tag to send, or None when a poll is already under way. */
    method BeginPoll() returns (request: Option<Option<string>>)
      modifies `isPolling
      ensures request == if old(isPolling) then None else Some(etag)
      ensures isPolling
    {
      if isPolling {
        return None;
      }
      isPolling := true;
      return Some(etag);
    }

    /** A poll from its reply on. */
    method FinishPoll(isInitial: bool, reply: Reply) returns (succeeded: bool)
      modifies this
      ensures State() == EndPoll(json, old(State()), isInitial, reply)
      ensures succeeded <==> Adopted(old(State()), reply).Some?
    {
      hide ParseRuleset, ChangedFlags;
      succeeded := !reply.Failed? && (reply.Modified? ==> ParseRuleset(reply.body).Accepted?);
      if succeeded {
        if reply.Modified? {
          var flagsChanged := ChangedFlags(json, ruleset, reply.body);
          ruleset, etag := Some(reply.body), reply.etag;
          if !isInitial && |flagsChanged| > 0 {
            events := events + [ConfigurationChanged(flagsChanged)];
          }
        }
        if isDegraded {
          isDegraded := false;
          events := events + [Ready];
        }
      } else if isInitial {
        isDegraded := ruleset.None?;
      } else if !isDegraded {
        isDegraded := true;
        events := events + [if ruleset.None? then NotReady else Stale];
      }
      isPolling := false;
    }

    /** The end of `initialize`: it rejects exactly when its poll failed and there is nothing to serve. */
    method FinishInitialize(reply: Reply) returns (rejects: bool)
      modifies this
      ensures State() == EndPoll(json, old(State()), true, reply)
      ensures rejects <==> Adopted(old(State()), reply).None? && ruleset.None?
      ensures rejects <==> ruleset.None? && isDegraded
    {
      var succeeded := FinishPoll(true, reply);
      rejects := !succeeded && ruleset.None?;
    }
  }

  // ----- Runs -----

  datatype Version = Version(document: Value, tag: Option<string>)

  /** The request under way: sent with a tag, then answered from the version the server had. */
  datatype Flight = Idle | Sent(tag: Option<string>) | Answered(tag: Option<string>, reply: Reply, from: Version)

  /** `hasStarted`: the initial poll has begun; `isInitial`: it is the one under way. */
  datatype World = World(cache: Cache, flight: Flight, hasStarted: bool, isInitial: bool, current: Version, published: seq<Version>)

  datatype Step = Publish(version: Version) | Begin | Answer(isFull: bool) | Lose | Finish

  predicate CanStep(w: World, step: Step) {
    match step
    case Publish(_) => true
    case Begin => true
    // A server answers 304 only to the tag of the version it has.
    case Answer(isFull) => w.flight.Sent? && (isFull || (w.flight.tag.Some? && w.flight.tag == w.current.tag))
    case Lose => !w.flight.Idle?
    case Finish => w.flight.Answered?
  }

  function Begun(w: World): World {
    if w.cache.isPolling then w
    else w.(cache := w.cache.(isPolling := true), flight := Sent(w.cache.etag), hasStarted := true, isInitial := !w.hasStarted)
  }

  function Ended(json: Value -> string, w: World, reply: Reply): World {
    w.(cache := EndPoll(json, w.cache, w.isInitial, reply), flight := Idle, isInitial := false)
  }

  function Next(json: Value -> string, w: World, step: Step): World
    requires CanStep(w, step)
  {
    match step
    case Publish(version) => w.(current := version, published := w.published + [version])
    case Begin => Begun(w)
    case Answer(isFull) =>
      var reply := if isFull then Modified(w.current.document, w.current.tag) else NotModified;
      w.(flight := Answered(w.flight.tag, reply, w.current))
    case Lose => Ended(json, w, Reply.Failed)
    case Finish => Ended(json, w, w.flight.reply)
  }

  ghost predicate CanTake(json: Value -> string, w: World, steps: seq<Step>)
    decreases |steps|
  {
    steps == [] || (CanStep(w, steps[0]) && CanTake(json, Next(json, w, steps[0]), steps[1..]))
  }

  ghost function After(json: Value -> string, w: World, steps: seq<Step>): World
    requires CanTake(json, w, steps)
    decreases |steps|
  {
    if steps == [] then w else After(json, Next(json, w, steps[0]), steps[1..])
  }

  ghost predicate IsInitial(w: World) {
    && w.flight == Idle && !w.hasStarted && !w.isInitial
    && w.published == [w.current]
    && w.cache == Cache(w.cache.ruleset, None, false, false, [])
    && (w.cache.ruleset.Some? ==> ParseRuleset(w.cache.ruleset.value).Accepted?)
  }

  /** Equal tags name equal documents. */
  ghost predicate TagsNameDocuments(published: seq<Version>) {
    forall i, j :: 0 <= i < |published| && 0 <= j < |published| && published[i].tag.Some? && published[i].tag == published[j].tag
      ==> published[i].document == published[j].document
  }

  ghost predicate IsCoherent(w: World) {
    && (w.cache.isPolling <==> !w.flight.Idle?)
    && (w.isInitial ==> w.hasStarted)
    && (!w.hasStarted ==> w.flight.Idle?)
    && (w.flight.Idle? ==> !w.isInitial)
    && w.current in w.published
    && (w.cache.ruleset.Some? ==> ParseRuleset(w.cache.ruleset.value).Accepted?)
    && (w.cache.etag.Some? ==> w.cache.ruleset.Some? && Version(w.cache.ruleset.value, w.cache.etag) in w.published)
    && (!w.flight.Idle? ==> w.flight.tag == w.cache.etag)
    && (w.flight.Answered? ==>
          && w.flight.from in w.published
          && match w.flight.reply
             case NotModified => w.flight.tag.Some? && w.flight.from.tag == w.flight.tag
             case Modified(body, tag) => Version(body, tag) == w.flight.from
             case Failed => false)
  }

  lemma {:induction false} StepIsCoherent(json: Value -> string, w: World, step: Step)
    requires IsCoherent(w) && CanStep(w, step)
    ensures IsCoherent(Next(json, w, step))
    ensures w.published <= Next(json, w, step).published
    ensures w.cache.ruleset.Some? ==> Next(json, w, step).cache.ruleset.Some?
    ensures w.cache.events <= Next(json, w, step).cache.events
  {
    hide ParseRuleset, Announcement;
  }

  /** In every state of every run, the tag held is that of the ruleset held, and a ruleset once held is never lost. */
  lemma {:induction false} RunsAreCoherent(json: Value -> string, w: World, steps: seq<Step>)
    requires IsCoherent(w) && CanTake(json, w, steps)
    ensures IsCoherent(After(json, w, steps))
    ensures w.published <= After(json, w, steps).published
    ensures w.cache.ruleset.Some? ==> After(json, w, steps).cache.ruleset.Some?
    ensures w.cache.events <= After(json, w, steps).cache.events
    decreases |steps|
  {
    if steps != [] {
      StepIsCoherent(json, w, steps[0]);
      RunsAreCoherent(json, Next(json, w, steps[0]), steps[1..]);
    }
  }

  /** A poll that ends with the server's answer leaves the answered document, or changes neither field. */
  ghost predicate EndsWithServersDocument(json: Value -> string, w: World)
    requires w.flight.Answered?
  {
    var ended := Next(json, w, Finish).cache;
    if ParseRuleset(w.flight.from.document).Accepted?
    then ended.ruleset == Some(w.flight.from.document) && ended.etag == w.flight.from.tag && !ended.isDegraded
    else (ended.ruleset, ended.etag) == (w.cache.ruleset, w.cache.etag)
  }

  lemma {:induction false} AnswerIsTheServersDocument(json: Value -> string, w: World)
    requires IsCoherent(w) && w.flight.Answered? && TagsNameDocuments(w.published)
    ensures EndsWithServersDocument(json, w)
  {
    hide ParseRuleset, Announcement;
    if w.flight.reply.NotModified? {
      var held := Version(w.cache.ruleset.value, w.cache.etag);
      var i :| 0 <= i < |w.published| && w.published[i] == held;
      var j :| 0 <= j < |w.published| && w.published[j] == w.flight.from;
      assert w.published[i].tag == w.published[j].tag;
    }
  }

  /**
   However publications fall between a poll's request, answer and end, when it ends the provider holds the
   document the server had when it answered, downloaded or not; or, if that document is invalid, what it held before.
   */
  lemma {:induction false} PollsBringTheServersDocument(json: Value -> string, initial: World, steps: seq<Step>)
    requires IsInitial(initial) && CanTake(json, initial, steps)
    requires var w := After(json, initial, steps); w.flight.Answered? && TagsNameDocuments(w.published)
    ensures EndsWithServersDocument(json, After(json, initial, steps))
  {
    hide ParseRuleset, CanTake, After, TagsNameDocuments, EndsWithServersDocument;
    RunsAreCoherent(json, initial, steps);
    AnswerIsTheServersDocument(json, After(json, initial, steps));
  }

  /** The tag hypothesis is needed: let a tag be reused for another document, and a poll keeps the old one. */
  lemma {:induction false} ReusedTagServesOld(json: Value -> string, before: Value, after: Value, tag: string) returns (w: World, steps: seq<Step>)
    requires ParseRuleset(before).Accepted? && ParseRuleset(after).Accepted? && before != after
    ensures IsInitial(w) && CanTake(json, w, steps)
    ensures var end := After(json, w, steps); end.flight == Idle && end.current.document == after && end.cache.ruleset == Some(before) && !end.cache.isDegraded
  {
    hide ParseRuleset, Announcement;
    var first, second := Version(before, Some(tag)), Version(after, Some(tag));
    w := World(Cache(None, None, false, false, []), Idle, false, false, first, [first]);
    steps := [Begin, Answer(true), Finish, Publish(second), Begin, Answer(false), Finish];
    var w1 := Next(json, w, Begin);
    var w2 := Next(json, w1, Answer(true));
    var w3 := Next(json, w2, Finish);
    var w4 := Next(json, w3, Publish(second));
    var w5 := Next(json, w4, Begin);
    var w6 := Next(json, w5, Answer(false));
    var w7 := Next(json, w6, Finish);
    assert CanTake(json, w7, []) && After(json, w7, []) == w7;
    TakeFirst(json, w6, Finish, []);
    TakeFirst(json, w5, Answer(false), [Finish]);
    TakeFirst(json, w4, Begin, [Answer(false), Finish]);
    TakeFirst(json, w3, Publish(second), [Begin, Answer(false), Finish]);
    TakeFirst(json, w2, Finish, [Publish(second), Begin, Answer(false), Finish]);
    TakeFirst(json, w1, Answer(true), [Finish, Publish(second), Begin, Answer(false), Finish]);
    TakeFirst(json, w, Begin, [Answer(true), Finish, Publish(second), Begin, Answer(false), Finish]);
  }

  lemma {:induction false} TakeFirst(json: Value -> string, w: World, step: Step, rest: seq<Step>)
    requires CanStep(w, step) && CanTake(json, Next(json, w, step), rest)
    ensures CanTake(json, w, [step] + rest)
    ensures After(json, w, [step] + rest) == After(json, Next(json, w, step), rest)
  {
    assert ([step] + rest)[1..] == rest;
  }

  // ----- Events -----

  /** Some announcement among the events lists the flag. */
  ghost predicate IsAnnounced(events: seq<Event>, key: string) {
    exists k :: 0 <= k < |events| && events[k].ConfigurationChanged? && key in events[k].flagsChanged
  }

  lemma {:induction false} StepAnnounces(json: Value -> string, w: World, step: Step, key: string)
    requires w.hasStarted && !w.isInitial && CanStep(w, step)
    requires Differs(json, w.cache.ruleset, Next(json, w, step).cache.ruleset, key)
    ensures IsAnnounced(Next(json, w, step).cache.events[|w.cache.events|..], key)
  {
    hide ParseRuleset, ChangedFlags, Definition;
    assert step.Finish? && w.flight.reply.Modified?;
    var body := w.flight.reply.body;
    ChangedFlagsAreExact(json, w.cache.ruleset, body, key);
    var added := Next(json, w, step).cache.events[|w.cache.events|..];
    assert added[0] == ConfigurationChanged(ChangedFlags(json, w.cache.ruleset, body));
  }

  /** After the initial poll has ended, over any stretch of a run: a flag defined differently at the end than at the start was announced between them. */
  lemma {:induction false} ChangesAreAnnounced(json: Value -> string, w: World, steps: seq<Step>, key: string)
    requires IsCoherent(w) && w.hasStarted && !w.isInitial && CanTake(json, w, steps)
    requires Differs(json, w.cache.ruleset, After(json, w, steps).cache.ruleset, key)
    ensures w.cache.events <= After(json, w, steps).cache.events
    ensures IsAnnounced(After(json, w, steps).cache.events[|w.cache.events|..], key)
    decreases |steps|
  {
    hide ParseRuleset, ChangedFlags, Definition;
    RunsAreCoherent(json, w, steps);
    if steps != [] {
      var w', end := Next(json, w, steps[0]), After(json, w, steps);
      StepIsCoherent(json, w, steps[0]);
      var e0, e1, e2 := w.cache.events, w'.cache.events, end.cache.events;
      RunsAreCoherent(json, w', steps[1..]);
      if Differs(json, w'.cache.ruleset, end.cache.ruleset, key) {
        ChangesAreAnnounced(json, w', steps[1..], key);
        var k :| 0 <= k < |e2[|e1|..]| && e2[|e1|..][k].ConfigurationChanged? && key in e2[|e1|..][k].flagsChanged;
        assert e2[|e0|..][k + |e1| - |e0|] == e2[|e1|..][k];
      } else {
        StepAnnounces(json, w, steps[0], key);
        var k :| 0 <= k < |e1[|e0|..]| && e1[|e0|..][k].ConfigurationChanged? && key in e1[|e0|..][k].flagsChanged;
        assert e2[|e0|..][k] == e1[|e0|..][k];
      }
    }
  }

  function StatusEvents(events: seq<Event>): seq<Event> {
    if events == [] then []
    else
      var last := events[|events| - 1];
      StatusEvents(events[..|events| - 1]) + if last.ConfigurationChanged? then [] else [last]
  }

  lemma {:induction false} StatusOfAppended(events: seq<Event>, event: Event)
    ensures StatusEvents(events + [event]) == StatusEvents(events) + if event.ConfigurationChanged? then [] else [event]
  {
    assert (events + [event])[..|events|] == events;
  }

  /** `Ready` and `Stale` take turns, beginning with `Ready` when the provider came up with nothing to serve. */
  ghost predicate TakesTurns(status: seq<Event>, isReadyFirst: bool) {
    forall k :: 0 <= k < |status| ==> status[k] == if (k % 2 == 0) == isReadyFirst then Ready else Stale
  }

  /** Before the initial poll ends nothing was said; afterwards the number of status events tells whether the provider is degraded. */
  ghost predicate IsReported(w: World, isReadyFirst: bool) {
    if !w.hasStarted || w.isInitial then w.cache.events == [] && !w.cache.isDegraded
    else
      && (w.cache.ruleset.None? ==> w.cache.isDegraded)
      && TakesTurns(StatusEvents(w.cache.events), isReadyFirst)
      && (w.cache.isDegraded <==> (|StatusEvents(w.cache.events)| % 2 == 0) == isReadyFirst)
  }

  lemma {:induction false} TurnTaken(status: seq<Event>, isReadyFirst: bool)
    requires TakesTurns(status, isReadyFirst)
    ensures TakesTurns(status + [if (|status| % 2 == 0) == isReadyFirst then Ready else Stale], isReadyFirst)
  {
  }

  /** What the end of a poll adds to the status events. */
  function StatusAdded(c: Cache, isInitial: bool, reply: Reply): seq<Event> {
    if Adopted(c, reply).Some? then (if c.isDegraded then [Ready] else [])
    else if isInitial || c.isDegraded then []
    else [if c.ruleset.None? then NotReady else Stale]
  }

  lemma {:induction false} EndAddsStatus(json: Value -> string, c: Cache, isInitial: bool, reply: Reply)
    ensures StatusEvents(EndPoll(json, c, isInitial, reply).events) == StatusEvents(c.events) + StatusAdded(c, isInitial, reply)
  {
    hide ParseRuleset, ChangedFlags;
    var announcement := Announcement(json, c, isInitial, reply);
    if Adopted(c, reply).Some? {
      if announcement == [] {
        assert c.events + announcement == c.events;
      } else {
        StatusOfAppended(c.events, announcement[0]);
      }
      assert StatusEvents(c.events + announcement) == StatusEvents(c.events);
      assert c.events + announcement + [] == c.events + announcement;
      if c.isDegraded {
        StatusOfAppended(c.events + announcement, Ready);
      }
    } else {
      assert c.events + [] == c.events;
      if !isInitial && !c.isDegraded {
        StatusOfAppended(c.events, StatusAdded(c, isInitial, reply)[0]);
      }
    }
  }

  lemma {:induction false} EndIsReported(json: Value -> string, w: World, reply: Reply, isReadyFirst: bool)
    requires w.hasStarted && IsReported(w, isReadyFirst) && (reply.NotModified? ==> w.cache.ruleset.Some?)
    requires w.isInitial ==> isReadyFirst == Ended(json, w, reply).cache.ruleset.None?
    ensures IsReported(Ended(json, w, reply), isReadyFirst)
  {
    hide ParseRuleset, ChangedFlags, StatusEvents, TakesTurns, Announcement;
    EndAddsStatus(json, w.cache, w.isInitial, reply);
    var status := StatusEvents(w.cache.events);
    if w.isInitial {
      NothingSaid(isReadyFirst);
    } else if StatusAdded(w.cache, false, reply) != [] {
      TurnTaken(status, isReadyFirst);
    }
    assert status + [] == status;
  }

  lemma NothingSaid(isReadyFirst: bool)
    ensures StatusEvents([]) == [] && TakesTurns([], isReadyFirst)
  {
  }

  lemma {:induction false} StepIsReported(json: Value -> string, w: World, step: Step, isReadyFirst: bool)
    requires IsCoherent(w) && CanStep(w, step) && IsReported(w, isReadyFirst)
    requires w.isInitial && !Next(json, w, step).isInitial ==> isReadyFirst == Next(json, w, step).cache.ruleset.None?
    ensures IsReported(Next(json, w, step), isReadyFirst)
  {
    match step
    case Lose => EndIsReported(json, w, Reply.Failed, isReadyFirst);
    case Finish => EndIsReported(json, w, w.flight.reply, isReadyFirst);
    case _ =>
  }

  /** In the run's stretch, the initial poll ends with nothing to serve: it failed, and there was no bootstrap. */
  ghost predicate ComesUpEmpty(json: Value -> string, w: World, steps: seq<Step>)
    requires CanTake(json, w, steps)
    decreases |steps|
  {
    steps != [] &&
    var w' := Next(json, w, steps[0]);
    if w.isInitial && !w'.isInitial then w'.cache.ruleset.None? else ComesUpEmpty(json, w', steps[1..])
  }

  lemma {:induction false} RunsStayReported(json: Value -> string, w: World, steps: seq<Step>, isReadyFirst: bool)
    requires IsCoherent(w) && CanTake(json, w, steps) && IsReported(w, isReadyFirst)
    requires !w.hasStarted || w.isInitial ==> isReadyFirst == ComesUpEmpty(json, w, steps)
    ensures IsReported(After(json, w, steps), isReadyFirst)
    decreases |steps|
  {
    if steps != [] {
      var w' := Next(json, w, steps[0]);
      StepIsCoherent(json, w, steps[0]);
      assert w.isInitial && !w'.isInitial ==> isReadyFirst == w'.cache.ruleset.None?;
      StepIsReported(json, w, steps[0], isReadyFirst);
      assert !w'.hasStarted || w'.isInitial ==> !w.hasStarted || w.isInitial by {
        hide ParseRuleset, EndPoll;
      }
      hide ParseRuleset, IsReported, EndPoll, IsCoherent, CanStep;
      RunsStayReported(json, w', steps[1..], isReadyFirst);
    }
  }

  /**
   In every state of every run: once the initial poll has ended, the provider has said `Ready` and `Stale` in turn, the
   last of them telling whether it is degraded, and it is degraded whenever it has nothing to serve. `NotReady` is never said.
   */
  lemma {:induction false} EventsTellTheStatus(json: Value -> string, initial: World, steps: seq<Step>)
    requires IsInitial(initial) && CanTake(json, initial, steps)
    ensures IsReported(After(json, initial, steps), ComesUpEmpty(json, initial, steps))
  {
    RunsStayReported(json, initial, steps, ComesUpEmpty(json, initial, steps));
  }
}
