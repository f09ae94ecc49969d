/** The evaluation counter: counts held per flag and variant, and the reports handed to `send`. */
module Telemetry {
  import opened Text

  const MAX_ENTRIES := 500

  datatype Evaluation = Evaluation(flag: string, variant: Option<string>)
  datatype EvaluationCount = EvaluationCount(evaluation: Evaluation, count: nat, windowStart: int)

  /** One member of the `counts` object; members keep the order they were added in. */
  datatype Member = Member(id: string, entry: EvaluationCount)

  /** The counter's fields, the reports sent, and every evaluation recorded. */
  datatype Counter = Counter(
    counts: seq<Member>,
    size: nat,
    windowStart: Option<int>,
    sent: seq<seq<EvaluationCount>>,
    recorded: seq<Evaluation>)

  const EMPTY := Counter([], 0, None, [], [])

  /** The key of an evaluation: flag and variant on two lines, no variant being an empty one. */
  function Id(e: Evaluation): string {
    e.flag + "\n" + if e.variant.Some? then e.variant.value else ""
  }

  function IndexOfId(counts: seq<Member>, id: string): (i: nat)
    ensures i <= |counts|
    ensures i < |counts| ==> counts[i].id == id
    ensures forall k :: 0 <= k < i ==> counts[k].id != id
  {
    if counts == [] || counts[0].id == id then 0 else 1 + IndexOfId(counts[1..], id)
  }

  /** `Object.values(counts)` */
  function Entries(counts: seq<Member>): seq<EvaluationCount> {
    if counts == [] then [] else [counts[0].entry] + Entries(counts[1..])
  }

  // ----- The steps -----

  function Emptied(c: Counter): Counter {
    if c.size == 0 then c else Counter([], 0, None, c.sent + [Entries(c.counts)], c.recorded)
  }

  function Counted(c: Counter, e: Evaluation, now: int): Counter {
    var start := if c.windowStart.Some? then c.windowStart.value else now;
    var i := IndexOfId(c.counts, Id(e));
    var counted := c.(windowStart := Some(start), recorded := c.recorded + [e]);
    if i < |c.counts| then
      var entry := c.counts[i].entry;
      counted.(counts := c.counts[i := Member(Id(e), entry.(count := entry.count + 1))])
    else
      var added := counted.(counts := c.counts + [Member(Id(e), EvaluationCount(e, 1, start))], size := c.size + 1);
      if added.size >= MAX_ENTRIES then Emptied(added) else added
  }

  class EvaluationCounter {
    var counts: seq<Member>
    var size: nat
    var windowStart: Option<int>
    var sent: seq<seq<EvaluationCount>>
    ghost var recorded: seq<Evaluation>

    ghost function State(): Counter
      reads this
    {
      Counter(counts, size, windowStart, sent, recorded)
    }

    constructor ()
      ensures State() == EMPTY
    {
      counts, size, windowStart, sent, recorded := [], 0, None, [], [];
    }

    /** Count one evaluation. */
    method Record(flag: string, variant: Option<string>, now: int)
      modifies this
      ensures State() == Counted(old(State()), Evaluation(flag, variant), now)
    {
      recorded := recorded + [Evaluation(flag, variant)];
      if windowStart.None? {
        windowStart := Some(now);
      }
      var id := Id(Evaluation(flag, variant));
      var i := IndexOfId(counts, id);
      if i == |counts| {
        counts := counts + [Member(id, EvaluationCount(Evaluation(flag, variant), 1, windowStart.value))];
        size := size + 1;
        if size >= MAX_ENTRIES {
          Flush();
        }
      } else {
        var current := counts[i].entry;
        counts := counts[i := Member(id, current.(count := current.count + 1))];
      }
    }

    /** Hand what was counted to `send`, whose outcome does not matter. */
    method Flush()
      modifies `counts, `size, `windowStart, `sent
      ensures State() == Emptied(old(State()))
    {
      if size == 0 {
        return;
      }
      sent := sent + [Entries(counts)];
      counts, size, windowStart := [], 0, None;
    }
  }

  // ----- What every state keeps -----

  ghost predicate IsMember(m: Member, windowStart: Option<int>) {
    m.id == Id(m.entry.evaluation) && m.entry.count > 0 && windowStart == Some(m.entry.windowStart)
  }

  /** Between 1 and 500 entries, of one window, no two under one key. */
  ghost predicate IsReport(report: seq<EvaluationCount>) {
    && 1 <= |report| <= 500
    && (forall k :: 0 <= k < |report| ==> report[k].count > 0 && report[k].windowStart == report[0].windowStart)
    && forall j, k :: 0 <= j < k < |report| ==> Id(report[j].evaluation) != Id(report[k].evaluation)
  }

  ghost predicate IsOrderly(c: Counter) {
    && c.size == |c.counts|
    && (c.windowStart.Some? <==> c.size > 0)
    && (forall k :: 0 <= k < |c.counts| ==> IsMember(c.counts[k], c.windowStart))
    && (forall j, k :: 0 <= j < k < |c.counts| ==> c.counts[j].id != c.counts[k].id)
  }

  /** `size` is the number of keys held, below the limit, and every report is one Mocco accepts. */
  ghost predicate IsSound(c: Counter) {
    && IsOrderly(c) && c.size < 500
    && forall k :: 0 <= k < |c.sent| ==> IsReport(c.sent[k])
  }

  lemma {:induction false} EntriesAreMembers(counts: seq<Member>)
    ensures |Entries(counts)| == |counts|
    ensures forall k :: 0 <= k < |counts| ==> Entries(counts)[k] == counts[k].entry
  {
    if counts != [] {
      EntriesAreMembers(counts[1..]);
    }
  }

  lemma {:induction false} FlushIsReport(c: Counter)
    requires IsOrderly(c) && c.size <= MAX_ENTRIES
    requires forall k :: 0 <= k < |c.sent| ==> IsReport(c.sent[k])
    ensures IsSound(Emptied(c))
  {
    EntriesAreMembers(c.counts);
    var report := Entries(c.counts);
    if c.size > 0 {
      assert IsMember(c.counts[0], c.windowStart);
      forall k | 0 <= k < |report| ensures report[k].count > 0 && report[k].windowStart == report[0].windowStart {
        assert IsMember(c.counts[k], c.windowStart);
      }
      forall j, k | 0 <= j < k < |report| ensures Id(report[j].evaluation) != Id(report[k].evaluation) {
        assert IsMember(c.counts[j], c.windowStart) && IsMember(c.counts[k], c.windowStart);
      }
    }
  }

  /** A report goes out early only with the 500th key of a window, and then holds them all; a window starts with its first evaluation. */
  lemma {:induction false} RecordSendsWhenFull(c: Counter, e: Evaluation, now: int)
    requires IsSound(c)
    ensures var isNew := forall k :: 0 <= k < |c.counts| ==> c.counts[k].id != Id(e);
            var counted := Counted(c, e, now);
            if isNew && c.size == 499 then |counted.sent| == |c.sent| + 1 && |counted.sent[|c.sent|]| == 500 && counted.counts == []
            else counted.sent == c.sent && counted.size == c.size + (if isNew then 1 else 0)
                 && counted.windowStart == if c.size == 0 then Some(now) else c.windowStart
  {
    var i := IndexOfId(c.counts, Id(e));
    var start := if c.windowStart.Some? then c.windowStart.value else now;
    EntriesAreMembers(c.counts + [Member(Id(e), EvaluationCount(e, 1, start))]);
    hide Id;
  }

  lemma {:induction false} RecordStaysSound(c: Counter, e: Evaluation, now: int)
    requires IsSound(c)
    ensures IsSound(Counted(c, e, now))
  {
    var i := IndexOfId(c.counts, Id(e));
    if i < |c.counts| {
      assert IsMember(c.counts[i], c.windowStart);
    } else {
      var start := if c.windowStart.Some? then c.windowStart.value else now;
      var added := Counter(c.counts + [Member(Id(e), EvaluationCount(e, 1, start))], c.size + 1, Some(start), c.sent, c.recorded + [e]);
      FlushIsReport(added);
    }
  }

  // ----- Nothing is counted twice or lost -----

  /** The counts of the entries that `p` selects. */
  function Tally(entries: seq<EvaluationCount>, p: Evaluation -> bool): nat {
    if entries == [] then 0 else (if p(entries[0].evaluation) then entries[0].count else 0) + Tally(entries[1..], p)
  }

  function TallyReports(reports: seq<seq<EvaluationCount>>, p: Evaluation -> bool): nat
    decreases |reports|
  {
    if reports == [] then 0 else TallyReports(reports[..|reports| - 1], p) + Tally(reports[|reports| - 1], p)
  }

  function Times(recorded: seq<Evaluation>, p: Evaluation -> bool): nat {
    if recorded == [] then 0
    else Times(recorded[..|recorded| - 1], p) + if p(recorded[|recorded| - 1]) then 1 else 0
  }

  /** What was sent and what is held are what was recorded, for the evaluations that `p` selects. */
  ghost predicate IsConserved(c: Counter, p: Evaluation -> bool) {
    TallyReports(c.sent, p) + Tally(Entries(c.counts), p) == Times(c.recorded, p)
  }

  /** `p` does not tell evaluations with the same key apart. */
  ghost predicate RespectsIds(p: Evaluation -> bool, all: seq<Evaluation>) {
    forall j, k :: 0 <= j < |all| && 0 <= k < |all| && Id(all[j]) == Id(all[k]) ==> p(all[j]) == p(all[k])
  }

  lemma {:induction false} TallyOfAppended(counts: seq<Member>, m: Member, p: Evaluation -> bool)
    ensures Tally(Entries(counts + [m]), p) == Tally(Entries(counts), p) + if p(m.entry.evaluation) then m.entry.count else 0
  {
    if counts == [] {
      assert [] + [m] == [m];
    } else {
      TallyOfAppended(counts[1..], m, p);
      assert (counts + [m])[1..] == counts[1..] + [m];
    }
  }

  lemma {:induction false} TallyOfCounted(counts: seq<Member>, i: nat, p: Evaluation -> bool)
    requires i < |counts|
    ensures Tally(Entries(counts[i := counts[i].(entry := counts[i].entry.(count := counts[i].entry.count + 1))]), p)
         == Tally(Entries(counts), p) + if p(counts[i].entry.evaluation) then 1 else 0
  {
    var m := counts[i].(entry := counts[i].entry.(count := counts[i].entry.count + 1));
    var updated := counts[i := m];
    if i == 0 {
      assert updated[1..] == counts[1..];
    } else {
      TallyOfCounted(counts[1..], i - 1, p);
      assert updated[1..] == counts[1..][i - 1 := m];
    }
  }

  lemma {:induction false} FlushConserves(c: Counter, p: Evaluation -> bool)
    requires c.size == |c.counts| && IsConserved(c, p)
    ensures IsConserved(Emptied(c), p)
  {
    if c.size > 0 {
      var report := Entries(c.counts);
      assert (c.sent + [report])[..|c.sent|] == c.sent;
    }
  }

  /** The evaluations counted so far are counted under keys that `p` respects. */
  ghost predicate IsSelected(c: Counter, p: Evaluation -> bool, all: seq<Evaluation>) {
    && RespectsIds(p, all)
    && (forall k :: 0 <= k < |c.counts| ==> c.counts[k].entry.evaluation in all)
  }

  lemma {:induction false} RecordStaysSelected(c: Counter, e: Evaluation, now: int, p: Evaluation -> bool, all: seq<Evaluation>)
    requires IsSelected(c, p, all) && e in all
    ensures IsSelected(Counted(c, e, now), p, all)
  {
    hide Id, RespectsIds;
  }

  /** The key of an evaluation already held stands for it as far as `p` can tell. */
  lemma {:induction false} HeldIsSelectedAlike(c: Counter, e: Evaluation, p: Evaluation -> bool, all: seq<Evaluation>)
    requires IsSound(c) && IsSelected(c, p, all) && e in all && IndexOfId(c.counts, Id(e)) < |c.counts|
    ensures p(c.counts[IndexOfId(c.counts, Id(e))].entry.evaluation) == p(e)
  {
    hide Id;
    var i := IndexOfId(c.counts, Id(e));
    assert IsMember(c.counts[i], c.windowStart);
    var j :| 0 <= j < |all| && all[j] == e;
    var k :| 0 <= k < |all| && all[k] == c.counts[i].entry.evaluation;
  }

  lemma {:induction false} TimesOneMore(recorded: seq<Evaluation>, e: Evaluation, p: Evaluation -> bool)
    ensures Times(recorded + [e], p) == Times(recorded, p) + if p(e) then 1 else 0
  {
    assert (recorded + [e])[..|recorded|] == recorded;
  }

  lemma {:induction false} RecordConserves(c: Counter, e: Evaluation, now: int, p: Evaluation -> bool, all: seq<Evaluation>)
    requires IsSound(c) && IsConserved(c, p) && IsSelected(c, p, all) && e in all
    ensures IsConserved(Counted(c, e, now), p)
  {
    hide Id, Entries, Tally, TallyReports, Times, IsSelected, IsMember, IsReport;
    var i := IndexOfId(c.counts, Id(e));
    TimesOneMore(c.recorded, e, p);
    if i < |c.counts| {
      HeldIsSelectedAlike(c, e, p, all);
      TallyOfCounted(c.counts, i, p);
    } else {
      hide IndexOfId;
      var start := if c.windowStart.Some? then c.windowStart.value else now;
      var m := Member(Id(e), EvaluationCount(e, 1, start));
      TallyOfAppended(c.counts, m, p);
      FlushConserves(Counter(c.counts + [m], c.size + 1, Some(start), c.sent, c.recorded + [e]), p);
    }
  }

  // ----- Runs -----

  datatype Step = Evaluated(evaluation: Evaluation, now: int) | Flushed

  function Next(c: Counter, step: Step): Counter {
    match step
    case Evaluated(e, now) => Counted(c, e, now)
    case Flushed => Emptied(c)
  }

  function After(c: Counter, steps: seq<Step>): Counter
    decreases |steps|
  {
    if steps == [] then c else After(Next(c, steps[0]), steps[1..])
  }

  /** The evaluations among the steps. */
  function Evaluations(steps: seq<Step>): seq<Evaluation> {
    if steps == [] then []
    else (if steps[0].Evaluated? then [steps[0].evaluation] else []) + Evaluations(steps[1..])
  }

  lemma {:induction false} StepRecords(c: Counter, step: Step)
    ensures Next(c, step).recorded == c.recorded + if step.Evaluated? then [step.evaluation] else []
  {
    assert c.recorded + [] == c.recorded;
  }

  lemma {:induction false} RecordedIsAppended(c: Counter, steps: seq<Step>)
    ensures After(c, steps).recorded == c.recorded + Evaluations(steps)
    decreases |steps|
  {
    hide Next;
    if steps == [] {
      assert c.recorded + [] == c.recorded;
    } else {
      StepRecords(c, steps[0]);
      RecordedIsAppended(Next(c, steps[0]), steps[1..]);
      var first := if steps[0].Evaluated? then [steps[0].evaluation] else [];
      assert c.recorded + first + Evaluations(steps[1..]) == c.recorded + (first + Evaluations(steps[1..]));
    }
  }

  lemma {:induction false} StepsConserve(c: Counter, steps: seq<Step>, p: Evaluation -> bool, all: seq<Evaluation>)
    requires IsSound(c) && IsConserved(c, p) && IsSelected(c, p, all)
    requires forall k :: 0 <= k < |Evaluations(steps)| ==> Evaluations(steps)[k] in all
    ensures IsSound(After(c, steps)) && IsConserved(After(c, steps), p)
    decreases |steps|
  {
    if steps != [] {
      hide Evaluations, IsSound, IsConserved, IsSelected, Counted, Emptied, Next;
      EvaluationsStart(steps, all);
      StepConserves(c, steps[0], p, all);
      StepsConserve(Next(c, steps[0]), steps[1..], p, all);
    }
  }

  lemma {:induction false} StepConserves(c: Counter, step: Step, p: Evaluation -> bool, all: seq<Evaluation>)
    requires IsSound(c) && IsConserved(c, p) && IsSelected(c, p, all) && (step.Evaluated? ==> step.evaluation in all)
    ensures IsSound(Next(c, step)) && IsConserved(Next(c, step), p) && IsSelected(Next(c, step), p, all)
  {
    if step.Evaluated? {
      hide IsSound, IsConserved, IsSelected, Counted;
      RecordStaysSound(c, step.evaluation, step.now);
      RecordConserves(c, step.evaluation, step.now, p, all);
      RecordStaysSelected(c, step.evaluation, step.now, p, all);
    } else {
      FlushIsReport(c);
      FlushConserves(c, p);
    }
  }

  lemma {:induction false} EvaluationsStart(steps: seq<Step>, all: seq<Evaluation>)
    requires steps != [] && forall k :: 0 <= k < |Evaluations(steps)| ==> Evaluations(steps)[k] in all
    ensures steps[0].Evaluated? ==> steps[0].evaluation in all
    ensures forall k :: 0 <= k < |Evaluations(steps[1..])| ==> Evaluations(steps[1..])[k] in all
  {
    var rest := Evaluations(steps[1..]);
    if steps[0].Evaluated? {
      assert Evaluations(steps)[0] == steps[0].evaluation;
      assert forall k :: 0 <= k < |rest| ==> rest[k] == Evaluations(steps)[k + 1];
    } else {
      assert Evaluations(steps) == rest;
    }
  }

  /** In every state of every run, for any way of selecting evaluations that respects the keys, the counts add up to the `record` calls. */
  lemma {:induction false} RunsConserve(steps: seq<Step>, p: Evaluation -> bool)
    requires RespectsIds(p, Evaluations(steps))
    ensures IsSound(After(EMPTY, steps)) && After(EMPTY, steps).recorded == Evaluations(steps)
    ensures IsConserved(After(EMPTY, steps), p)
  {
    RecordedIsAppended(EMPTY, steps);
    assert [] + Evaluations(steps) == Evaluations(steps);
    StepsConserve(EMPTY, steps, p, Evaluations(steps));
  }

  // ----- Keys -----

  /** A flag key without a line break, and a variant that is not empty: what the allowed patterns ensure. */
  predicate IsNamed(e: Evaluation) {
    '\n' !in e.flag && e.variant != Some("")
  }

  lemma {:induction false} IdCuts(e: Evaluation)
    requires '\n' !in e.flag
    ensures IndexOf(Id(e), '\n') == |e.flag|
  {
    var variant := if e.variant.Some? then e.variant.value else "";
    assert e.flag + ['\n'] + variant == Id(e);
    IndexOfAfter(e.flag, '\n', variant);
  }

  /** Allowed names never share a key. */
  lemma {:induction false} IdsAreDistinct(a: Evaluation, b: Evaluation)
    requires IsNamed(a) && IsNamed(b)
    ensures Id(a) == Id(b) <==> a == b
  {
    if Id(a) == Id(b) {
      IdCuts(a);
      IdCuts(b);
      assert Id(a)[..|a.flag|] == a.flag && Id(b)[..|b.flag|] == b.flag;
      var v, w := if a.variant.Some? then a.variant.value else "", if b.variant.Some? then b.variant.value else "";
      assert Id(a)[|a.flag| + 1..] == v && Id(b)[|b.flag| + 1..] == w;
    }
  }

  /** For allowed names, at every point of every run and for each flag and variant: reported plus held counts are the `record` calls. */
  lemma {:induction false} EachEvaluationIsConserved(steps: seq<Step>, e: Evaluation)
    requires forall k :: 0 <= k < |Evaluations(steps)| ==> IsNamed(Evaluations(steps)[k])
    ensures IsConserved(After(EMPTY, steps), x => x == e)
  {
    var all, p := Evaluations(steps), x => x == e;
    forall j, k | 0 <= j < |all| && 0 <= k < |all| && Id(all[j]) == Id(all[k]) ensures p(all[j]) == p(all[k]) {
      IdsAreDistinct(all[j], all[k]);
    }
    RunsConserve(steps, p);
  }

  /** Whatever the names, the counts under each key are conserved. */
  lemma {:induction false} EachKeyIsConserved(steps: seq<Step>, id: string)
    ensures IsConserved(After(EMPTY, steps), x => Id(x) == id)
  {
    RunsConserve(steps, x => Id(x) == id);
  }

  /** An empty variant is counted as none when they share a window: the names' pattern is needed. */
  lemma {:induction false} EmptyVariantIsMiscounted(flag: string, now: int)
    ensures var none, empty := Evaluation(flag, None), Evaluation(flag, Some(""));
            var end := After(EMPTY, [Evaluated(none, now), Evaluated(empty, now)]);
            end.counts == [Member(Id(none), EvaluationCount(none, 2, now))] && !IsConserved(end, x => x == empty)
  {
    var none, empty := Evaluation(flag, None), Evaluation(flag, Some(""));
    var c1, c2, p := Counted(EMPTY, none, now), Counted(Counted(EMPTY, none, now), empty, now), x => x == empty;
    var steps := [Evaluated(none, now), Evaluated(empty, now)];
    assert steps[1..] == [Evaluated(empty, now)] && steps[1..][1..] == [];
    assert After(EMPTY, steps) == After(c1, steps[1..]) == After(c2, steps[1..][1..]) == c2 by {
      hide Counted;
    }
    hide After;
    assert Id(none) == Id(empty);
    assert c1.counts == [Member(Id(none), EvaluationCount(none, 1, now))];
    assert c2.counts == [Member(Id(none), EvaluationCount(none, 2, now))];
    assert c2.recorded == [none, empty] && c2.sent == [];
    TimesOfPair(none, empty, p);
    assert Entries(c2.counts) == [EvaluationCount(none, 2, now)];
    assert Tally(Entries(c2.counts), p) == 0;
  }

  lemma {:induction false} TimesOfPair(a: Evaluation, b: Evaluation, p: Evaluation -> bool)
    ensures Times([a, b], p) == (if p(a) then 1 else 0) + if p(b) then 1 else 0
  {
    var one, two := [a], [a, b];
    assert one[..|one| - 1] == [] && two[..|two| - 1] == one;
    assert Times(one, p) == if p(a) then 1 else 0;
  }
}
