/**
 The probe agent's check slots: a counter with direct hand-off to the first waiter. A state keeps, next
 to the agent's own fields, the history the safety properties speak of.
 */
module ProbeSlots {
  import opened Lists

  /** One execution of a leased check. */
  type Run = nat

  datatype Slots = Slots(
    concurrency: nat,
    running: nat,
    waiters: seq<Run>,
    arrived: seq<Run>,    // runs that asked for a slot, in order
    granted: seq<Run>,    // runs that got one, in order
    released: seq<Run>)   // runs that gave theirs back, in order

  function Initial(concurrency: nat): Slots {
    Slots(concurrency, 0, [], [], [], [])
  }

  /** The stretch of `execute` up to its slot: take a free slot, or wait. */
  function Acquire(s: Slots, run: Run): Slots {
    if s.running < s.concurrency then
      s.(running := s.running + 1, arrived := s.arrived + [run], granted := s.granted + [run])
    else s.(waiters := s.waiters + [run], arrived := s.arrived + [run])
  }

  /** The end of `execute`, reached whether the check answered or threw: hand the slot on, or free it. */
  function Release(s: Slots, run: Run): Slots
    requires s.waiters == [] ==> s.running > 0
  {
    if s.waiters == [] then s.(running := s.running - 1, released := s.released + [run])
    else s.(waiters := s.waiters[1..], granted := s.granted + [s.waiters[0]], released := s.released + [run])
  }

  predicate Holds(s: Slots, run: Run) {
    run in s.granted && run !in s.released
  }

  function Members(runs: seq<Run>): set<Run> {
    set run | run in runs
  }

  /** Slots are counted exactly, never exceed the limit, are all taken while anyone waits, and are granted in order of arrival. */
  predicate IsSafe(s: Slots) {
    && IsDistinct(s.arrived) && s.arrived == s.granted + s.waiters
    && IsDistinct(s.released) && (forall k :: 0 <= k < |s.released| ==> s.released[k] in s.granted)
    && s.running == |s.granted| - |s.released|
    && s.running <= s.concurrency
    && (s.waiters != [] ==> s.running == s.concurrency)
  }

  datatype Step = Start(run: Run) | End(run: Run)

  /** A run starts once, and ends while it holds a slot. */
  predicate CanStep(s: Slots, step: Step) {
    match step
    case Start(run) => run !in s.arrived
    case End(run) => Holds(s, run) && (s.waiters == [] ==> s.running > 0)
  }

  function Next(s: Slots, step: Step): Slots
    requires CanStep(s, step)
  {
    match step
    case Start(run) => Acquire(s, run)
    case End(run) => Release(s, run)
  }

  predicate CanTake(s: Slots, steps: seq<Step>)
    decreases |steps|
  {
    steps == [] || (CanStep(s, steps[0]) && CanTake(Next(s, steps[0]), steps[1..]))
  }

  function After(s: Slots, steps: seq<Step>): Slots
    requires CanTake(s, steps)
    decreases |steps|
  {
    if steps == [] then s else After(Next(s, steps[0]), steps[1..])
  }

  lemma {:induction false} DistinctSize(runs: seq<Run>)
    requires IsDistinct(runs)
    ensures |Members(runs)| == |runs|
  {
    if runs == [] {
      assert Members(runs) == {};
    } else {
      var n := |runs| - 1;
      DistinctSize(runs[..n]);
      assert runs == runs[..n] + [runs[n]];
      assert Members(runs) == Members(runs[..n]) + {runs[n]};
      assert runs[n] !in runs[..n];
    }
  }

  /** A safe state has exactly as many holders as it counts; a run that may end finds a slot to give back. */
  lemma {:induction false} HoldersAreCounted(s: Slots)
    requires IsSafe(s)
    ensures |set run | run in s.granted && Holds(s, run)| == s.running
    ensures forall run :: Holds(s, run) ==> s.running > 0
  {
    assert IsDistinct(s.granted) by {
      assert forall k :: 0 <= k < |s.granted| ==> s.granted[k] == s.arrived[k];
    }
    DistinctSize(s.granted);
    DistinctSize(s.released);
    var holders := set run | run in s.granted && Holds(s, run);
    assert holders == Members(s.granted) - Members(s.released);
    assert Members(s.released) <= Members(s.granted);
    forall run | Holds(s, run) ensures s.running > 0 {
      assert run in holders;
      assert |holders| == 0 ==> holders == {};
    }
  }

  lemma {:induction false} StepIsSafe(s: Slots, step: Step)
    requires IsSafe(s) && CanStep(s, step)
    ensures IsSafe(Next(s, step))
  {
    HoldersAreCounted(s);
    match step
    case Start(run) =>
      assert s.arrived + [run] == s.granted + [run] || s.arrived + [run] == s.granted + (s.waiters + [run]);
    case End(run) =>
      if s.waiters != [] {
        assert s.granted + s.waiters == s.granted + [s.waiters[0]] + s.waiters[1..];
      }
  }

  /** Every interleaving of starts and ends keeps the slots safe. */
  lemma {:induction false} SlotsStaySafe(s: Slots, steps: seq<Step>)
    requires IsSafe(s) && CanTake(s, steps)
    ensures IsSafe(After(s, steps)) && After(s, steps).concurrency == s.concurrency
    decreases |steps|
  {
    if steps != [] {
      StepIsSafe(s, steps[0]);
      SlotsStaySafe(Next(s, steps[0]), steps[1..]);
    }
  }

  /** From the start: at every point the slots held are exactly `running`, at most `concurrency`, and granted in order of arrival. */
  lemma {:induction false} RunsAreSafe(concurrency: nat, steps: seq<Step>)
    requires CanTake(Initial(concurrency), steps)
    ensures var s := After(Initial(concurrency), steps);
            && |set run | run in s.granted && Holds(s, run)| == s.running <= concurrency
            && s.granted <= s.arrived && s.waiters == s.arrived[|s.granted|..]
            && IsDistinct(s.granted) && IsDistinct(s.released)
            && (s.waiters != [] ==> s.running == concurrency)
  {
    SlotsStaySafe(Initial(concurrency), steps);
    var s := After(Initial(concurrency), steps);
    HoldersAreCounted(s);
    assert forall k :: 0 <= k < |s.granted| ==> s.granted[k] == s.arrived[k];
  }

  /** Once nobody holds a slot, nobody waits: every run that arrived has been granted its slot and has given it back. */
  lemma {:induction false} IdleMeansAllRan(concurrency: nat, steps: seq<Step>)
    requires 0 < concurrency && CanTake(Initial(concurrency), steps)
    requires forall run :: !Holds(After(Initial(concurrency), steps), run)
    ensures var s := After(Initial(concurrency), steps);
            s.waiters == [] && s.granted == s.arrived && multiset(s.released) == multiset(s.arrived)
  {
    SlotsStaySafe(Initial(concurrency), steps);
    var s := After(Initial(concurrency), steps);
    HoldersAreCounted(s);
    assert (set run | run in s.granted && Holds(s, run)) == {};
    assert s.granted + [] == s.granted;
    DistinctCounts(s.released);
    DistinctCounts(s.arrived);
    forall run ensures run in s.released <==> run in s.arrived {
      if run in s.arrived {
        assert !Holds(s, run);
      }
    }
    forall run ensures multiset(s.released)[run] == multiset(s.arrived)[run] {
      assert run in multiset(s.released) <==> run in s.released;
      assert run in multiset(s.arrived) <==> run in s.arrived;
    }
  }
}
