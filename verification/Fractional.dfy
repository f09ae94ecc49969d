/**
 flagd's `fractional` rollout: which entry of a weighted distribution a 32-bit hash lands on,
 how many hashes each entry gets, and what raising one weight moves.
 */
module Fractional {
  import opened Text
  import opened Boundaries

  const MAX_TOTAL_WEIGHT: nat := 0x7fff_ffff

  /** The sum of the first `n` weights: where entry `n` starts. */
  function Prefix(weights: seq<nat>, n: nat): nat
    requires n <= |weights|
  {
    if n == 0 then 0 else Prefix(weights, n - 1) + weights[n - 1]
  }

  function Total(weights: seq<nat>): nat {
    Prefix(weights, |weights|)
  }

  predicate Allowed(weights: seq<nat>) {
    0 < Total(weights) <= MAX_TOTAL_WEIGHT
  }

  /** Entry `i` owns `hash`: the hash, as a fraction of the hash space, lies in the entry's share of the total. */
  predicate Owns(weights: seq<nat>, i: nat, hash: nat) {
    && i < |weights|
    && Prefix(weights, i) * HASHES <= hash * Total(weights) < Prefix(weights, i + 1) * HASHES
  }

  /** The first entry, from `i` on, whose range end is above the bucket. */
  function Find(weights: seq<nat>, i: nat, bucket: nat): nat
    requires i <= |weights|
    decreases |weights| - i
  {
    if i == |weights| || bucket < Prefix(weights, i + 1) then i else Find(weights, i + 1, bucket)
  }

  /** The entry a hash is bucketed to, or None when the total weight is refused. */
  function Choose(weights: seq<nat>, hash: nat): Option<nat> {
    if !Allowed(weights) then None
    else
      var i := Find(weights, 0, hash * Total(weights) / HASHES);
      if i < |weights| then Some(i) else None
  }

  /** The search as it runs: a reduce for the total, then a scan that advances `rangeEnd`. */
  method ChooseEntry(weights: seq<nat>, hash: nat) returns (chosen: Option<nat>)
    requires hash < HASHES
    ensures chosen == Choose(weights, hash)
    ensures chosen.Some? <==> 1 <= Total(weights) <= 0x7fff_ffff
    ensures chosen.Some? ==> Owns(weights, chosen.value, hash)
  {
    var totalWeight := 0;
    for i := 0 to |weights|
      invariant totalWeight == Prefix(weights, i)
    {
      totalWeight := totalWeight + weights[i];
    }
    if totalWeight == 0 || totalWeight > MAX_TOTAL_WEIGHT {
      return None;
    }
    var bucket := hash * totalWeight / HASHES;
    var rangeEnd := 0;
    chosen := None;
    for i := 0 to |weights|
      invariant rangeEnd == Prefix(weights, i)
      invariant Find(weights, 0, bucket) == Find(weights, i, bucket)
    {
      rangeEnd := rangeEnd + weights[i];
      if bucket < rangeEnd {
        chosen := Some(i);
        break;
      }
    }
    ChosenOwns(weights, hash);
  }

  lemma {:induction false} PrefixMonotone(weights: seq<nat>, i: nat, j: nat)
    requires i <= j <= |weights|
    ensures Prefix(weights, i) <= Prefix(weights, j)
    decreases j - i
  {
    if i < j {
      PrefixMonotone(weights, i, j - 1);
    }
  }

  lemma {:induction false} FindBounds(weights: seq<nat>, i: nat, bucket: nat)
    requires i <= |weights|
    requires Prefix(weights, i) <= bucket < Total(weights)
    ensures var f := Find(weights, i, bucket); i <= f < |weights| && Prefix(weights, f) <= bucket < Prefix(weights, f + 1)
    decreases |weights| - i
  {
    if i < |weights| && bucket >= Prefix(weights, i + 1) {
      FindBounds(weights, i + 1, bucket);
    }
  }

  /** An allowed distribution gives every hash exactly one entry, and never one of weight 0. */
  lemma {:induction false} ChosenOwns(weights: seq<nat>, hash: nat)
    requires Allowed(weights) && hash < HASHES
    ensures Choose(weights, hash).Some? && Owns(weights, Choose(weights, hash).value, hash)
    ensures forall i :: Owns(weights, i, hash) ==> i == Choose(weights, hash).value
    ensures weights[Choose(weights, hash).value] > 0
  {
    var total := Total(weights);
    var bucket := hash * total / HASHES;
    BucketInRange(hash, total);
    FindBounds(weights, 0, bucket);
    var f := Find(weights, 0, bucket);
    ScaledFloor(hash * total, Prefix(weights, f));
    ScaledFloor(hash * total, Prefix(weights, f + 1));
    forall i | Owns(weights, i, hash) ensures i == f {
      if i < f {
        PrefixMonotone(weights, i + 1, f);
      } else if f < i {
        PrefixMonotone(weights, f + 1, i);
      }
    }
  }

  /** The entry an allowed distribution gives a hash. */
  function Pick(weights: seq<nat>, hash: nat): (i: nat)
    requires Allowed(weights) && hash < HASHES
    ensures Choose(weights, hash) == Some(i) && Owns(weights, i, hash)
  {
    ChosenOwns(weights, hash);
    Choose(weights, hash).value
  }

  // ----- How many hashes each entry gets -----

  ghost function Keys(weights: seq<nat>, i: nat): set<nat> {
    set hash: nat | hash < HASHES && Owns(weights, i, hash)
  }

  predicate From(lo: nat, h: nat) {
    lo <= h
  }

  ghost function Interval(lo: nat, hi: nat): set<nat> {
    set h: nat | h < hi && From(lo, h)
  }

  lemma {:induction false} IntervalSize(lo: nat, hi: nat)
    requires lo <= hi
    ensures |Interval(lo, hi)| == hi - lo
    decreases hi - lo
  {
    if lo == hi {
      assert Interval(lo, hi) == {};
    } else {
      IntervalSize(lo, hi - 1);
      assert Interval(lo, hi) == Interval(lo, hi - 1) + {hi - 1};
    }
  }

  /** Exactly ceil(2^32 c_{i+1}/T) - ceil(2^32 c_i/T) of the 2^32 hashes choose entry `i`. */
  lemma {:induction false} ExactShare(weights: seq<nat>, i: nat)
    requires Allowed(weights) && i < |weights|
    ensures |Keys(weights, i)| == Start(Prefix(weights, i + 1), Total(weights)) - Start(Prefix(weights, i), Total(weights))
    ensures forall hash: nat :: hash in Keys(weights, i) <==> hash < HASHES && Choose(weights, hash) == Some(i)
  {
    var total := Total(weights);
    var lo, hi := Start(Prefix(weights, i), total), Start(Prefix(weights, i + 1), total);
    StartMonotone(Prefix(weights, i), Prefix(weights, i + 1), total);
    PrefixMonotone(weights, i + 1, |weights|);
    StartMonotone(Prefix(weights, i + 1), total, total);
    StartEnds(total);
    forall hash: nat ensures hash in Keys(weights, i) <==> hash in Interval(lo, hi) {
      StartIff(Prefix(weights, i), total, hash);
      StartIff(Prefix(weights, i + 1), total, hash);
    }
    assert Keys(weights, i) == Interval(lo, hi);
    IntervalSize(lo, hi);
    forall hash: nat | hash < HASHES ensures hash in Keys(weights, i) <==> Choose(weights, hash) == Some(i) {
      ChosenOwns(weights, hash);
    }
  }

  /** Each entry's share differs from the exact proportion 2^32 w_i/T by less than one hash. */
  lemma {:induction false} ShareIsProportional(weights: seq<nat>, i: nat)
    requires Allowed(weights) && i < |weights|
    ensures -(Total(weights) as int) < |Keys(weights, i)| * Total(weights) - HASHES * weights[i] < Total(weights)
  {
    ExactShare(weights, i);
    var total := Total(weights);
    var a := CeilingBounds(Prefix(weights, i), total);
    var b := CeilingBounds(Prefix(weights, i + 1), total);
    Difference(a, b, total);
    assert |Keys(weights, i)| == b - a;
  }

  ghost function SharesUpTo(weights: seq<nat>, n: nat): nat
    requires n <= |weights|
  {
    if n == 0 then 0 else SharesUpTo(weights, n - 1) + |Keys(weights, n - 1)|
  }

  lemma {:induction false} SharesUpToIs(weights: seq<nat>, n: nat)
    requires Allowed(weights) && n <= |weights|
    ensures SharesUpTo(weights, n) == Start(Prefix(weights, n), Total(weights))
  {
    StartEnds(Total(weights));
    if n > 0 {
      SharesUpToIs(weights, n - 1);
      ExactShare(weights, n - 1);
    }
  }

  /** The shares add up to the whole hash space: no hash is lost and none is counted twice. */
  lemma {:induction false} SharesAddUp(weights: seq<nat>)
    requires Allowed(weights)
    ensures SharesUpTo(weights, |weights|) == HASHES
  {
    SharesUpToIs(weights, |weights|);
    StartEnds(Total(weights));
  }

  // ----- What raising a weight moves -----

  lemma {:induction false} PrefixRaised(weights: seq<nat>, j: nat, raised: nat, n: nat)
    requires j < |weights| && weights[j] <= raised && n <= |weights|
    ensures Prefix(weights[j := raised], n) == Prefix(weights, n) + (if n <= j then 0 else raised - weights[j])
  {
    if n > 0 {
      PrefixRaised(weights, j, raised, n - 1);
    }
  }

  /**
   Raising entry `j`: a key on `j` stays on `j`; every other key stays, or moves to an entry
   strictly nearer `j`, never past it.
   */
  lemma {:induction false} RaisingMovesTowards(weights: seq<nat>, j: nat, raised: nat, hash: nat)
    requires j < |weights| && weights[j] <= raised && hash < HASHES
    requires Allowed(weights) && Allowed(weights[j := raised])
    ensures var before, after := Pick(weights, hash), Pick(weights[j := raised], hash);
            (before <= j ==> before <= after <= j) && (j <= before ==> j <= after <= before)
  {
    var grown := weights[j := raised];
    ChosenOwns(weights, hash);
    ChosenOwns(grown, hash);
    var before := Pick(weights, hash);
    var lo, hi := if before <= j then before else j, if before <= j then j + 1 else before + 1;
    PastBoundary(weights, hash, lo);
    PastBoundary(grown, hash, lo);
    PastBoundary(weights, hash, hi);
    PastBoundary(grown, hash, hi);
    BoundaryMoves(weights, j, raised, lo);
    BoundaryMoves(weights, j, raised, hi);
  }

  /** Raising `j` moves the boundaries up to `j` down, and those past `j` up. */
  lemma {:induction false} BoundaryMoves(weights: seq<nat>, j: nat, raised: nat, k: nat)
    requires j < |weights| && weights[j] <= raised && k <= |weights| && 0 < Total(weights)
    ensures var now := StartAfter(weights, j, raised, k);
            && Total(weights[j := raised]) == Total(weights) + raised - weights[j]
            && now == Start(Prefix(weights[j := raised], k), Total(weights[j := raised]))
            && (k <= j ==> now <= Start(Prefix(weights, k), Total(weights)))
            && (j < k ==> Start(Prefix(weights, k), Total(weights)) <= now)
  {
    RaisedStart(weights, j, raised, k);
    PrefixMonotone(weights, k, |weights|);
    StartMovesDown(Prefix(weights, k), Total(weights), raised - weights[j]);
    StartMovesUp(Prefix(weights, k), Total(weights), raised - weights[j]);
  }

  /** Moving weight from entry `j + 1` to entry `j` at a fixed total moves keys from `j + 1` to `j` only. */
  lemma {:induction false} NeighbourTransfer(weights: seq<nat>, j: nat, d: nat, hash: nat)
    requires j + 1 < |weights| && d <= weights[j + 1] && hash < HASHES && Allowed(weights)
    ensures var moved := weights[j := weights[j] + d][j + 1 := weights[j + 1] - d];
            && Allowed(moved)
            && var before, after := Pick(weights, hash), Pick(moved, hash);
               after == before || (before == j + 1 && after == j)
  {
    var raised := weights[j := weights[j] + d];
    var moved := raised[j + 1 := weights[j + 1] - d];
    assert moved[j + 1 := weights[j + 1]] == raised;
    forall n: nat | n <= |weights|
      ensures Prefix(moved, n) == Prefix(weights, n) + (if n == j + 1 then d else 0)
    {
      PrefixRaised(weights, j, weights[j] + d, n);
      PrefixRaised(moved, j + 1, weights[j + 1], n);
    }
    ChosenOwns(weights, hash);
    ChosenOwns(moved, hash);
    var before, after := Pick(weights, hash), Pick(moved, hash);
    assert Total(moved) == Total(weights);
    if before != j + 1 {
      assert Prefix(moved, before) <= Prefix(weights, before);
      assert Prefix(weights, before + 1) <= Prefix(moved, before + 1);
      assert Owns(moved, before, hash);
    } else if after != j {
      assert Prefix(moved, after + 1) <= Prefix(weights, after + 1);
      assert Prefix(moved, after) >= Prefix(weights, after);
      assert Owns(weights, after, hash);
    }
  }

  /** And the other way: moving weight from entry `j` to entry `j + 1` moves keys from `j` to `j + 1` only. */
  lemma {:induction false} NeighbourTransferBack(weights: seq<nat>, j: nat, d: nat, hash: nat)
    requires j + 1 < |weights| && d <= weights[j] && hash < HASHES && Allowed(weights)
    ensures var moved := weights[j := weights[j] - d][j + 1 := weights[j + 1] + d];
            && Allowed(moved)
            && var before, after := Pick(weights, hash), Pick(moved, hash);
               after == before || (before == j && after == j + 1)
  {
    var moved := weights[j := weights[j] - d][j + 1 := weights[j + 1] + d];
    forall n: nat | n <= |weights| ensures Prefix(moved, n) == Prefix(weights, n) - (if n == j + 1 then d else 0) {
      PrefixRaised(weights, j + 1, weights[j + 1] + d, n);
      PrefixRaised(moved, j, weights[j], n);
      assert moved[j := weights[j]] == weights[j + 1 := weights[j + 1] + d];
    }
    assert moved[j := moved[j] + d][j + 1 := moved[j + 1] - d] == weights;
    assert Total(moved) == Total(weights);
    NeighbourTransfer(moved, j, d, hash);
  }

  /** Raising `j` moves keys only into `j`: what the doc comment promises of every raise. */
  ghost predicate OnlyIntoRaised(weights: seq<nat>, j: nat, raised: nat)
    requires j < |weights|
  {
    forall hash: nat | hash < HASHES ::
      Choose(weights[j := raised], hash) == Choose(weights, hash) || Choose(weights[j := raised], hash) == Some(j)
  }

  /** Every hash in a sixth of the hash space moves from the first entry to the second when the third one's weight is raised from 1 to 4. */
  lemma {:induction false} SixthMoves(hash: nat)
    requires HASHES / 6 < hash <= HASHES / 3
    ensures Choose([1, 1, 1], hash) == Some(0) && Choose([1, 1, 4], hash) == Some(1)
  {
    var a, b := [1, 1, 1], [1, 1, 4];
    assert Prefix(a, 1) == 1 && Prefix(a, 2) == 2 && Prefix(a, 3) == 3;
    assert Prefix(b, 1) == 1 && Prefix(b, 2) == 2 && Prefix(b, 3) == 6;
    assert Owns(a, 0, hash) && Owns(b, 1, hash);
    ChosenOwns(a, hash);
    ChosenOwns(b, hash);
  }

  /** Raising a weight can move keys between two other entries. */
  lemma RaisingMovesBystanders()
    ensures !OnlyIntoRaised([1, 1, 1], 2, 4)
    ensures forall hash: nat :: HASHES / 6 < hash <= HASHES / 3 ==> Choose([1, 1, 1], hash) == Some(0) && Choose([1, 1, 4], hash) == Some(1)
  {
    forall hash: nat | HASHES / 6 < hash <= HASHES / 3 ensures Choose([1, 1, 1], hash) == Some(0) && Choose([1, 1, 4], hash) == Some(1) {
      SixthMoves(hash);
    }
    SixthMoves(HASHES / 3);
    assert [1, 1, 1][2 := 4] == [1, 1, 4];
    assert HASHES / 3 < HASHES && Choose([1, 1, 1][2 := 4], HASHES / 3) == Some(1);
    assert Prefix([1, 1, 1], 1) == 1 && Prefix([1, 1, 1], 2) == 2 && Prefix([1, 1, 1], 3) == 3;
  }

  /** The boundary after entry `k - 1` lies strictly inside the entries before `j`, or strictly inside those after it. */
  predicate Bystander(weights: seq<nat>, j: nat, k: nat)
    requires j < |weights| && k <= |weights|
  {
    || 0 < Prefix(weights, k) < Prefix(weights, j)
    || Prefix(weights, j + 1) < Prefix(weights, k) < Total(weights)
  }

  /** Where the boundary at `k` stands in the hash space once `j` is raised. */
  function StartAfter(weights: seq<nat>, j: nat, raised: nat, k: nat): nat
    requires j < |weights| && weights[j] <= raised && k <= |weights| && 0 < Total(weights)
  {
    var d := raised - weights[j];
    Start(Prefix(weights, k) + (if k <= j then 0 else d), Total(weights) + d)
  }

  /** No boundary between two other entries moves to another hash. */
  predicate BystandersStand(weights: seq<nat>, j: nat, raised: nat)
    requires j < |weights| && weights[j] <= raised && 0 < Total(weights)
  {
    forall k :: 0 <= k <= |weights| && Bystander(weights, j, k) ==>
      StartAfter(weights, j, raised, k) == Start(Prefix(weights, k), Total(weights))
  }

  /** A hash is at or past the boundary at `k` exactly when its entry is `k` or later. */
  lemma {:induction false} PastBoundary(weights: seq<nat>, hash: nat, k: nat)
    requires Allowed(weights) && hash < HASHES && k <= |weights|
    ensures Start(Prefix(weights, k), Total(weights)) <= hash <==> k <= Pick(weights, hash)
  {
    ChosenOwns(weights, hash);
    var i := Pick(weights, hash);
    StartIff(Prefix(weights, k), Total(weights), hash);
    if k <= i {
      PrefixMonotone(weights, k, i);
      assert Prefix(weights, k) * HASHES <= Prefix(weights, i) * HASHES;
    } else {
      PrefixMonotone(weights, i + 1, k);
      assert Prefix(weights, i + 1) * HASHES <= Prefix(weights, k) * HASHES;
    }
  }

  lemma {:induction false} RaisedStart(weights: seq<nat>, j: nat, raised: nat, k: nat)
    requires j < |weights| && weights[j] <= raised && k <= |weights| && 0 < Total(weights)
    ensures var grown := weights[j := raised];
            && Total(grown) == Total(weights) + raised - weights[j]
            && StartAfter(weights, j, raised, k) == Start(Prefix(grown, k), Total(grown))
  {
    PrefixRaised(weights, j, raised, k);
    PrefixRaised(weights, j, raised, |weights|);
  }

  lemma {:induction false} MovedKeyCrosses(weights: seq<nat>, j: nat, raised: nat, hash: nat)
    requires j < |weights| && weights[j] <= raised && hash < HASHES
    requires Allowed(weights) && Allowed(weights[j := raised])
    requires Choose(weights[j := raised], hash) != Choose(weights, hash) && Choose(weights[j := raised], hash) != Some(j)
    ensures !BystandersStand(weights, j, raised)
  {
    var grown := weights[j := raised];
    var before, after := Pick(weights, hash), Pick(grown, hash);
    RaisingMovesTowards(weights, j, raised, hash);
    ChosenOwns(weights, hash);
    ChosenOwns(grown, hash);
    var k := if before < j then after else after + 1;
    RaisedStart(weights, j, raised, k);
    PastBoundary(weights, hash, k);
    PastBoundary(grown, hash, k);
    if before < j {
      PrefixMonotone(weights, before + 1, k);
      PrefixMonotone(weights, after + 1, j);
    } else {
      PrefixMonotone(weights, j + 1, after);
      PrefixMonotone(weights, k, before);
      PrefixMonotone(weights, before + 1, |weights|);
    }
    assert Bystander(weights, j, k);
  }

  lemma {:induction false} MovedBoundaryCarries(weights: seq<nat>, j: nat, raised: nat, k: nat) returns (hash: nat)
    requires j < |weights| && weights[j] <= raised && k <= |weights|
    requires Allowed(weights) && Allowed(weights[j := raised])
    requires Bystander(weights, j, k) && StartAfter(weights, j, raised, k) != Start(Prefix(weights, k), Total(weights))
    ensures hash < HASHES
    ensures Choose(weights[j := raised], hash) != Choose(weights, hash) && Choose(weights[j := raised], hash) != Some(j)
  {
    var grown := weights[j := raised];
    BoundaryMoves(weights, j, raised, k);
    var was, now := Start(Prefix(weights, k), Total(weights)), StartAfter(weights, j, raised, k);
    var edge := if Prefix(weights, k) < Prefix(weights, j) then j else j + 1;
    PrefixMonotone(weights, j, j + 1);
    if Prefix(weights, k) < Prefix(weights, j) {
      if k >= j { PrefixMonotone(weights, j, k); }
      hash := now;
    } else {
      if k <= j + 1 { PrefixMonotone(weights, k, j + 1); }
      hash := now - 1;
    }
    BoundaryInRange(weights, k);
    BoundaryInRange(grown, k);
    PrefixRaised(weights, j, raised, k);
    PrefixRaised(weights, j, raised, edge);
    if edge == j {
      StartStep(Prefix(grown, k), Prefix(grown, j), Total(grown));
    } else {
      StartStep(Prefix(grown, j + 1), Prefix(grown, k), Total(grown));
    }
    PastBoundary(weights, hash, k);
    PastBoundary(grown, hash, k);
    PastBoundary(grown, hash, edge);
  }

  /** Exactly when a raise moves keys only into the raised entry: when no boundary between two other entries moves. */
  lemma {:induction false} OnlyIntoRaisedIff(weights: seq<nat>, j: nat, raised: nat)
    requires j < |weights| && weights[j] <= raised
    requires Allowed(weights) && Allowed(weights[j := raised])
    ensures OnlyIntoRaised(weights, j, raised) <==> BystandersStand(weights, j, raised)
  {
    if OnlyIntoRaised(weights, j, raised) {
      forall k: nat | k <= |weights| && Bystander(weights, j, k)
        ensures StartAfter(weights, j, raised, k) == Start(Prefix(weights, k), Total(weights))
      {
        if StartAfter(weights, j, raised, k) != Start(Prefix(weights, k), Total(weights)) {
          var hash := MovedBoundaryCarries(weights, j, raised, k);
          assert false;
        }
      }
    } else {
      var hash: nat :| hash < HASHES &&
        !(Choose(weights[j := raised], hash) == Choose(weights, hash) || Choose(weights[j := raised], hash) == Some(j));
      ChosenOwns(weights, hash);
      MovedKeyCrosses(weights, j, raised, hash);
    }
  }

  /** For totals up to 65536 the condition is about the weights alone: nothing is raised, or no boundary has bystanders on both sides. */
  lemma {:induction false} OnlyIntoRaisedSmallTotals(weights: seq<nat>, j: nat, raised: nat)
    requires j < |weights| && weights[j] <= raised
    requires Allowed(weights) && Total(weights) + raised - weights[j] <= 0x1_0000
    ensures OnlyIntoRaised(weights, j, raised) <==>
            raised == weights[j] || forall k :: 0 <= k <= |weights| ==> !Bystander(weights, j, k)
  {
    RaisedStart(weights, j, raised, 0);
    OnlyIntoRaisedIff(weights, j, raised);
    var d := raised - weights[j];
    var total := Total(weights);
    forall k: nat | d > 0 && k <= |weights| && Bystander(weights, j, k)
      ensures StartAfter(weights, j, raised, k) != Start(Prefix(weights, k), total)
    {
      var c := Prefix(weights, k);
      if k <= j {
        PrefixMonotone(weights, k, j);
        PrefixMonotone(weights, j, j + 1);
        BoundaryDrops(c, total, d);
      } else {
        PrefixMonotone(weights, j, k);
        BoundaryClimbs(c, total, d);
      }
    }
  }

  /** Two entries: every raise moves keys only into the raised entry. */
  lemma {:induction false} TwoEntries(weights: seq<nat>, j: nat, raised: nat)
    requires |weights| == 2 && j < 2 && weights[j] <= raised
    requires Allowed(weights) && Allowed(weights[j := raised])
    ensures OnlyIntoRaised(weights, j, raised)
  {
    forall k: nat | k <= 2 ensures !Bystander(weights, j, k) {
      assert Prefix(weights, 1) == weights[0] && Prefix(weights, 2) == weights[0] + weights[1];
    }
    OnlyIntoRaisedIff(weights, j, raised);
  }

  lemma {:induction false} BoundaryInRange(weights: seq<nat>, k: nat)
    requires k <= |weights| && 0 < Total(weights)
    ensures Start(Prefix(weights, k), Total(weights)) <= HASHES
  {
    PrefixMonotone(weights, k, |weights|);
    StartMonotone(Prefix(weights, k), Total(weights), Total(weights));
    StartEnds(Total(weights));
  }
}
