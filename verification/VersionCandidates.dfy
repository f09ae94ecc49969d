/**
 Whether an edit of a version policy makes some verdict stricter, decided on finitely many versions. Versions,
 up to missing zeros, are numbers of four digits in base 10^9, so each but the last has a next one.
 */
module VersionCandidates {
  import opened Text
  import opened VersionPolicy
  import SemVer

  const SEGMENT := 1_000_000_000
  const WIDTH := 4

  function Scale(width: nat): nat {
    if width == 0 then 1 else SEGMENT * Scale(width - 1)
  }

  predicate AreInRange(segments: seq<nat>) {
    forall k :: 0 <= k < |segments| ==> segments[k] < SEGMENT
  }

  /** Segments, padded with zeros to the width, as the digits of a number. */
  function Code(segments: seq<nat>, width: nat): nat {
    if width == 0 then 0 else At(segments, 0) * Scale(width - 1) + Code(Rest(segments), width - 1)
  }

  lemma {:induction false} Multiply(a: nat, b: nat, scale: nat)
    requires a <= b
    ensures a * scale <= b * scale
  {
  }

  lemma {:induction false} Cancel(a: nat, b: nat, scale: nat)
    requires a * scale < b * scale
    ensures a < b
  {
    Multiply(if a < b then a else b, a, scale);
  }

  lemma {:induction false} DigitFits(digit: nat, scale: nat, below: nat)
    requires digit < SEGMENT && below < scale
    ensures digit * scale + below < SEGMENT * scale
  {
    Multiply(digit + 1, SEGMENT, scale);
    assert (digit + 1) * scale == digit * scale + scale;
  }

  lemma {:induction false} CodeBelow(segments: seq<nat>, width: nat)
    requires AreInRange(segments)
    ensures Code(segments, width) < Scale(width)
  {
    if width > 0 {
      CodeBelow(Rest(segments), width - 1);
      DigitFits(At(segments, 0), Scale(width - 1), Code(Rest(segments), width - 1));
    }
  }

  lemma {:induction false} DigitsDecide(scale: nat, d: nat, e: nat, x: nat, y: nat)
    requires x < scale && y < scale
    ensures d * scale + x < e * scale + y <==> d < e || (d == e && x < y)
    ensures d * scale + x == e * scale + y <==> d == e && x == y
  {
    SemVer.DigitStep(scale, d, e, x, y);
    SemVer.DigitStep(scale, e, d, y, x);
  }

  lemma {:induction false} NothingLeft(width: nat)
    ensures Code([], width) == 0
  {
    if width > 0 {
      NothingLeft(width - 1);
    }
  }

  lemma {:induction false} CodeOrders(a: seq<nat>, b: seq<nat>, width: nat)
    requires AreInRange(a) && AreInRange(b) && |a| <= width && |b| <= width
    ensures FirstDifference(a, b) < 0 <==> Code(a, width) < Code(b, width)
    ensures FirstDifference(a, b) == 0 <==> Code(a, width) == Code(b, width)
    decreases width
  {
    if a == [] && b == [] {
      NothingLeft(width);
    } else {
      CodeOrders(Rest(a), Rest(b), width - 1);
      CodeBelow(Rest(a), width - 1);
      CodeBelow(Rest(b), width - 1);
      DigitsDecide(Scale(width - 1), At(a, 0), At(b, 0), Code(Rest(a), width - 1), Code(Rest(b), width - 1));
    }
  }

  /** The digits of a number. */
  function Digits(n: nat, width: nat): (segments: seq<nat>)
    ensures |segments| == width
  {
    if width == 0 then [] else
      ScaleIsPositive(width - 1);
      [n / Scale(width - 1)] + Digits(n % Scale(width - 1), width - 1)
  }

  lemma {:induction false} ScaleIsPositive(width: nat)
    ensures Scale(width) > 0
  {
    if width > 0 {
      ScaleIsPositive(width - 1);
    }
  }

  lemma {:induction false} QuotientFits(n: nat, scale: nat)
    requires 0 < scale && n < SEGMENT * scale
    ensures n / scale < SEGMENT && n / scale * scale + n % scale == n
  {
    assert n / scale * scale <= n;
    Cancel(n / scale, SEGMENT, scale);
  }

  lemma {:induction false} DigitsDenote(n: nat, width: nat)
    requires n < Scale(width)
    ensures AreInRange(Digits(n, width)) && Code(Digits(n, width), width) == n
  {
    if width > 0 {
      var scale := Scale(width - 1);
      ScaleIsPositive(width - 1);
      QuotientFits(n, scale);
      DigitsDenote(n % scale, width - 1);
      assert Rest(Digits(n, width)) == Digits(n % scale, width - 1);
    }
  }

  // ----- Versions as numbers -----

  function Decimals(segments: seq<nat>): (parts: seq<string>)
    ensures |parts| == |segments|
  {
    if segments == [] then [] else [SemVer.Decimal(segments[0])] + Decimals(segments[1..])
  }

  lemma {:induction false} DecimalIsSegment(n: nat)
    requires n < SEGMENT
    ensures IsSegment(SemVer.Decimal(n)) && '.' !in SemVer.Decimal(n)
  {
    var text := SemVer.Decimal(n);
    SemVer.DecimalDenotes(n);
    assert SemVer.IsDigits(text);
    if |text| > 9 {
      SemVer.ValueAtLeast(text);
      SemVer.Pow10Monotone(9, |text| - 1);
      BillionIsPower();
    }
  }

  lemma BillionIsPower()
    ensures SemVer.Pow10(9) == SEGMENT
  {
    assert SemVer.Pow10(3) == 1000;
    assert SemVer.Pow10(6) == 1_000_000;
  }

  lemma {:induction false} DecimalsAt(segments: seq<nat>)
    ensures forall k :: 0 <= k < |segments| ==> Decimals(segments)[k] == SemVer.Decimal(segments[k])
  {
    hide SemVer.Decimal;
    if segments != [] {
      DecimalsAt(segments[1..]);
    }
  }

  lemma {:induction false} DecimalsAreSegments(segments: seq<nat>)
    requires AreInRange(segments)
    ensures forall k :: 0 <= k < |segments| ==> IsSegment(Decimals(segments)[k]) && '.' !in Decimals(segments)[k]
  {
    DecimalsAt(segments);
    hide SemVer.Decimal, IsSegment, Decimals;
    forall k | 0 <= k < |segments| ensures IsSegment(Decimals(segments)[k]) && '.' !in Decimals(segments)[k] {
      DecimalIsSegment(segments[k]);
    }
  }

  lemma {:induction false} NumberFirst(part: string, rest: seq<string>)
    requires IsSegment(part) && forall k :: 0 <= k < |rest| ==> IsSegment(rest[k])
    ensures Numbers([part] + rest) == [SemVer.Value(part)] + Numbers(rest)
  {
    hide SemVer.Value, IsSegment;
    assert ([part] + rest)[1..] == rest;
  }

  lemma {:induction false} DecimalsDenote(segments: seq<nat>)
    requires AreInRange(segments) && forall k :: 0 <= k < |segments| ==> IsSegment(Decimals(segments)[k])
    ensures Numbers(Decimals(segments)) == segments
  {
    if segments != [] {
      SemVer.DecimalDenotes(segments[0]);
      DecimalIsSegment(segments[0]);
      DecimalsAreSegments(segments[1..]);
      hide SemVer.Decimal, SemVer.Value, IsSegment;
      DecimalsDenote(segments[1..]);
      NumberFirst(SemVer.Decimal(segments[0]), Decimals(segments[1..]));
    }
  }

  /** The version a number stands for. */
  function VersionOf(n: nat): (version: Version)
    requires n < Scale(WIDTH)
    ensures Segments(version) == Digits(n, WIDTH)
  {
    DigitsDenote(n, WIDTH);
    var parts := Decimals(Digits(n, WIDTH));
    DecimalsAreSegments(Digits(n, WIDTH));
    DecimalsDenote(Digits(n, WIDTH));
    SplitJoin(parts, '.');
    Join(parts, ".")
  }

  function NumberOf(version: Version): nat {
    Code(Segments(version), WIDTH)
  }

  lemma {:induction false} SegmentsAreInRange(parts: seq<string>)
    requires forall k :: 0 <= k < |parts| ==> IsSegment(parts[k])
    ensures |Numbers(parts)| == |parts| && AreInRange(Numbers(parts))
  {
    if parts != [] {
      assert IsSegment(parts[0]);
      SemVer.ValueBelow(parts[0]);
      SemVer.Pow10Monotone(|parts[0]|, 9);
      BillionIsPower();
      SegmentsAreInRange(parts[1..]);
    }
  }

  /** Comparing versions is comparing their numbers. */
  lemma {:induction false} NumbersOrder(a: Version, b: Version)
    ensures Compare(a, b) < 0 <==> NumberOf(a) < NumberOf(b)
    ensures Compare(a, b) == 0 <==> NumberOf(a) == NumberOf(b)
    ensures NumberOf(a) < Scale(WIDTH)
  {
    SegmentsAreInRange(Split(a, '.'));
    SegmentsAreInRange(Split(b, '.'));
    CodeOrders(Segments(a), Segments(b), WIDTH);
    CodeBelow(Segments(a), WIDTH);
  }

  /** The least version above a version, if any. */
  function NextVersion(version: Version): Option<Version> {
    if NumberOf(version) + 1 < Scale(WIDTH) then Some(VersionOf(NumberOf(version) + 1)) else None
  }

  lemma {:induction false} NextIsLeast(version: Version, above: Version)
    ensures Compare(version, above) < 0 <==>
            NextVersion(version).Some? && Compare(version, NextVersion(version).value) < 0 && Compare(NextVersion(version).value, above) <= 0
  {
    NumbersOrder(version, above);
    NumbersOrder(above, version);
    if NextVersion(version).Some? {
      var next := NextVersion(version).value;
      DigitsDenote(NumberOf(version) + 1, WIDTH);
      assert NumberOf(next) == NumberOf(version) + 1;
      NumbersOrder(version, next);
      NumbersOrder(next, above);
    }
  }

  // ----- What verdicts mean -----

  /** The number of some version in the list. */
  ghost predicate IsNumberIn(n: nat, versions: seq<Version>) {
    exists k :: 0 <= k < |versions| && NumberOf(versions[k]) == n
  }

  ghost predicate IsUnder(n: nat, floor: Option<Version>) {
    floor.Some? && n < NumberOf(floor.value)
  }

  /** Hard: the number of a blocked version, or below the minimum's. Soft: not hard, and below the recommended one's. Otherwise ok. */
  lemma {:induction false} VerdictMeans(rules: Rules, version: Version)
    ensures var n, verdict := NumberOf(version), VersionPolicy.Evaluate(rules, version);
            && (verdict == Hard <==> IsNumberIn(n, rules.blocked) || IsUnder(n, rules.minSupported))
            && (verdict == Soft <==> !IsNumberIn(n, rules.blocked) && !IsUnder(n, rules.minSupported) && IsUnder(n, rules.recommended))
  {
    forall k | 0 <= k < |rules.blocked|
      ensures Compare(rules.blocked[k], version) == 0 <==> NumberOf(rules.blocked[k]) == NumberOf(version)
    {
      NumbersOrder(rules.blocked[k], version);
    }
    if rules.minSupported.Some? {
      NumbersOrder(version, rules.minSupported.value);
    }
    if rules.recommended.Some? {
      NumbersOrder(version, rules.recommended.value);
    }
    hide NumberOf, Compare;
    assert IsBlocked(rules.blocked, version) <==> IsNumberIn(NumberOf(version), rules.blocked);
  }

  /** Changing the recommended version alone makes no verdict hard that was not, and changing the minimum alone makes none soft that was ok. */
  lemma {:induction false} FloorsDoTheirOwn(rules: Rules, floor: Option<Version>, version: Version)
    ensures VersionPolicy.Evaluate(rules.(recommended := floor), version) == Hard <==> VersionPolicy.Evaluate(rules, version) == Hard
    ensures VersionPolicy.Evaluate(rules, version) == Ok ==> VersionPolicy.Evaluate(rules.(minSupported := floor), version) != Soft
    ensures VersionPolicy.Evaluate(rules, version) == Soft ==> VersionPolicy.Evaluate(rules.(minSupported := floor), version) != Ok
  {
    VerdictMeans(rules, version);
    VerdictMeans(rules.(recommended := floor), version);
    VerdictMeans(rules.(minSupported := floor), version);
    hide VersionPolicy.Evaluate, IsNumberIn, IsUnder, NumberOf;
  }

  // ----- Candidates -----

  function Nexts(blocked: seq<Version>): seq<Version> {
    if blocked == [] then []
    else (if NextVersion(blocked[0]).Some? then [NextVersion(blocked[0]).value] else []) + Nexts(blocked[1..])
  }

  function Floor(floor: Option<Version>): seq<Version> {
    if floor.Some? then [floor.value] else []
  }

  const ZERO: Version := "0"

  /** Zero, the floors before the edit, the versions next to those blocked before it, and those blocked after it. */
  function Candidates(before: Option<Rules>, after: Rules): seq<Version> {
    var previous := Previous(before);
    [ZERO] + Floor(previous.minSupported) + Floor(previous.recommended) + Nexts(previous.blocked) + after.blocked
  }

  predicate IsStricter(before: Option<Rules>, after: Rules, version: Version) {
    Rank(VersionPolicy.Evaluate(after, version)) > Rank(Verdict(before, version))
  }

  lemma {:induction false} NextsHold(blocked: seq<Version>, k: nat)
    requires k < |blocked| && NextVersion(blocked[k]).Some?
    ensures NextVersion(blocked[k]).value in Nexts(blocked)
  {
    if k > 0 {
      NextsHold(blocked[1..], k - 1);
    }
  }

  /** Between a version and one that is not blocked lies one that is not blocked either, and is the first or next to a blocked one. */
  lemma {:induction false} FreeBetween(blocked: seq<Version>, low: Version, version: Version) returns (free: Version)
    requires Compare(low, version) <= 0 && !IsBlocked(blocked, version)
    ensures Compare(low, free) <= 0 && Compare(free, version) <= 0 && !IsBlocked(blocked, free)
    ensures free == low || free in Nexts(blocked)
    decreases NumberOf(version) - NumberOf(low)
  {
    NumbersOrder(low, version);
    NumbersOrder(low, low);
    if !IsBlocked(blocked, low) {
      return low;
    }
    var k :| 0 <= k < |blocked| && Compare(blocked[k], low) == 0;
    NumbersOrder(blocked[k], low);
    NumbersOrder(blocked[k], version);
    NextIsLeast(blocked[k], version);
    var next := NextVersion(blocked[k]).value;
    NumbersOrder(blocked[k], next);
    NumbersOrder(next, version);
    NumbersOrder(low, next);
    free := FreeBetween(blocked, next, version);
    NextsHold(blocked, k);
    NumbersOrder(next, free);
    NumbersOrder(low, free);
  }

  lemma {:induction false} ZeroIsFirst(version: Version)
    ensures Compare(ZERO, version) <= 0
  {
    ZeroVersion();
    ZeroIsLeast(Segments(ZERO), Segments(version));
  }

  lemma {:induction false} BelowIsDownward(floor: Option<Version>, low: Version, high: Version)
    requires Compare(low, high) <= 0
    ensures IsBelow(high, floor) ==> IsBelow(low, floor)
  {
    if floor.Some? {
      CompareIsOrder(low, high, floor.value);
    }
  }

  /** The higher of two floors, or zero: the least version below neither. */
  function Lowest(a: Option<Version>, b: Option<Version>): Version {
    if a.None? && b.None? then ZERO
    else if a.None? then b.value
    else if b.None? then a.value
    else if Compare(a.value, b.value) <= 0 then b.value else a.value
  }

  lemma {:induction false} LowestIsLeast(a: Option<Version>, b: Option<Version>, version: Version)
    ensures !IsBelow(version, a) && !IsBelow(version, b) <==> Compare(Lowest(a, b), version) <= 0
  {
    ZeroIsFirst(version);
    if a.Some? {
      CompareIsOrder(version, a.value, version);
      CompareIsOrder(a.value, version, a.value);
    }
    if b.Some? {
      CompareIsOrder(version, b.value, version);
      CompareIsOrder(b.value, version, b.value);
    }
    if a.Some? && b.Some? {
      CompareIsOrder(a.value, b.value, version);
      CompareIsOrder(b.value, a.value, version);
    }
  }

  /** If some verdict turns stricter, one of a candidate does. */
  lemma {:induction false} StricterAtCandidate(before: Option<Rules>, after: Rules, version: Version) returns (candidate: Version)
    requires IsStricter(before, after, version)
    ensures candidate in Candidates(before, after) && IsStricter(before, after, candidate)
  {
    var previous := Previous(before);
    NoRulesAnswerOk(before, version);
    if IsBlocked(after.blocked, version) {
      var k :| 0 <= k < |after.blocked| && Compare(after.blocked[k], version) == 0;
      EqualVersionsAreJudgedAlike(before, after.blocked[k], version);
      EqualVersionsAreJudgedAlike(Some(after), after.blocked[k], version);
      return after.blocked[k];
    }
    var recommended := if IsBelow(version, after.minSupported) then None else previous.recommended;
    var low := Lowest(previous.minSupported, recommended);
    LowestIsLeast(previous.minSupported, recommended, version);
    candidate := FreeBetween(previous.blocked, low, version);
    LowestIsLeast(previous.minSupported, recommended, candidate);
    BelowIsDownward(after.minSupported, candidate, version);
    BelowIsDownward(after.recommended, candidate, version);
    NoRulesAnswerOk(before, candidate);
  }

  lemma {:induction false} NoRulesAnswerOk(before: Option<Rules>, version: Version)
    ensures Verdict(before, version) == VersionPolicy.Evaluate(Previous(before), version)
  {
  }

  /** For every edit, raised floors included: some version's verdict turns stricter exactly when a candidate's does. */
  lemma {:induction false} StricterIffAtCandidate(before: Option<Rules>, after: Rules)
    ensures (exists version: Version :: IsStricter(before, after, version)) <==>
            exists k :: 0 <= k < |Candidates(before, after)| && IsStricter(before, after, Candidates(before, after)[k])
  {
    if version: Version :| IsStricter(before, after, version) {
      var candidate := StricterAtCandidate(before, after, version);
    }
  }
}
