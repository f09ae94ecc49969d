/**
 The version policy of an app's over-the-air releases: the verdict for an installed version, and the
 classification of an edit as tightening, relaxing or neither.
 */
module VersionPolicy {
  import opened Text
  import SemVer

  // ----- Versions -----

  predicate IsSegment(s: string) {
    SemVer.IsDigits(s) && |s| <= 9
  }

  /** One to four dot-separated decimals of one to nine digits. */
  predicate IsVersion(version: string) {
    |Split(version, '.')| <= 4 && forall k :: 0 <= k < |Split(version, '.')| ==> IsSegment(Split(version, '.')[k])
  }

  type Version = s: string | IsVersion(s) witness "0"

  function Numbers(parts: seq<string>): seq<nat>
    requires forall k :: 0 <= k < |parts| ==> IsSegment(parts[k])
  {
    if parts == [] then []
    else
      assert IsSegment(parts[0]);
      [SemVer.Value(parts[0])] + Numbers(parts[1..])
  }

  function Segments(version: Version): seq<nat> {
    Numbers(Split(version, '.'))
  }

  /** Segment `i`; a missing one counts as 0. */
  function At(segments: seq<nat>, i: nat): nat {
    if i < |segments| then segments[i] else 0
  }

  function Rest(segments: seq<nat>): seq<nat> {
    if segments == [] then [] else segments[1..]
  }

  /** The first nonzero difference, segment by segment. */
  function FirstDifference(a: seq<nat>, b: seq<nat>): int
    decreases |a| + |b|
  {
    if a == [] && b == [] then 0
    else
      var diff := At(a, 0) - At(b, 0);
      if diff != 0 then diff else FirstDifference(Rest(a), Rest(b))
  }

  function Compare(left: Version, right: Version): int {
    FirstDifference(Segments(left), Segments(right))
  }

  lemma {:induction false} DifferenceOrder(a: seq<nat>, b: seq<nat>, c: seq<nat>)
    ensures FirstDifference(a, b) == -FirstDifference(b, a)
    ensures FirstDifference(a, b) <= 0 && FirstDifference(b, c) <= 0 ==> FirstDifference(a, c) <= 0
    ensures FirstDifference(a, b) <= 0 && FirstDifference(b, c) < 0 ==> FirstDifference(a, c) < 0
    ensures FirstDifference(a, b) < 0 && FirstDifference(b, c) <= 0 ==> FirstDifference(a, c) < 0
    decreases |a| + |b| + |c|
  {
    if a != [] || b != [] || c != [] {
      DifferenceOrder(Rest(a), Rest(b), Rest(c));
    }
  }

  lemma {:induction false} AgreeingDoNotDiffer(a: seq<nat>, b: seq<nat>)
    requires forall i: nat :: At(a, i) == At(b, i)
    ensures FirstDifference(a, b) == 0
    decreases |a| + |b|
  {
    if a != [] || b != [] {
      assert At(a, 0) == At(b, 0);
      forall i: nat ensures At(Rest(a), i) == At(Rest(b), i) {
        assert At(a, i + 1) == At(b, i + 1);
      }
      AgreeingDoNotDiffer(Rest(a), Rest(b));
    }
  }

  lemma {:induction false} UndifferingAgree(a: seq<nat>, b: seq<nat>, i: nat)
    requires FirstDifference(a, b) == 0
    ensures At(a, i) == At(b, i)
    decreases |a| + |b|
  {
    if i > 0 && (a != [] || b != []) {
      UndifferingAgree(Rest(a), Rest(b), i - 1);
    }
  }

  lemma {:induction false} NoDifference(a: seq<nat>, b: seq<nat>)
    ensures FirstDifference(a, b) == 0 <==> forall i: nat :: At(a, i) == At(b, i)
  {
    if FirstDifference(a, b) == 0 {
      forall i: nat ensures At(a, i) == At(b, i) {
        UndifferingAgree(a, b, i);
      }
    } else if forall i: nat :: At(a, i) == At(b, i) {
      AgreeingDoNotDiffer(a, b);
    }
  }

  /** Comparison is a total preorder, and 0 exactly when the versions agree in every segment, missing ones read as 0. */
  lemma {:induction false} CompareIsOrder(a: Version, b: Version, c: Version)
    ensures Compare(a, b) == -Compare(b, a)
    ensures Compare(a, b) == 0 <==> forall i: nat :: At(Segments(a), i) == At(Segments(b), i)
    ensures Compare(a, b) <= 0 && Compare(b, c) <= 0 ==> Compare(a, c) <= 0
    ensures Compare(a, b) <= 0 && Compare(b, c) < 0 ==> Compare(a, c) < 0
    ensures Compare(a, b) < 0 && Compare(b, c) <= 0 ==> Compare(a, c) < 0
  {
    DifferenceOrder(Segments(a), Segments(b), Segments(c));
    NoDifference(Segments(a), Segments(b));
  }

  // ----- Verdicts -----

  /** The rules of a policy. `prompt` stands for the messages and the prompt interval, `approval` for the approval policy's JSON text. */
  datatype Rules = Rules(
    minSupported: Option<Version>,
    recommended: Option<Version>,
    blocked: seq<Version>,
    storeUrl: Option<string>,
    approval: Option<string>,
    prompt: string)

  datatype Status = Ok | Soft | Hard

  function Rank(status: Status): nat {
    match status
    case Ok => 0
    case Soft => 1
    case Hard => 2
  }

  predicate IsBlocked(blocked: seq<Version>, version: Version) {
    exists k :: 0 <= k < |blocked| && Compare(blocked[k], version) == 0
  }

  predicate IsBelow(version: Version, floor: Option<Version>) {
    floor.Some? && Compare(version, floor.value) < 0
  }

  function Evaluate(rules: Rules, version: Version): Status {
    if IsBlocked(rules.blocked, version) then Hard
    else if IsBelow(version, rules.minSupported) then Hard
    else if IsBelow(version, rules.recommended) then Soft
    else Ok
  }

  /** An app without a policy answers `ok`. */
  function Verdict(policy: Option<Rules>, version: Version): Status {
    if policy.None? then Ok else Evaluate(policy.value, version)
  }

  // ----- Edits -----

  datatype Direction = Tighten | Relax | Neutral

  function FloorMove(before: Option<Version>, after: Option<Version>): Direction {
    if before == after then Neutral
    else if after.None? then Relax
    else if before.None? then Tighten
    else
      var diff := Compare(after.value, before.value);
      if diff == 0 then Neutral else if diff > 0 then Tighten else Relax
  }

  const NO_RULES := Rules(None, None, [], None, None, "")

  function Previous(before: Option<Rules>): Rules {
    if before.None? then NO_RULES else before.value
  }

  predicate HasAdded(before: seq<Version>, after: seq<Version>) {
    exists k :: 0 <= k < |after| && after[k] !in before
  }

  function Classify(before: Option<Rules>, after: Rules): Direction {
    var previous := Previous(before);
    var moves := {FloorMove(previous.minSupported, after.minSupported), FloorMove(previous.recommended, after.recommended)};
    var isStoreUrlChanged := previous.storeUrl != after.storeUrl;
    var isApprovalChanged := previous.approval.Some? && previous.approval != after.approval;
    if Tighten in moves || HasAdded(previous.blocked, after.blocked) || isStoreUrlChanged || isApprovalChanged then Tighten
    else if Relax in moves || HasAdded(after.blocked, previous.blocked) then Relax
    else Neutral
  }

  /** Some floor is raised, so that its version has to be in the store by now. */
  predicate IsFloorRaised(before: Option<Rules>, after: Rules) {
    var previous := Previous(before);
    || FloorMove(previous.minSupported, after.minSupported) == Tighten
    || FloorMove(previous.recommended, after.recommended) == Tighten
  }

  /** A floor that does not tighten puts no version newly below it; one that does not move changes nothing. */
  lemma {:induction false} FloorMoveIsSound(before: Option<Version>, after: Option<Version>, version: Version)
    ensures FloorMove(before, after) != Tighten && IsBelow(version, after) ==> IsBelow(version, before)
    ensures FloorMove(before, after) != Relax && IsBelow(version, before) ==> IsBelow(version, after)
  {
    if before.Some? && after.Some? {
      CompareIsOrder(version, after.value, before.value);
      CompareIsOrder(version, before.value, after.value);
      CompareIsOrder(after.value, before.value, version);
    }
  }

  predicate IsZero(version: Version) {
    forall i :: 0 <= i < |Segments(version)| ==> Segments(version)[i] == 0
  }

  lemma {:induction false} ZeroIsLeast(zero: seq<nat>, other: seq<nat>)
    requires forall i :: 0 <= i < |zero| ==> zero[i] == 0
    ensures FirstDifference(zero, other) <= 0
    ensures FirstDifference(zero, other) == 0 <==> forall i :: 0 <= i < |other| ==> other[i] == 0
    decreases |zero| + |other|
  {
    if zero != [] || other != [] {
      ZeroIsLeast(Rest(zero), Rest(other));
      assert forall i :: 0 <= i < |Rest(other)| ==> Rest(other)[i] == other[i + 1];
    }
  }

  lemma ZeroVersion()
    ensures Segments("0") == [0]
  {
    SplitPlain("0", '.');
    assert SemVer.Value("0") == 0;
    assert Numbers(["0"]) == [0];
  }

  /** A floor is classified as tightening exactly when some version falls newly below it, save for a first floor of zero. */
  lemma {:induction false} FloorMoveIsExact(before: Option<Version>, after: Option<Version>)
    ensures (exists version: Version :: IsBelow(version, after) && !IsBelow(version, before)) <==>
            FloorMove(before, after) == Tighten && !(before.None? && IsZero(after.value))
  {
    if FloorMove(before, after) == Tighten {
      if before.Some? {
        CompareIsOrder(before.value, after.value, before.value);
        CompareIsOrder(before.value, before.value, before.value);
        assert IsBelow(before.value, after) && !IsBelow(before.value, before);
      } else {
        ZeroVersion();
        ZeroIsLeast(Segments("0"), Segments(after.value));
        if IsZero(after.value) {
          forall version: Version ensures !IsBelow(version, after) {
            ZeroIsLeast(Segments(after.value), Segments(version));
            CompareIsOrder(after.value, version, version);
          }
        } else {
          assert IsBelow("0", after) && !IsBelow("0", before);
        }
      }
    } else {
      forall version: Version ensures IsBelow(version, after) ==> IsBelow(version, before) {
        FloorMoveIsSound(before, after, version);
      }
    }
  }

  /** A move back is the opposite move, so a floor relaxes exactly when moving it back would tighten. */
  lemma {:induction false} MovesAreReversed(before: Option<Version>, after: Option<Version>)
    ensures FloorMove(before, after) == Relax <==> FloorMove(after, before) == Tighten
    ensures FloorMove(before, after) == Neutral <==> FloorMove(after, before) == Neutral
  {
    if before.Some? && after.Some? {
      CompareIsOrder(after.value, before.value, after.value);
    }
  }

  lemma {:induction false} NothingBlockedAnew(before: seq<Version>, after: seq<Version>, version: Version)
    requires !HasAdded(before, after)
    ensures IsBlocked(after, version) ==> IsBlocked(before, version)
  {
    if IsBlocked(after, version) {
      var k :| 0 <= k < |after| && Compare(after[k], version) == 0;
      assert after[k] in before;
      var i :| 0 <= i < |before| && before[i] == after[k];
      assert Compare(before[i], version) == 0;
    }
  }

  /** An edit not classified as tightening never makes any version's verdict stricter; a neutral one changes no verdict. */
  lemma {:induction false} ClassificationIsSound(before: Option<Rules>, after: Rules, version: Version)
    ensures Classify(before, after) != Tighten ==> Rank(Evaluate(after, version)) <= Rank(Verdict(before, version))
    ensures Classify(before, after) == Neutral ==> Evaluate(after, version) == Verdict(before, version)
  {
    var previous := Previous(before);
    FloorMoveIsSound(previous.minSupported, after.minSupported, version);
    FloorMoveIsSound(previous.recommended, after.recommended, version);
    if Classify(before, after) != Tighten {
      NothingBlockedAnew(previous.blocked, after.blocked, version);
      if Classify(before, after) == Neutral {
        NothingBlockedAnew(after.blocked, previous.blocked, version);
      }
    }
  }

  /** Edits of one component: floors go by their move; a blocked version added tightens, one only removed relaxes. */
  lemma {:induction false} VersionEditsAreDirected(rules: Rules, floor: Option<Version>, blocked: seq<Version>)
    ensures Classify(Some(rules), rules.(minSupported := floor)) == FloorMove(rules.minSupported, floor)
    ensures Classify(Some(rules), rules.(recommended := floor)) == FloorMove(rules.recommended, floor)
    ensures Classify(Some(rules), rules.(blocked := blocked)) ==
            if exists version: Version :: version in blocked && version !in rules.blocked then Tighten
            else if exists version: Version :: version in rules.blocked && version !in blocked then Relax else Neutral
  {
    SomeAdded(rules.blocked, blocked);
    SomeAdded(blocked, rules.blocked);
    NothingAdded(rules.blocked);
    StaysPut(rules.minSupported);
    StaysPut(rules.recommended);
    hide HasAdded, FloorMove;
  }

  /** A changed store URL tightens, and so does any change of an approval policy there was; a first approval policy and a new prompt do nothing. */
  lemma {:induction false} OtherEditsAreDirected(rules: Rules, url: Option<string>, approval: Option<string>, prompt: string)
    ensures Classify(Some(rules), rules.(storeUrl := url)) == if url != rules.storeUrl then Tighten else Neutral
    ensures Classify(Some(rules), rules.(approval := approval)) == if rules.approval.Some? && approval != rules.approval then Tighten else Neutral
    ensures Classify(Some(rules), rules.(prompt := prompt)) == Neutral
  {
    NothingAdded(rules.blocked);
    StaysPut(rules.minSupported);
    StaysPut(rules.recommended);
    hide HasAdded, FloorMove;
  }

  /** The same edit, one component at a time. */
  function SingleEdits(before: Rules, after: Rules): seq<Rules> {
    [before.(minSupported := after.minSupported), before.(recommended := after.recommended), before.(blocked := after.blocked),
     before.(storeUrl := after.storeUrl), before.(approval := after.approval), before.(prompt := after.prompt)]
  }

  /** An edit tightens when one of its components does, relaxes when none tightens and one relaxes, and does nothing otherwise. */
  lemma {:induction false} StrongestComponentDecides(before: Rules, after: Rules)
    ensures var single := SingleEdits(before, after);
            Classify(Some(before), after) ==
            if exists k :: 0 <= k < |single| && Classify(Some(before), single[k]) == Tighten then Tighten
            else if exists k :: 0 <= k < |single| && Classify(Some(before), single[k]) == Relax then Relax
            else Neutral
  {
    var single := SingleEdits(before, after);
    NothingAdded(before.blocked);
    StaysPut(before.minSupported);
    StaysPut(before.recommended);
    hide HasAdded, FloorMove;
    assert single[0].minSupported == after.minSupported && single[1].recommended == after.recommended && single[2].blocked == after.blocked;
    assert single[3].storeUrl == after.storeUrl && single[4].approval == after.approval && single[5].prompt == after.prompt;
    forall k | 0 <= k < |single| ensures k in [0, 1, 2, 3, 4, 5] {}
  }

  /** Without a policy before, an edit is one of the empty rules. */
  lemma {:induction false} FirstPolicyIsAnEdit(after: Rules)
    ensures Classify(None, after) == Classify(Some(NO_RULES), after)
    ensures NO_RULES.minSupported == NO_RULES.recommended == None && NO_RULES.blocked == []
    ensures NO_RULES.storeUrl == NO_RULES.approval == None
  {
  }

  lemma {:induction false} SomeAdded(before: seq<Version>, after: seq<Version>)
    ensures HasAdded(before, after) <==> exists version: Version :: version in after && version !in before
  {
    if HasAdded(before, after) {
      var k :| 0 <= k < |after| && after[k] !in before;
      assert after[k] in after;
    }
  }

  lemma {:induction false} NothingAdded(versions: seq<Version>)
    ensures !HasAdded(versions, versions)
  {
  }

  lemma {:induction false} StaysPut(floor: Option<Version>)
    ensures FloorMove(floor, floor) == Neutral
  {
  }

  /** A policy's successive states: only the first may be "no policy". */
  predicate IsHistory(history: seq<Option<Rules>>) {
    forall k :: 0 < k < |history| ==> history[k].Some?
  }

  /** Over any history, a verdict is stricter later than earlier only if some edit between was classified as tightening. */
  lemma {:induction false} StricterNeedsTightening(history: seq<Option<Rules>>, i: nat, j: nat, version: Version)
    requires IsHistory(history) && i <= j < |history|
    requires Rank(Verdict(history[j], version)) > Rank(Verdict(history[i], version))
    ensures exists k :: i <= k < j && Classify(history[k], history[k + 1].value) == Tighten
    decreases j - i
  {
    ClassificationIsSound(history[j - 1], history[j].value, version);
    if Classify(history[j - 1], history[j - 1 + 1].value) != Tighten {
      StricterNeedsTightening(history, i, j - 1, version);
    }
  }

  /** When no floor is raised, a verdict turns stricter only for versions the edit newly blocks. */
  lemma {:induction false} OnlyBlocksTighten(before: Option<Rules>, after: Rules, version: Version)
    requires !IsFloorRaised(before, after)
    requires Rank(Evaluate(after, version)) > Rank(Verdict(before, version))
    ensures IsBlocked(after.blocked, version) && (before.Some? ==> !IsBlocked(before.value.blocked, version))
    ensures HasAdded(Previous(before).blocked, after.blocked)
  {
    var previous := Previous(before);
    FloorMoveIsSound(previous.minSupported, after.minSupported, version);
    FloorMoveIsSound(previous.recommended, after.recommended, version);
    if !HasAdded(previous.blocked, after.blocked) {
      NothingBlockedAnew(previous.blocked, after.blocked, version);
    }
  }

  // ----- When blocking really blocks -----

  /** Versions that compare as equal are judged alike. */
  lemma {:induction false} EqualVersionsAreJudgedAlike(policy: Option<Rules>, a: Version, b: Version)
    requires Compare(a, b) == 0
    ensures Verdict(policy, a) == Verdict(policy, b)
  {
    if policy.Some? {
      BlockedAlike(policy.value.blocked, a, b);
      BelowAlike(policy.value.minSupported, a, b);
      BelowAlike(policy.value.recommended, a, b);
    }
  }

  lemma {:induction false} BlockedAlike(blocked: seq<Version>, a: Version, b: Version)
    requires Compare(a, b) == 0
    ensures IsBlocked(blocked, a) <==> IsBlocked(blocked, b)
  {
    CompareIsOrder(a, b, a);
    forall k | 0 <= k < |blocked| ensures Compare(blocked[k], a) == 0 <==> Compare(blocked[k], b) == 0 {
      CompareIsOrder(blocked[k], a, b);
      CompareIsOrder(blocked[k], b, a);
      CompareIsOrder(a, b, blocked[k]);
      CompareIsOrder(b, a, blocked[k]);
    }
  }

  lemma {:induction false} BelowAlike(floor: Option<Version>, a: Version, b: Version)
    requires Compare(a, b) == 0
    ensures IsBelow(a, floor) <==> IsBelow(b, floor)
  {
    if floor.Some? {
      CompareIsOrder(a, b, floor.value);
      CompareIsOrder(b, a, floor.value);
    }
  }

  lemma {:induction false} ListedIsBlocked(blocked: seq<Version>, k: nat)
    requires k < |blocked|
    ensures IsBlocked(blocked, blocked[k])
  {
    CompareIsOrder(blocked[k], blocked[k], blocked[k]);
  }

  /** Some version is newly blocked exactly when one of the listed versions was not blocked before, by value. */
  lemma {:induction false} BlocksAreExact(before: seq<Version>, after: seq<Version>)
    ensures (exists version: Version :: IsBlocked(after, version) && !IsBlocked(before, version)) <==>
            exists k :: 0 <= k < |after| && !IsBlocked(before, after[k])
  {
    forall version: Version | IsBlocked(after, version) && !IsBlocked(before, version)
      ensures exists k :: 0 <= k < |after| && !IsBlocked(before, after[k])
    {
      var k :| 0 <= k < |after| && Compare(after[k], version) == 0;
      BlockedAlike(before, after[k], version);
    }
    forall k | 0 <= k < |after| && !IsBlocked(before, after[k])
      ensures exists version: Version :: IsBlocked(after, version) && !IsBlocked(before, version)
    {
      ListedIsBlocked(after, k);
    }
  }

  /** With no floor raised, some version's verdict turns stricter exactly when the edit blocks a version that was not judged hard before. */
  lemma {:induction false} StricterIffNewlyHard(before: Option<Rules>, after: Rules)
    requires !IsFloorRaised(before, after)
    ensures (exists version: Version :: Rank(Evaluate(after, version)) > Rank(Verdict(before, version))) <==>
            exists k :: 0 <= k < |after.blocked| && Verdict(before, after.blocked[k]) != Hard
  {
    forall version: Version | Rank(Evaluate(after, version)) > Rank(Verdict(before, version))
      ensures exists k :: 0 <= k < |after.blocked| && Verdict(before, after.blocked[k]) != Hard
    {
      OnlyBlocksTighten(before, after, version);
      var k :| 0 <= k < |after.blocked| && Compare(after.blocked[k], version) == 0;
      EqualVersionsAreJudgedAlike(before, after.blocked[k], version);
    }
    forall k | 0 <= k < |after.blocked| && Verdict(before, after.blocked[k]) != Hard
      ensures exists version: Version :: Rank(Evaluate(after, version)) > Rank(Verdict(before, version))
    {
      ListedIsBlocked(after.blocked, k);
      assert Rank(Evaluate(after, after.blocked[k])) > Rank(Verdict(before, after.blocked[k]));
    }
  }

  /**
   An edit of nothing but blocked versions and lower floors is classified as tightening although no verdict turns
   stricter exactly when it lists a version that was not listed, as text, and all it lists were judged hard already.
   */
  lemma {:induction false} TighteningIsSpuriousIff(before: Option<Rules>, after: Rules)
    requires !IsFloorRaised(before, after)
    requires Previous(before).storeUrl == after.storeUrl
    requires Previous(before).approval.Some? ==> Previous(before).approval == after.approval
    ensures (Classify(before, after) == Tighten && forall version: Version :: Rank(Evaluate(after, version)) <= Rank(Verdict(before, version)))
       <==> (HasAdded(Previous(before).blocked, after.blocked) && forall k :: 0 <= k < |after.blocked| ==> Verdict(before, after.blocked[k]) == Hard)
  {
    StricterIffNewlyHard(before, after);
    hide Evaluate, Verdict, FloorMove, HasAdded;
  }

  lemma TwoEqualsTwoZero()
    ensures IsVersion("2") && IsVersion("2.0") && Compare("2", "2.0") == 0
  {
    SplitPlain("2", '.');
    SplitPlain("0", '.');
    SplitFirst("2", '.', "0");
    assert "2" + ['.'] + "0" == "2.0";
    assert SemVer.Value("2") == 2 && SemVer.Value("0") == 0 by {
      assert SemVer.Pow10(0) == 1 && "2"[1..] == "" && "0"[1..] == "";
    }
    assert Numbers(["2"]) == [2];
    assert ["2", "0"][1..] == ["0"];
    assert Numbers(["2", "0"]) == [2] + Numbers(["0"]) == [2, 0];
    forall i: nat ensures At([2], i) == At([2, 0], i) {}
    NoDifference([2], [2, 0]);
  }

  /** Blocking is compared by text: blocking "2.0" next to "2" is classified as tightening and changes no verdict. */
  lemma {:induction false} TighteningIsConservative(version: Version)
    ensures IsVersion("2") && IsVersion("2.0")
    ensures var before := NO_RULES.(blocked := ["2"]);
            var after := NO_RULES.(blocked := ["2", "2.0"]);
            Classify(Some(before), after) == Tighten && Evaluate(after, version) == Evaluate(before, version)
  {
    TwoEqualsTwoZero();
    var two: seq<Version>, twoZero: seq<Version> := ["2"], ["2", "2.0"];
    CompareIsOrder("2", "2.0", version);
    CompareIsOrder("2.0", "2", version);
    CompareIsOrder(version, "2", "2.0");
    CompareIsOrder(version, "2.0", "2");
    assert twoZero[1] !in two;
    assert IsBlocked(two, version) <==> Compare("2", version) == 0 by { assert two[0] == "2"; }
    assert IsBlocked(twoZero, version) <==> Compare("2", version) == 0 by { assert twoZero[0] == "2" && twoZero[1] == "2.0"; }
  }
}
