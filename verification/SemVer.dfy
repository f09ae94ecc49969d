/**
 The versions of the `sem_ver` operator: parsing (with shorthands, an optional `v` and
 ignored build metadata) and the ordering of section 11 of SemVer 2.0.0, on decimal strings.
 */
module SemVer {
  import opened Text

  datatype Version = Version(major: string, minor: string, patch: string, prerelease: seq<string>)

  predicate IsDigit(c: char) {
    '0' <= c <= '9'
  }

  predicate IsDigits(s: string) {
    s != "" && forall k :: 0 <= k < |s| ==> IsDigit(s[k])
  }

  /** A decimal without a leading zero. */
  predicate IsNumber(s: string) {
    IsDigits(s) && (s[0] == '0' ==> |s| == 1)
  }

  predicate IsIdentifierChar(c: char) {
    IsDigit(c) || 'A' <= c <= 'Z' || 'a' <= c <= 'z' || c == '-'
  }

  predicate IsIdentifier(s: string) {
    s != "" && forall k :: 0 <= k < |s| ==> IsIdentifierChar(s[k])
  }

  predicate IsPrereleasePart(s: string) {
    IsIdentifier(s) && (IsDigits(s) ==> IsNumber(s))
  }

  predicate HasPrefix(input: string) {
    input != "" && (input[0] == 'v' || input[0] == 'V')
  }

  function Unprefixed(input: string): string {
    if HasPrefix(input) then input[1..] else input
  }

  /** What follows the first `c`, or None. */
  function After(text: string, c: char): Option<string> {
    if IndexOf(text, c) == |text| then None else Some(text[IndexOf(text, c) + 1..])
  }

  function UpTo(text: string, c: char): string {
    text[..IndexOf(text, c)]
  }

  predicate AllNumbers(parts: seq<string>) {
    forall k :: 0 <= k < |parts| ==> IsNumber(parts[k])
  }

  predicate AllIdentifiers(parts: seq<string>) {
    forall k :: 0 <= k < |parts| ==> IsIdentifier(parts[k])
  }

  predicate AllPrereleaseParts(parts: seq<string>) {
    forall k :: 0 <= k < |parts| ==> IsPrereleasePart(parts[k])
  }

  function Dotted(text: Option<string>): Option<seq<string>> {
    if text.None? then None else Some(Split(text.value, '.'))
  }

  /** The version a text spells, or None. */
  function ParseVersion(input: string): Option<Version> {
    var text := Unprefixed(input);
    var withoutBuild := UpTo(text, '+');
    Assemble(Split(UpTo(withoutBuild, '-'), '.'), Dotted(After(withoutBuild, '-')), Dotted(After(text, '+')))
  }

  /** The checks on the pieces of a text: at most three numbers, shorthands without prerelease or build, well-formed identifiers. */
  function Assemble(parts: seq<string>, prerelease: Option<seq<string>>, build: Option<seq<string>>): Option<Version>
    requires parts != []
  {
    if |parts| > 3 || !AllNumbers(parts) then None
    else if |parts| < 3 && (prerelease.Some? || build.Some?) then None
    else if build.Some? && !AllIdentifiers(build.value) then None
    else if prerelease.Some? && !AllPrereleaseParts(prerelease.value) then None
    else
      Some(Version(parts[0],
                   if |parts| > 1 then parts[1] else "0",
                   if |parts| > 2 then parts[2] else "0",
                   if prerelease.None? then [] else prerelease.value))
  }

  // ----- What a text may look like -----

  predicate ValidVersion(v: Version) {
    && IsNumber(v.major) && IsNumber(v.minor) && IsNumber(v.patch)
    && AllPrereleaseParts(v.prerelease)
  }

  /** The parts of a text that the version does not record. */
  datatype Spelling = Spelling(prefix: string, shown: nat, build: Option<seq<string>>)

  /** A spelling `v` may have: shorthands only drop zeros, and carry neither prerelease nor build. */
  predicate CanSpell(v: Version, s: Spelling) {
    && s.prefix in {"", "v", "V"}
    && 1 <= s.shown <= 3
    && (s.shown < 3 ==> v.patch == "0" && v.prerelease == [] && s.build.None?)
    && (s.shown < 2 ==> v.minor == "0")
    && (s.build.Some? ==> s.build.value != [] && AllIdentifiers(s.build.value))
  }

  function Core(v: Version, shown: nat): seq<string>
    requires 1 <= shown <= 3
  {
    [v.major, v.minor, v.patch][..shown]
  }

  function Spell(v: Version, s: Spelling): string
    requires 1 <= s.shown <= 3
  {
    s.prefix + SpellRest(v, s)
  }

  function SpellRest(v: Version, s: Spelling): string
    requires 1 <= s.shown <= 3
  {
    SpellUnbuilt(v, s) + if s.build.None? then "" else "+" + Join(s.build.value, ".")
  }

  function SpellUnbuilt(v: Version, s: Spelling): string
    requires 1 <= s.shown <= 3
  {
    Join(Core(v, s.shown), ".") + if v.prerelease == [] then "" else "-" + Join(v.prerelease, ".")
  }

  /** The canonical text of a version. */
  function Print(v: Version): string {
    Spell(v, Spelling("", 3, None))
  }

  lemma {:induction false} JoinLacks(parts: seq<string>, sep: char, c: char)
    requires c != sep && forall k :: 0 <= k < |parts| ==> c !in parts[k]
    ensures c !in Join(parts, [sep])
  {
    if |parts| > 1 {
      JoinLacks(parts[1..], sep, c);
    }
  }

  /** Cutting `head + c + rest` (or `head` alone) at the first `c`. */
  lemma {:induction false} Cut(head: string, c: char, rest: Option<string>, text: string)
    requires c !in head
    requires text == head + if rest.None? then "" else [c] + rest.value
    ensures UpTo(text, c) == head && After(text, c) == rest
  {
    if rest.Some? {
      IndexOfAfter(head, c, rest.value);
      assert text == head + [c] + rest.value;
    } else {
      assert text == head;
    }
  }

  lemma {:induction false} Uncut(text: string, c: char)
    ensures text == UpTo(text, c) + if After(text, c).None? then "" else [c] + After(text, c).value
  {
  }

  function Joined(parts: Option<seq<string>>): Option<string> {
    if parts.None? then None else Some(Join(parts.value, "."))
  }

  function PrereleaseText(v: Version): Option<string> {
    if v.prerelease == [] then None else Some(Join(v.prerelease, "."))
  }

  lemma {:induction false} CoreText(v: Version, shown: nat)
    requires ValidVersion(v) && 1 <= shown <= 3
    ensures var core := Join(Core(v, shown), "."); core != "" && IsDigit(core[0]) && '+' !in core && '-' !in core
  {
    JoinLacks(Core(v, shown), '.', '+');
    JoinLacks(Core(v, shown), '.', '-');
    assert Core(v, shown)[0] == v.major;
  }

  lemma {:induction false} PrereleaseComesOff(v: Version, s: Spelling)
    requires ValidVersion(v) && CanSpell(v, s)
    ensures var unbuilt := SpellUnbuilt(v, s);
            UpTo(unbuilt, '-') == Join(Core(v, s.shown), ".") && After(unbuilt, '-') == PrereleaseText(v)
  {
    CoreText(v, s.shown);
    Cut(Join(Core(v, s.shown), "."), '-', PrereleaseText(v), SpellUnbuilt(v, s));
  }

  lemma {:induction false} BuildComesOff(v: Version, s: Spelling)
    requires ValidVersion(v) && CanSpell(v, s)
    ensures var text := SpellRest(v, s); UpTo(text, '+') == SpellUnbuilt(v, s) && After(text, '+') == Joined(s.build)
  {
    CoreText(v, s.shown);
    JoinLacks(v.prerelease, '.', '+');
    Cut(SpellUnbuilt(v, s), '+', Joined(s.build), SpellRest(v, s));
  }

  lemma {:induction false} PrefixComesOff(v: Version, s: Spelling)
    requires ValidVersion(v) && CanSpell(v, s)
    ensures Unprefixed(Spell(v, s)) == SpellRest(v, s)
  {
    CoreText(v, s.shown);
    assert SpellRest(v, s)[0] == Join(Core(v, s.shown), ".")[0];
  }

  lemma {:induction false} PiecesAssemble(v: Version, s: Spelling)
    requires ValidVersion(v) && CanSpell(v, s)
    ensures Assemble(Core(v, s.shown), if v.prerelease == [] then None else Some(v.prerelease), s.build) == Some(v)
  {
  }

  lemma {:induction false} PiecesSplit(v: Version, s: Spelling)
    requires ValidVersion(v) && CanSpell(v, s)
    ensures Split(Join(Core(v, s.shown), "."), '.') == Core(v, s.shown) != []
    ensures Dotted(Joined(s.build)) == s.build
    ensures Dotted(PrereleaseText(v)) == if v.prerelease == [] then None else Some(v.prerelease)
  {
    CoreLacksDots(v, s.shown);
    SplitJoin(Core(v, s.shown), '.');
    if s.build.Some? {
      SplitJoin(s.build.value, '.');
    }
    if v.prerelease != [] {
      SplitJoin(v.prerelease, '.');
    }
  }

  /** Every allowed spelling of a valid version parses to that version. */
  lemma {:induction false} SpellingParses(v: Version, s: Spelling)
    requires ValidVersion(v) && CanSpell(v, s)
    ensures ParseVersion(Spell(v, s)) == Some(v)
  {
    hide ValidVersion, CanSpell, Spell, SpellRest, SpellUnbuilt, Unprefixed, UpTo, After, Split, Join, Core, Assemble, Dotted, Joined, PrereleaseText;
    PrefixComesOff(v, s);
    BuildComesOff(v, s);
    PrereleaseComesOff(v, s);
    PiecesSplit(v, s);
    PiecesAssemble(v, s);
  }

  lemma {:induction false} CoreLacksDots(v: Version, shown: nat)
    requires ValidVersion(v) && 1 <= shown <= 3
    ensures forall k :: 0 <= k < |Core(v, shown)| ==> '.' !in Core(v, shown)[k]
  {
  }

  /** How an accepted text spells its version. */
  function SpellingOf(input: string): Spelling {
    var text := Unprefixed(input);
    Spelling(if HasPrefix(input) then [input[0]] else "",
             |Split(UpTo(UpTo(text, '+'), '-'), '.')|,
             Dotted(After(text, '+')))
  }

  lemma {:induction false} AssembledPieces(parts: seq<string>, prerelease: Option<seq<string>>, build: Option<seq<string>>, prefix: string)
    requires parts != [] && Assemble(parts, prerelease, build).Some?
    requires prefix in {"", "v", "V"}
    requires prerelease.Some? ==> prerelease.value != []
    requires build.Some? ==> build.value != []
    ensures var v, s := Assemble(parts, prerelease, build).value, Spelling(prefix, |parts|, build);
            && ValidVersion(v) && CanSpell(v, s) && Core(v, s.shown) == parts
            && v.prerelease == if prerelease.None? then [] else prerelease.value
  {
  }

  lemma {:induction false} DottedText(text: string, c: char)
    ensures var after := After(text, c);
            && Joined(Dotted(after)) == after
            && (Dotted(after).Some? ==> Dotted(after).value != [])
  {
    var after := After(text, c);
    if after.Some? {
      JoinSplit(after.value, '.');
    }
  }

  /** Every accepted text is an allowed spelling of the valid version it parses to. */
  lemma {:induction false} AcceptedIsSpelling(input: string)
    requires ParseVersion(input).Some?
    ensures var v, s := ParseVersion(input).value, SpellingOf(input);
            ValidVersion(v) && CanSpell(v, s) && Spell(v, s) == input
  {
    var v, s := ParseVersion(input).value, SpellingOf(input);
    var text := Unprefixed(input);
    var withoutBuild := UpTo(text, '+');
    var core := UpTo(withoutBuild, '-');
    AssembledPieces(Split(core, '.'), Dotted(After(withoutBuild, '-')), Dotted(After(text, '+')), s.prefix);
    JoinSplit(core, '.');
    Uncut(withoutBuild, '-');
    DottedText(withoutBuild, '-');
    assert SpellUnbuilt(v, s) == withoutBuild;
    Uncut(text, '+');
    DottedText(text, '+');
    assert SpellRest(v, s) == text;
    assert input == s.prefix + text;
  }

  /** The parser accepts exactly the allowed spellings of valid versions, and reads back the version spelled. */
  lemma {:induction false} ParseIffSpelling(input: string, v: Version)
    ensures ParseVersion(input) == Some(v) <==> ValidVersion(v) && exists s :: CanSpell(v, s) && Spell(v, s) == input
  {
    if ParseVersion(input) == Some(v) {
      AcceptedIsSpelling(input);
    } else if ValidVersion(v) {
      forall s | CanSpell(v, s) ensures Spell(v, s) != input {
        SpellingParses(v, s);
      }
    }
  }

  /** Parsing undoes printing, and every accepted text parses like the canonical print of its version. */
  lemma {:induction false} PrintParses(v: Version, input: string)
    ensures ValidVersion(v) ==> ParseVersion(Print(v)) == Some(v)
    ensures ParseVersion(input).Some? ==> ParseVersion(input) == ParseVersion(Print(ParseVersion(input).value))
  {
    if ValidVersion(v) {
      SpellingParses(v, Spelling("", 3, None));
    }
    if ParseVersion(input).Some? {
      AcceptedIsSpelling(input);
      SpellingParses(ParseVersion(input).value, Spelling("", 3, None));
    }
  }

  // ----- Comparing -----

  /** `a < b` on strings: lexical, by code unit. */
  predicate Before(a: string, b: string) {
    b != "" && (a == "" || a[0] < b[0] || (a[0] == b[0] && Before(a[1..], b[1..])))
  }

  function CompareText(a: string, b: string): int {
    if a == b then 0 else if Before(a, b) then -1 else 1
  }

  /** Compare two decimals without converting them: shorter first, then lexically. */
  function CompareNumeric(a: string, b: string): int {
    if |a| != |b| then (if |a| < |b| then -1 else 1) else CompareText(a, b)
  }

  function CompareIdentifier(a: string, b: string): int {
    if IsDigits(a) && IsDigits(b) then CompareNumeric(a, b)
    else if IsDigits(a) != IsDigits(b) then (if IsDigits(a) then -1 else 1)
    else CompareText(a, b)
  }

  function Sign(n: int): int {
    if n < 0 then -1 else if n == 0 then 0 else 1
  }

  /** The first nonzero comparison of two identifier lists, over the length they share. */
  function FirstDiffering(a: seq<string>, b: seq<string>): int {
    if a == [] || b == [] then 0
    else
      var result := CompareIdentifier(a[0], b[0]);
      if result != 0 then result else FirstDiffering(a[1..], b[1..])
  }

  function ComparePrerelease(a: seq<string>, b: seq<string>): int {
    if a == [] || b == [] then Sign(|b| - |a|)
    else
      var differing := FirstDiffering(a, b);
      if differing != 0 then differing else Sign(|a| - |b|)
  }

  function CompareVersions(a: Version, b: Version): int {
    if CompareNumeric(a.major, b.major) != 0 then CompareNumeric(a.major, b.major)
    else if CompareNumeric(a.minor, b.minor) != 0 then CompareNumeric(a.minor, b.minor)
    else if CompareNumeric(a.patch, b.patch) != 0 then CompareNumeric(a.patch, b.patch)
    else ComparePrerelease(a.prerelease, b.prerelease)
  }

  datatype Operator = Equal | NotEqual | Less | AtMost | Greater | AtLeast | SameMajor | SameMinor

  function ParseOperator(s: string): Option<Operator> {
    match s
    case "=" => Some(Equal)
    case "!=" => Some(NotEqual)
    case "<" => Some(Less)
    case "<=" => Some(AtMost)
    case ">" => Some(Greater)
    case ">=" => Some(AtLeast)
    case "^" => Some(SameMajor)
    case "~" => Some(SameMinor)
    case _ => None
  }

  predicate Holds(operator: Operator, left: Version, right: Version) {
    var order := CompareVersions(left, right);
    match operator
    case Equal => order == 0
    case NotEqual => order != 0
    case Less => order < 0
    case AtMost => order <= 0
    case Greater => order > 0
    case AtLeast => order >= 0
    case SameMajor => left.major == right.major
    case SameMinor => left.major == right.major && left.minor == right.minor
  }

  /** flagd's `sem_ver` on texts; None when an argument is not valid. */
  function SemverMatches(actual: string, operator: string, target: string): Option<bool> {
    var left, right, op := ParseVersion(actual), ParseVersion(target), ParseOperator(operator);
    if left.None? || right.None? || op.None? then None else Some(Holds(op.value, left.value, right.value))
  }

  // ----- A total order -----

  lemma {:induction false} BeforeIsStrict(a: string, b: string)
    ensures a == b ==> !Before(a, b)
    ensures a != b ==> Before(a, b) != Before(b, a)
  {
    if a != "" && b != "" {
      BeforeIsStrict(a[1..], b[1..]);
      assert a == [a[0]] + a[1..] && b == [b[0]] + b[1..];
    }
  }

  lemma {:induction false} BeforeTransitive(a: string, b: string, c: string)
    requires Before(a, b) && Before(b, c)
    ensures Before(a, c)
  {
    if a != "" && a[0] == b[0] == c[0] {
      BeforeTransitive(a[1..], b[1..], c[1..]);
    }
  }

  lemma {:induction false} TextOrder(a: string, b: string, c: string)
    ensures CompareText(a, b) == -CompareText(b, a)
    ensures CompareText(a, b) <= 0 && CompareText(b, c) <= 0 ==> CompareText(a, c) <= 0
  {
    BeforeIsStrict(a, b);
    BeforeIsStrict(b, c);
    if Before(a, b) && Before(b, c) {
      BeforeTransitive(a, b, c);
    }
  }

  lemma {:induction false} NumericOrder(a: string, b: string, c: string)
    ensures CompareNumeric(a, b) == -CompareNumeric(b, a)
    ensures CompareNumeric(a, b) == 0 <==> a == b
    ensures CompareNumeric(a, b) <= 0 && CompareNumeric(b, c) <= 0 ==> CompareNumeric(a, c) <= 0
  {
    TextOrder(a, b, c);
  }

  lemma {:induction false} IdentifierOrder(a: string, b: string, c: string)
    ensures CompareIdentifier(a, b) == -CompareIdentifier(b, a)
    ensures CompareIdentifier(a, b) == 0 <==> a == b
    ensures CompareIdentifier(a, b) <= 0 && CompareIdentifier(b, c) <= 0 ==> CompareIdentifier(a, c) <= 0
  {
    TextOrder(a, b, c);
    NumericOrder(a, b, c);
  }

  /** The comparison of non-empty identifier lists: lexicographic, a prefix first. */
  function CompareLists(a: seq<string>, b: seq<string>): int {
    var differing := FirstDiffering(a, b);
    if differing != 0 then differing else Sign(|a| - |b|)
  }

  lemma {:induction false} ListOrder(a: seq<string>, b: seq<string>, c: seq<string>)
    ensures CompareLists(a, b) == -CompareLists(b, a)
    ensures CompareLists(a, b) == 0 <==> a == b
    ensures CompareLists(a, b) <= 0 && CompareLists(b, c) <= 0 ==> CompareLists(a, c) <= 0
  {
    if a != [] && b != [] {
      IdentifierOrder(a[0], b[0], if c == [] then a[0] else c[0]);
      IdentifierOrder(b[0], a[0], a[0]);
      ListOrder(a[1..], b[1..], if c == [] then [] else c[1..]);
      assert a == [a[0]] + a[1..] && b == [b[0]] + b[1..];
      if c != [] {
        IdentifierOrder(b[0], c[0], a[0]);
        IdentifierOrder(a[0], c[0], b[0]);
        IdentifierOrder(c[0], a[0], b[0]);
      }
    }
  }

  /** `compareVersions` is a total order: antisymmetric, transitive, and 0 only for equal versions. */
  lemma {:induction false} VersionOrder(a: Version, b: Version, c: Version)
    ensures CompareVersions(a, b) in {-1, 0, 1}
    ensures CompareVersions(a, b) == -CompareVersions(b, a)
    ensures CompareVersions(a, b) == 0 <==> a == b
    ensures CompareVersions(a, b) <= 0 && CompareVersions(b, c) <= 0 ==> CompareVersions(a, c) <= 0
  {
    NumericOrder(a.major, b.major, c.major);
    NumericOrder(b.major, c.major, a.major);
    NumericOrder(a.minor, b.minor, c.minor);
    NumericOrder(b.minor, c.minor, a.minor);
    NumericOrder(a.patch, b.patch, c.patch);
    NumericOrder(b.patch, c.patch, a.patch);
    ListOrder(a.prerelease, b.prerelease, c.prerelease);
    FirstDifferingSign(a.prerelease, b.prerelease);
  }

  lemma {:induction false} FirstDifferingSign(a: seq<string>, b: seq<string>)
    ensures FirstDiffering(a, b) in {-1, 0, 1}
  {
    if a != [] && b != [] {
      FirstDifferingSign(a[1..], b[1..]);
    }
  }

  // ----- Section 11 of SemVer 2.0.0 -----

  function Pow10(n: nat): nat {
    if n == 0 then 1 else 10 * Pow10(n - 1)
  }

  function Digit(c: char): (d: nat)
    requires IsDigit(c)
    ensures d <= 9
  {
    c as nat - '0' as nat
  }

  /** The number a string of digits denotes. */
  function Value(s: string): nat
    requires forall k :: 0 <= k < |s| ==> IsDigit(s[k])
  {
    if s == "" then 0 else Digit(s[0]) * Pow10(|s| - 1) + Value(s[1..])
  }

  /** A number as a decimal. */
  function Decimal(n: nat): string {
    if n < 10 then [(('0' as nat) + n) as char] else Decimal(n / 10) + [(('0' as nat) + n % 10) as char]
  }

  lemma {:induction false} ValueOfAppended(s: string, c: char)
    requires (forall k :: 0 <= k < |s| ==> IsDigit(s[k])) && IsDigit(c)
    ensures Value(s + [c]) == 10 * Value(s) + Digit(c)
  {
    if s == "" {
      assert (s + [c])[1..] == "" && Pow10(0) == 1;
    } else {
      var rest := s[1..];
      ValueOfAppended(rest, c);
      assert (s + [c])[1..] == rest + [c];
      assert Pow10(|s|) == 10 * Pow10(|s| - 1);
      Shifted(Digit(s[0]), Pow10(|s| - 1));
    }
  }

  lemma {:induction false} Shifted(d: nat, p: nat)
    ensures d * (10 * p) == 10 * (d * p)
  {
  }

  /** The decimal of a number has no leading zero and denotes it. */
  lemma {:induction false} DecimalDenotes(n: nat)
    ensures IsNumber(Decimal(n)) && Value(Decimal(n)) == n
    ensures n > 0 ==> Decimal(n)[0] != '0'
  {
    var last := ('0' as nat + n % 10) as char;
    assert Digit(last) == n % 10;
    if n < 10 {
      assert [last][1..] == "" && Pow10(0) == 1;
    } else {
      DecimalDenotes(n / 10);
      ValueOfAppended(Decimal(n / 10), last);
      assert 10 * (n / 10) + n % 10 == n;
    }
  }

  lemma {:induction false} ValueBelow(s: string)
    requires forall k :: 0 <= k < |s| ==> IsDigit(s[k])
    ensures Value(s) < Pow10(|s|)
  {
    if s != "" {
      ValueBelow(s[1..]);
      assert Digit(s[0]) * Pow10(|s| - 1) <= 9 * Pow10(|s| - 1);
    }
  }

  lemma {:induction false} ValueAtLeast(s: string)
    requires IsDigits(s) && s[0] != '0'
    ensures Pow10(|s| - 1) <= Value(s)
  {
    assert Digit(s[0]) * Pow10(|s| - 1) >= 1 * Pow10(|s| - 1);
  }

  lemma {:induction false} Pow10Monotone(m: nat, n: nat)
    requires m <= n
    ensures Pow10(m) <= Pow10(n)
  {
    if m < n {
      Pow10Monotone(m, n - 1);
    }
  }

  lemma {:induction false} DigitStep(p: nat, d: nat, e: nat, x: nat, y: nat)
    requires x < p && y < p
    ensures d < e ==> d * p + x < e * p + y
    ensures d * p + x < e * p + y <==> d < e || (d == e && x < y)
  {
    assert d < e ==> (d + 1) * p <= e * p;
    assert e < d ==> (e + 1) * p <= d * p;
  }

  lemma {:induction false} SameLengthLexical(a: string, b: string)
    requires |a| == |b|
    requires forall k :: 0 <= k < |a| ==> IsDigit(a[k])
    requires forall k :: 0 <= k < |b| ==> IsDigit(b[k])
    ensures Before(a, b) <==> Value(a) < Value(b)
  {
    if a != "" {
      SameLengthLexical(a[1..], b[1..]);
      ValueBelow(a[1..]);
      ValueBelow(b[1..]);
      DigitStep(Pow10(|a| - 1), Digit(a[0]), Digit(b[0]), Value(a[1..]), Value(b[1..]));
    }
  }

  lemma {:induction false} ShorterIsSmaller(a: string, b: string)
    requires IsNumber(a) && IsNumber(b) && |a| < |b|
    ensures Value(a) < Value(b)
  {
    ValueBelow(a);
    Pow10Monotone(|a|, |b| - 1);
    ValueAtLeast(b);
  }

  /** On canonical decimals, comparing lengths and then texts is comparing numbers. */
  lemma {:induction false} CompareNumericIsNumeric(a: string, b: string)
    requires IsNumber(a) && IsNumber(b)
    ensures CompareNumeric(a, b) == Sign(Value(a) - Value(b))
  {
    if |a| < |b| {
      ShorterIsSmaller(a, b);
    } else if |b| < |a| {
      ShorterIsSmaller(b, a);
    } else {
      SameLengthLexical(a, b);
      SameLengthLexical(b, a);
      BeforeIsStrict(a, b);
    }
  }

  /** Identifier precedence as the standard words it: numbers numerically, below other identifiers, which go in ASCII order. */
  ghost predicate IdentifierPrecedes(a: string, b: string) {
    if IsDigits(a) && IsDigits(b) then Value(a) < Value(b)
    else if IsDigits(a) || IsDigits(b) then IsDigits(a)
    else exists k :: 0 <= k <= |a| && DivergesAt(a, b, k)
  }

  /** The texts agree up to `k`, where `a` ends or has the smaller character. */
  ghost predicate DivergesAt(a: string, b: string, k: nat)
    requires k <= |a|
  {
    k < |b| && a[..k] == b[..k] && (k == |a| || a[k] < b[k])
  }

  /** Prerelease precedence: a release is above its prereleases; else the first difference decides, and a prefix is below. */
  ghost predicate PrereleasePrecedes(a: seq<string>, b: seq<string>) {
    if a == [] || b == [] then a != [] && b == []
    else exists k :: 0 <= k <= |a| && ListDivergesAt(a, b, k)
  }

  ghost predicate ListDivergesAt(a: seq<string>, b: seq<string>, k: nat)
    requires k <= |a|
  {
    k < |b| && a[..k] == b[..k] && (k == |a| || IdentifierPrecedes(a[k], b[k]))
  }

  ghost predicate Precedes(a: Version, b: Version)
    requires ValidVersion(a) && ValidVersion(b)
  {
    if Value(a.major) != Value(b.major) then Value(a.major) < Value(b.major)
    else if Value(a.minor) != Value(b.minor) then Value(a.minor) < Value(b.minor)
    else if Value(a.patch) != Value(b.patch) then Value(a.patch) < Value(b.patch)
    else PrereleasePrecedes(a.prerelease, b.prerelease)
  }

  lemma {:induction false} BeforeIffDiverges(a: string, b: string)
    ensures Before(a, b) <==> exists k :: 0 <= k <= |a| && DivergesAt(a, b, k)
  {
    if Before(a, b) {
      if a == "" || a[0] < b[0] {
        assert DivergesAt(a, b, 0);
      } else {
        BeforeIffDiverges(a[1..], b[1..]);
        var k :| 0 <= k <= |a[1..]| && DivergesAt(a[1..], b[1..], k);
        assert a[..k + 1] == [a[0]] + a[1..][..k] && b[..k + 1] == [b[0]] + b[1..][..k];
        assert DivergesAt(a, b, k + 1);
      }
    }
    forall k | 0 <= k <= |a| && DivergesAt(a, b, k) ensures Before(a, b) {
      if k > 0 {
        assert a[0] == a[..k][0] == b[..k][0] == b[0];
        assert a[1..][..k - 1] == a[..k][1..] && b[1..][..k - 1] == b[..k][1..];
        assert DivergesAt(a[1..], b[1..], k - 1);
        BeforeIffDiverges(a[1..], b[1..]);
      }
    }
  }

  lemma {:induction false} CompareIdentifierIsStandard(a: string, b: string)
    requires IsPrereleasePart(a) && IsPrereleasePart(b)
    ensures CompareIdentifier(a, b) < 0 <==> IdentifierPrecedes(a, b)
  {
    if IsDigits(a) && IsDigits(b) {
      CompareNumericIsNumeric(a, b);
    } else {
      BeforeIffDiverges(a, b);
      BeforeIsStrict(a, b);
    }
  }

  lemma {:induction false} CompareListsIsStandard(a: seq<string>, b: seq<string>)
    requires forall k :: 0 <= k < |a| ==> IsPrereleasePart(a[k])
    requires forall k :: 0 <= k < |b| ==> IsPrereleasePart(b[k])
    ensures CompareLists(a, b) < 0 <==> exists k :: 0 <= k <= |a| && ListDivergesAt(a, b, k)
  {
    if a == [] {
      if b != [] {
        assert ListDivergesAt(a, b, 0);
      }
    } else if b != [] {
      CompareIdentifierIsStandard(a[0], b[0]);
      IdentifierOrder(a[0], b[0], b[0]);
      CompareListsIsStandard(a[1..], b[1..]);
      if CompareIdentifier(a[0], b[0]) < 0 {
        assert ListDivergesAt(a, b, 0);
      } else if CompareIdentifier(a[0], b[0]) == 0 && CompareLists(a[1..], b[1..]) < 0 {
        var k :| 0 <= k <= |a[1..]| && ListDivergesAt(a[1..], b[1..], k);
        assert a[..k + 1] == [a[0]] + a[1..][..k] && b[..k + 1] == [b[0]] + b[1..][..k];
        assert ListDivergesAt(a, b, k + 1);
      }
      forall k | 0 <= k <= |a| && ListDivergesAt(a, b, k) ensures CompareLists(a, b) < 0 {
        if k > 0 {
          assert a[0] == a[..k][0] == b[..k][0] == b[0];
          assert a[1..][..k - 1] == a[..k][1..] && b[1..][..k - 1] == b[..k][1..];
          assert ListDivergesAt(a[1..], b[1..], k - 1);
        }
      }
    }
  }

  /** The comparison is the precedence of section 11 of SemVer 2.0.0, on all valid versions. */
  lemma {:induction false} CompareVersionsIsStandard(a: Version, b: Version)
    requires ValidVersion(a) && ValidVersion(b)
    ensures CompareVersions(a, b) < 0 <==> Precedes(a, b)
    ensures CompareVersions(a, b) > 0 <==> Precedes(b, a)
  {
    VersionOrder(a, b, b);
    HalfStandard(a, b);
    HalfStandard(b, a);
  }

  lemma {:induction false} HalfStandard(a: Version, b: Version)
    requires ValidVersion(a) && ValidVersion(b)
    ensures CompareVersions(a, b) < 0 <==> Precedes(a, b)
  {
    CompareNumericIsNumeric(a.major, b.major);
    CompareNumericIsNumeric(a.minor, b.minor);
    CompareNumericIsNumeric(a.patch, b.patch);
    CompareListsIsStandard(a.prerelease, b.prerelease);
  }

  /** What an operator asks, in terms of the standard's precedence and the numbers of the version; None for any other text. */
  ghost function Meaning(operator: string, a: Version, t: Version): Option<bool>
    requires ValidVersion(a) && ValidVersion(t)
  {
    match operator
    case "=" => Some(a == t)
    case "!=" => Some(a != t)
    case "<" => Some(Precedes(a, t))
    case "<=" => Some(Precedes(a, t) || a == t)
    case ">" => Some(Precedes(t, a))
    case ">=" => Some(Precedes(t, a) || a == t)
    case "^" => Some(Value(a.major) == Value(t.major))
    case "~" => Some(Value(a.major) == Value(t.major) && Value(a.minor) == Value(t.minor))
    case _ => None
  }

  lemma {:induction false} NumberIsItsValue(a: string, b: string)
    requires IsNumber(a) && IsNumber(b)
    ensures a == b <==> Value(a) == Value(b)
  {
    CompareNumericIsNumeric(a, b);
    NumericOrder(a, b, b);
  }

  lemma {:induction false} OperatorMeans(operator: string, a: Version, t: Version)
    requires ValidVersion(a) && ValidVersion(t)
    ensures Meaning(operator, a, t) ==
            if ParseOperator(operator).None? then None else Some(Holds(ParseOperator(operator).value, a, t))
  {
    CompareVersionsIsStandard(a, t);
    VersionOrder(a, t, t);
    NumberIsItsValue(a.major, t.major);
    NumberIsItsValue(a.minor, t.minor);
    hide CompareVersions, Value, Precedes, ValidVersion;
  }

  /** `sem_ver` answers exactly on two valid versions and a known operator, and its answer is what the operator asks. */
  lemma {:induction false} SemverMatchesMeans(actual: string, operator: string, target: string)
    ensures var left, right := ParseVersion(actual), ParseVersion(target);
            if left.Some? && right.Some? then
              && ValidVersion(left.value) && ValidVersion(right.value)
              && SemverMatches(actual, operator, target) == Meaning(operator, left.value, right.value)
            else SemverMatches(actual, operator, target) == None
  {
    if ParseVersion(actual).Some? && ParseVersion(target).Some? {
      AcceptedIsSpelling(actual);
      AcceptedIsSpelling(target);
      OperatorMeans(operator, ParseVersion(actual).value, ParseVersion(target).value);
    }
    hide ParseVersion, ParseOperator, Holds, Meaning;
  }
}
