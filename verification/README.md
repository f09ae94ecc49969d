# Mocco verification

A Dafny model of the parts of Mocco that decide things on their own: the feature-flag evaluator that runs
inside the SDKs, the glossary CSV reader and writer, the probe agent's slots and outbox, the classification
of version-policy edits, and the clients' caches and streams. To verify every module:

    dafny verify dfyconfig.toml

## What is modelled

- **Flags** (`Fractional`, `Boundaries`, `Murmur3`, `SemVer`, `JsonLogic`, `ShortCircuit`, `Operators`, `Rollout`, `Ruleset`, `Evaluate`).
  Percentage rollouts in exact integers, the hash behind them on 32-bit words, versions as text, the restricted JsonLogic interpreter with its
  validator, and resolution with reasons and error codes. A JavaScript value is a datatype; what the engine decides
  (loose equality, `Number`, `String`, UTF-8, members a value inherits) is a parameter, so results hold for every
  engine. JSON objects are sequences of fields, because their order is visible. JavaScript numbers are reals.
- **Glossary CSV** (`Csv`, `GlossaryCsv`). The character machine is a class, proved against a recursive grammar in
  the terms of section 2 of RFC 4180; the writer is proved to be undone by the reader.
- **Probe agent** (`ProbeSlots`, `ProbeOutbox`, `ProbeWaiters`, `ProbeAgent`). One step is one stretch between two
  awaits. The class has the agent's fields and its methods are proved against the step functions, about which runs are proved.
- **Version policy** (`VersionPolicy`, `VersionCandidates`). Verdicts, floor moves and the direction of an edit, over
  whole histories, and whether an edit makes any verdict stricter.
- **Clients** (`RulesetCache`, `Sse`, `Messenger`, `Telemetry`). A server that may publish or append at any moment
  is part of the state machine; the classes' methods are the steps of the client.

`Text` and `Lists` have what several modules share.

## Where the code and its comments part

- `packages/sdk-flags-core/src/json-logic.ts:98-99` says that raising a weight only moves keys into that variant.
  `RaisingMovesBystanders` is a counterexample, `RaisingMovesKeyA` one for a key; `OnlyIntoRaisedIff` says exactly
  when it holds, and `RaisingMovesTowards` what always holds.
- A malformed `fractional` is not the only cause of PARSE_ERROR in an accepted ruleset: `OwnToStringStopsARule`.
  `OwnToStringGivesParseError` has it at the entry. The exact condition on the
  context is in `ConversionStopsSomeRuleIff` and `ConversionStopsSomeFlagIff`, and in a form that a caller can check in
  `OwnToStringStopsSomeRuleIff` and `OwnToStringStopsSomeFlagIff`.
- `packages/probe/src/agent.ts:171` promises one flush at a time. Flushes that wait on the same one all start
  (`WaitersPostTheSame`), after which results can be posted twice or lost, exactly when something queued is still live
  (`WaitersBreakIff`, for any number of waiting flushes); `AnAgentCanRepeat` is such a run from an empty agent.
  Conservation is proved for runs in which no flush finds another one waiting.
- `packages/sdk-core/src/messenger.ts:496` says that the cache never starts mid-thread. It does when the
  state is reset while a continuing load is under way (`ResetStartsMidThread`). A loaded thread can also skip
  a reply for good (`SendSkipsReply`, `GapsPersist`); `FinishStaysWholeIff` says exactly when it does not.
- The stream reader joins CR LF per chunk, so a pair cut in two is not joined (`CutPairLosesAnEvent`,
  `CutPairChangesEvent`).
- Blocked versions are compared as text when an edit is classified and by value when a version is judged
  (`TighteningIsConservative` is an example, `TighteningIsSpuriousIff` says exactly when this matters). Raising a floor
  may change no verdict either; `StricterIffAtCandidate` decides it for any edit. The classification stays sound.

## Model

| member | source | states |
|---|---|---|
| Fractional.ChooseEntry | packages/sdk-flags-core/src/json-logic.ts:116-127 | the running search over range ends chooses an entry exactly when the total weight is in 1..2^31-1, and then the entry whose weight range holds the hash's bucket |
| Fractional.ChosenOwns | packages/sdk-flags-core/src/json-logic.ts:116-127 | one entry, and only one, owns a hash; the search returns it; its weight is not 0 |
| Fractional.ExactShare | packages/sdk-flags-core/src/json-logic.ts:116-127 | of the 2^32 hashes exactly ceil(2^32·c(i+1)/T) − ceil(2^32·c(i)/T) choose entry i, where c are the prefix sums and T the total |
| Fractional.ShareIsProportional | packages/sdk-flags-core/src/json-logic.ts:116-127 | an entry's share differs from 2^32·w/T by less than 1 |
| Fractional.SharesAddUp | packages/sdk-flags-core/src/json-logic.ts:116-127 | the shares of all entries sum to 2^32 |
| Fractional.RaisingMovesTowards | packages/sdk-flags-core/src/json-logic.ts:94-127 | after raising the weight of j a key on j stays there, and every other key stays or moves strictly nearer to j, never past it |
| Fractional.NeighbourTransfer | packages/sdk-flags-core/src/json-logic.ts:94-127 | moving weight from an entry to the one before it, at a fixed total, moves keys only into the raised one |
| Fractional.NeighbourTransferBack | packages/sdk-flags-core/src/json-logic.ts:94-127 | moving weight from an entry to the one after it, at a fixed total, moves keys only into the raised one |
| Fractional.RaisingMovesBystanders | packages/sdk-flags-core/src/json-logic.ts:98-99 | weights 1,1,1 raised to 1,1,4: a sixth of the hash space moves from the first entry to the second, so the comment's claim is not general |
| JsonLogic.RaisingMovesKeyA | packages/sdk-flags-core/src/json-logic.ts:101-128 | through `fractional` itself: the key `a` is served A under 1,1,1 and B under 1,1,4 |
| Rollout.WrittenKeyServesOwner | packages/sdk-flags-core/src/json-logic.ts:101-128 | a `fractional` with a written key gives out the variant of the share that owns the key's hash, where a share weighs what is written, nothing if that is negative and 1 if nothing is; null when the total is refused |
| Rollout.ImplicitKeyIsWritten | packages/sdk-flags-core/src/json-logic.ts:80-92 | entries without a written key, or with null in its place, are read as the same entries with the flag's key followed by the targeting key written before them |
| Rollout.NoKeyServesNothing | packages/sdk-flags-core/src/json-logic.ts:80-88 | without a written key and a non-empty targeting key, or without arguments, the result is null |
| Rollout.FlagRolloutServesOwner | packages/sdk-flags-core/src/json-logic.ts:80-128 | for a user with a targeting key, a flag's rollout without a written key serves the share that owns the hash of the flag's own key followed by the targeting key |
| Rollout.MalformedEntryStops | packages/sdk-flags-core/src/json-logic.ts:106-115 | the rollout stops exactly when some entry is no array of a variant and, if given, a safe integer |
| Rollout.FlagPropertiesAreRead | packages/sdk-flags-core/src/evaluate.ts:78-83 | rules read the flag's key and the time under `$flagd`, whatever the caller put there |
| Fractional.OnlyIntoRaisedIff | packages/sdk-flags-core/src/json-logic.ts:94-127 | raising j moves keys only into j if and only if no range boundary between two other weighted entries moves |
| Fractional.OnlyIntoRaisedSmallTotals | packages/sdk-flags-core/src/json-logic.ts:94-127 | for raised totals up to 2^16 the comment's claim holds if and only if nothing is raised or no two other weighted entries are on the same side of j |
| Fractional.TwoEntries | packages/sdk-flags-core/src/json-logic.ts:98-99 | with two entries the comment's claim always holds |
| Murmur3.Murmur3 | packages/sdk-flags-core/src/murmur3.ts:7-53 | the byte loop, tail and finaliser compute the hash that the permutation results are about |
| Murmur3.MixTail | packages/sdk-flags-core/src/murmur3.ts:29-44 | the fall-through tail mixes in the remaining bytes as one little-endian word, or nothing when there are none |
| Murmur3.ScramblePermutes | packages/sdk-flags-core/src/murmur3.ts:21-23 | the scrambling of a block word has an inverse on both sides |
| Murmur3.MixPermutes | packages/sdk-flags-core/src/murmur3.ts:14-27 | a block step is a permutation of the state for each word, and of the word for each state |
| Murmur3.BlocksPermute | packages/sdk-flags-core/src/murmur3.ts:14-27 | any number of block steps is a permutation of the state |
| Murmur3.AvalanchePermutes | packages/sdk-flags-core/src/murmur3.ts:47-51 | the finaliser has an inverse on both sides |
| Murmur3.FinishPermutes | packages/sdk-flags-core/src/murmur3.ts:29-52 | tail, length and finaliser together are a permutation of the state |
| Murmur3.SeedsNeverCollide | packages/sdk-flags-core/src/murmur3.ts:7-53 | one key hashes equally under two seeds only when the seeds are equal |
| Murmur3.BlockNeverCollides | packages/sdk-flags-core/src/murmur3.ts:14-52 | equal-length keys that differ only inside one aligned 4-byte block hash differently under every seed, whatever follows |
| Murmur3.TailNeverCollides | packages/sdk-flags-core/src/murmur3.ts:29-52 | equal-length keys that differ only in the tail hash differently under every seed |
| Murmur3.BlockReachesEachHashOnce | packages/sdk-flags-core/src/murmur3.ts:14-52 | for every target hash exactly one value of a given block reaches it |
| SemVer.ParseIffSpelling | packages/sdk-flags-core/src/semver.ts:16-46 | a text parses to a version exactly when it is one of the version's spellings: optional v, shorthand of trailing zeros, prerelease and build on the full form only |
| SemVer.AcceptedIsSpelling | packages/sdk-flags-core/src/semver.ts:16-46 | an accepted text is the spelling read off it, of a valid version |
| SemVer.SpellingParses | packages/sdk-flags-core/src/semver.ts:16-46 | every spelling of a valid version parses to it |
| SemVer.PrintParses | packages/sdk-flags-core/src/semver.ts:16-46 | printing then parsing is the identity on valid versions, and an accepted text parses like its canonical print |
| SemVer.VersionOrder | packages/sdk-flags-core/src/semver.ts:48-93 | the comparison is -1, 0 or 1, antisymmetric, transitive, and 0 only for equal versions |
| SemVer.CompareNumericIsNumeric | packages/sdk-flags-core/src/semver.ts:48-57 | length-then-lexical order of canonical decimal strings is the order of their values |
| SemVer.CompareVersionsIsStandard | packages/sdk-flags-core/src/semver.ts:86-93 | the comparison is the precedence of section 11 of SemVer 2.0.0, in both directions |
| SemVer.SemverMatchesMeans | packages/sdk-flags-core/src/semver.ts:95-135 | an answer exists exactly for two versions and a known operator, and is the operator's meaning over precedence, or over equal major and minor numbers |
| VersionPolicy.CompareIsOrder | packages/common/src/ota.ts:26-34 | segment comparison is a total preorder whose ties are exactly the versions equal up to missing zeros |
| VersionPolicy.FloorMoveIsSound | packages/common/src/ota.ts:104-120 | a floor move not classified tighten puts no new version below the floor, and one not classified relax frees none |
| VersionPolicy.FloorMoveIsExact | packages/common/src/ota.ts:104-120 | some version newly falls below the floor exactly when the move tightens, other than setting a floor of zero |
| VersionPolicy.MovesAreReversed | packages/common/src/ota.ts:104-120 | a floor relaxes exactly when moving it back would tighten, and is neutral both ways |
| VersionPolicy.VersionEditsAreDirected | packages/common/src/ota.ts:140-157 | an edit of one floor goes by its move; an edit of the blocked versions tightens when it adds one, and relaxes when it only removes some |
| VersionPolicy.OtherEditsAreDirected | packages/common/src/ota.ts:146-153 | a changed store URL tightens, as does any change of an approval policy there was; a first approval policy and a new prompt do nothing |
| VersionPolicy.StrongestComponentDecides | packages/common/src/ota.ts:122-158 | an edit tightens when one of its components alone does, else relaxes when one does, else is neutral |
| VersionCandidates.VerdictMeans | packages/common/src/ota.ts:77-93 | hard is exactly the number of a blocked version or one below the minimum's; soft is not hard and below the recommended one's |
| VersionCandidates.FloorsDoTheirOwn | packages/common/src/ota.ts:77-93 | changing the recommended version alone neither makes a version hard nor stops it being hard, and changing the minimum alone never turns ok and soft into each other |
| VersionPolicy.ClassificationIsSound | packages/common/src/ota.ts:79-158 | an edit not classified tighten makes no version's verdict stricter, and one classified none changes no verdict |
| VersionPolicy.StricterNeedsTightening | packages/common/src/ota.ts:79-158 | over any history a verdict later is stricter than earlier only if some edit between was classified tighten |
| VersionPolicy.OnlyBlocksTighten | packages/common/src/ota.ts:160-166 | when no floor is raised a verdict turns stricter only for versions that the edit newly blocks |
| VersionPolicy.BlocksAreExact | packages/common/src/ota.ts:79-85 | some version is newly blocked exactly when a listed version was not blocked before, by value |
| VersionPolicy.StricterIffNewlyHard | packages/common/src/ota.ts:79-158 | with no floor raised, some verdict turns stricter exactly when the edit blocks a version that was not judged hard before |
| VersionPolicy.TighteningIsSpuriousIff | packages/common/src/ota.ts:129-158 | an edit of blocked versions and lowered floors is classified tighten although no verdict turns stricter exactly when it adds a version as text and all it lists were judged hard already |
| VersionCandidates.NumbersOrder | packages/common/src/ota.ts:18-34 | comparing versions is comparing them as numbers of four digits in base 10^9 |
| VersionCandidates.NextIsLeast | packages/common/src/ota.ts:18-34 | every version but the last has a least one above it |
| VersionCandidates.StricterIffAtCandidate | packages/common/src/ota.ts:79-158 | for every edit, raised floors included: some version's verdict turns stricter exactly when that of a candidate does: zero, a floor before, a version next to one blocked before, or one blocked after |
| Csv.CsvReader.constructor | packages/common/src/help-glossary-csv.ts:35-47 | a reader starts on line 1 with nothing read |
| Csv.CsvReader.EndRow | packages/common/src/help-glossary-csv.ts:49-57 | a row ends with its last field, and is kept when some field is not blank |
| Csv.CsvReader.Quoted | packages/common/src/help-glossary-csv.ts:58-73 | one character inside quotes: a doubled quote is one, a single one closes, a line feed counts a line |
| Csv.CsvReader.Plain | packages/common/src/help-glossary-csv.ts:75-91 | one character outside quotes: opening quote, comma, row end with CR LF taken as one, or text |
| Csv.CsvReader.Advance | packages/common/src/help-glossary-csv.ts:93-99 | each turn of the loop keeps the rows read plus the rows the grammar still finds in the rest |
| Csv.CsvReader.Read | packages/common/src/help-glossary-csv.ts:93-102 | the character machine returns exactly the non-blank rows of the recursive grammar |
| Csv.QuotedStep | packages/common/src/help-glossary-csv.ts:58-73 | the grammar, entered inside quotes, takes the same step as the machine |
| Csv.PlainStep | packages/common/src/help-glossary-csv.ts:75-91 | the grammar, entered outside quotes, takes the same step as the machine |
| Csv.LinesCountBreaks | packages/common/src/help-glossary-csv.ts:75-102 | in every file a row is the record at its own start, on line 1 plus the breaks that end the rows before it (CR LF once) and the line feeds inside those rows |
| Csv.LinesAreEditorLines | packages/common/src/help-glossary-csv.ts:93-102 | when every CR is followed by LF, a row's line is 1 plus the line feeds before the row's own start, quoted ones included |
| Csv.FieldReadsBack | packages/common/src/help-glossary-csv.ts:174 | a printed field followed by a separator reads back, whatever commas, quotes and line breaks it holds |
| Csv.RecordReadsBack | packages/common/src/help-glossary-csv.ts:174-183 | a printed record reads back as its fields |
| Csv.PrintedRowsReadBack | packages/common/src/help-glossary-csv.ts:93-102 | a printed list of records that are not blank reads back as exactly those records, the first on line 1 |
| Csv.TrimMeans | packages/common/src/help-glossary-csv.ts:49-57 | trimming takes off spaces only, at the two ends, and leaves none there |
| Csv.InnerQuotesAreText | packages/common/src/help-glossary-csv.ts:75-91 | quotes inside a field that does not start with one are text |
| GlossaryCsv.ParseFile | packages/common/src/help-glossary-csv.ts:152-171 | parsing as it runs, on the character machine, is the parse that the round trip is about |
| GlossaryCsv.EveryRowIsAnswered | packages/common/src/help-glossary-csv.ts:167-171 | each data row becomes a term or a problem carrying its line, and nothing else is reported |
| GlossaryCsv.RowMeans | packages/common/src/help-glossary-csv.ts:118-149 | a row is a term exactly when its term, filled-in translations and note have allowed lengths and the rule it states fits them; then the term has those texts and that rule |
| GlossaryCsv.EmptyRuleIsNeverInvalid | packages/common/src/help-glossary-csv.ts:118-125 | a row with an empty rule is a term whenever its texts are allowed, fixed exactly when it has a translation |
| GlossaryCsv.SameRuleReadsTheSame | packages/common/src/help-glossary-csv.ts:118-125 | rows that differ only in how the same rule is stated, left empty, written or in other letter case, read the same |
| GlossaryCsv.HeaderMeans | packages/common/src/help-glossary-csv.ts:109-116 | a header reads when its columns are term, rule, note and languages and term is among them; else exactly the unknown columns are named, or the missing term |
| GlossaryCsv.FileMeans | packages/common/src/help-glossary-csv.ts:152-171 | an empty file, a header that does not read and more than 500 rows are one problem on the header's line; otherwise each further row is read |
| GlossaryCsv.MarkIsSkipped | packages/common/src/help-glossary-csv.ts:153 | a byte order mark at the start is skipped, once |
| GlossaryCsv.ValidateTwice | packages/common/src/help.ts:138-161 | the schema gives out terms that it accepts unchanged |
| GlossaryCsv.TermReadsBack | packages/common/src/help-glossary-csv.ts:128-149 | the written row of a valid term reads back as that term, with translations by column and the rule as written |
| GlossaryCsv.GlossaryRoundTrip | packages/common/src/help-glossary-csv.ts:152-186 | parsing a written glossary of valid terms gives those terms as the schema gives them out and no problem; past 500 terms, only the problem that there are too many |
| ShortCircuit.LazyOperatorsShortCircuit | packages/sdk-flags-core/src/json-logic.ts:208-230 | the index search of `if` and the reduce of `and` and `or` are the recursive short-circuit chains, errors included, for any number of arguments |
| ShortCircuit.UntakenBranchesNeverMatter | packages/sdk-flags-core/src/json-logic.ts:208-218 | wherever an `if` is decided, the branches under its falsy conditions and everything after its branch can be replaced, failing ones included, without effect; when the deciding condition fails, its branch too |
| ShortCircuit.BranchesNeverMatterToElse | packages/sdk-flags-core/src/json-logic.ts:208-218 | when no condition is truthy no branch matters, only the else value of an odd list |
| ShortCircuit.SkippedValuesNeverMatter | packages/sdk-flags-core/src/json-logic.ts:219-230 | wherever an `and` or `or` is decided, at a value that decides or fails, what follows can be replaced without effect, and the result is that value's |
| ShortCircuit.IfAnswers | packages/sdk-flags-core/src/json-logic.ts:207-216 | `if` takes a branch by the truth of its condition, and is null without an else value |
| ShortCircuit.AndOrAnswer | packages/sdk-flags-core/src/json-logic.ts:217-230 | `and` goes on past a truthy value and `or` past a falsy one; otherwise the value itself is the answer |
| JsonLogic.ValidatorFindsAll | packages/sdk-flags-core/src/json-logic.ts:177-192 | the validator reports nothing exactly for rules whose every object is empty or one supported operation |
| JsonLogic.ProblemsPointAtFaults | packages/sdk-flags-core/src/json-logic.ts:177-192 | each problem's path leads to an object with the fault it names |
| JsonLogic.FaultsAreReported | packages/sdk-flags-core/src/json-logic.ts:177-192 | each fault that supported operations lead to is reported, under its path |
| Operators.NotAnswers | packages/sdk-flags-core/src/json-logic.ts:140 | `!` answers true exactly for undefined, null, false, 0, the empty text and the empty array |
| Operators.NotSwapsBranches | packages/sdk-flags-core/src/json-logic.ts:140 | negating a condition swaps the branches of an `if` |
| Operators.EqualityAnswers | packages/sdk-flags-core/src/json-logic.ts:141-142 | `==` answers what the engine holds loosely equal and `!=` the opposite, and both stop on the same conversions |
| Operators.LessAnswers | packages/sdk-flags-core/src/json-logic.ts:64-70 | `<` and `<=` compare two texts in the engine's text order and anything else as numbers, or stop on a conversion |
| Operators.GreaterAnswers | packages/sdk-flags-core/src/json-logic.ts:147-149 | `>` and `>=` are `<` and `<=` with the arguments exchanged |
| Operators.BetweenAnswers | packages/sdk-flags-core/src/json-logic.ts:143-146 | with three arguments `<` and `<=` are the first comparison, unless it is true, and then the second |
| Operators.AffixesAnswer | packages/sdk-flags-core/src/json-logic.ts:130-166 | `starts_with` and `ends_with` of two texts hold when some rest or some head completes the part to the text; anything else gives null |
| Operators.InAnswers | packages/sdk-flags-core/src/json-logic.ts:150-156 | `in` holds when the text is some head, the needle and some rest, or when the engine holds some element the same as the needle; in nothing else |
| Operators.CatAnswers | packages/sdk-flags-core/src/json-logic.ts:158 | `cat` joins the texts of its arguments in order, or stops when one cannot be converted |
| Operators.SemVerAnswers | packages/sdk-flags-core/src/json-logic.ts:167 | `sem_ver` compares the first argument with the third by the operator between them, and is null for other numbers of arguments |
| Operators.WholeContextAnswers | packages/sdk-flags-core/src/json-logic.ts:41-50 | `var` without a path, or with an empty or null one, is the whole context |
| Operators.VariableAnswers | packages/sdk-flags-core/src/json-logic.ts:47-62 | `var` gives the value at the path, and where that leads nowhere the fallback, or null without one |
| Operators.PathGoesOn | packages/sdk-flags-core/src/json-logic.ts:51-61 | past a dot a path goes on with an own field, an element or the length of the array, and from a value that is neither it leads nowhere |
| Operators.LoneArgument | packages/sdk-flags-core/src/json-logic.ts:203-204 | an argument that is no array may stand alone |
| Operators.FailingArgumentStops | packages/sdk-flags-core/src/json-logic.ts:235-238 | an eager operation stops on its first failing argument, with that argument's error |
| Operators.ArrayAnswers | packages/sdk-flags-core/src/json-logic.ts:195-198 | an array evaluates item by item |
| JsonLogic.TrustedRunsAreExpected | packages/sdk-flags-core/src/json-logic.ts:194-239 | a validated rule never meets an unsupported operator; where reads convert, only a malformed `fractional` stops it; with fractionals sound as written, nothing does |
| JsonLogic.ConversionStopsSomeRuleIff | packages/sdk-flags-core/src/json-logic.ts:47-76 | for every context: some validated rule stops on a conversion if and only if some variable path leads to a value that cannot be converted |
| JsonLogic.OwnToStringStopsSomeRuleIff | packages/sdk-flags-core/src/json-logic.ts:47-76 | for every context: some validated rule stops on a conversion if and only if the context has an own `toString` where a path leads |
| JsonLogic.PlainContextsConvert | packages/sdk-flags-core/src/json-logic.ts:47-62 | a context with no own `toString` anywhere, array elements included, meets no failing conversion |
| JsonLogic.ReadsConvertIffReadable | packages/sdk-flags-core/src/json-logic.ts:47-62 | for every context: each path leads to something convertible exactly when the context has no own `toString` where array elements and keys without dots lead |
| JsonLogic.FractionalServesOwner | packages/sdk-flags-core/src/json-logic.ts:101-128 | with well-formed entries and an allowed total, `fractional` serves the variant of the entry that owns the key's hash, never one of weight 0 |
| JsonLogic.SoundFractionalSucceeds | packages/sdk-flags-core/src/json-logic.ts:101-128 | a `fractional` whose arguments evaluate, and whose entries are written as `[variant, integer]`, does not throw, whatever the variants evaluate to |
| Ruleset.FlagErrors | packages/sdk-flags-core/src/ruleset.ts:30-55 | the check that pushes onto one list reports the listed problems, in order |
| Ruleset.NoProblemsMeansValid | packages/sdk-flags-core/src/ruleset.ts:30-55 | a flag has no problem exactly when it is valid |
| Ruleset.ProblemsAreTheFlags | packages/sdk-flags-core/src/ruleset.ts:30-55 | a flag is told each problem it has, and no other: state, variants, default variant, metadata, and each fault of its targeting |
| Ruleset.RefusalTellsAll | packages/sdk-flags-core/src/ruleset.ts:57-69 | a refused document is told all that is wrong with its metadata and with each flag, and nothing else |
| Ruleset.FlagIsReadAsWritten | packages/sdk-flags-core/src/evaluate.ts:67-77 | a valid flag is read as written: enabled exactly by its state, with its variants, default variant and targeting |
| Ruleset.AcceptedIffValid | packages/sdk-flags-core/src/ruleset.ts:57-69 | a document is accepted exactly when it is valid, and keeps all its flags under their keys, each with variants, a known default and usable targeting |
| Evaluate.AcceptedRulesetsServeTheirVariants | packages/sdk-flags-core/src/evaluate.ts:50-107 | a served variant is the flag's own with its value, a value comes only with its variant, and reason and error code fit the flag |
| Evaluate.UntargetedFlagsServeTheirDefault | packages/sdk-flags-core/src/evaluate.ts:56-77 | an unknown flag is an error, a disabled one serves nothing, one without targeting its default as STATIC, and targeting decides for all others |
| Evaluate.DecisionsAreServed | packages/sdk-flags-core/src/evaluate.ts:78-107 | null serves the default variant as DEFAULT; the name of a variant, or JSON that is one, serves exactly that variant and its value as TARGETING_MATCH; any other is GENERAL and a failure PARSE_ERROR |
| RulesetCache.DefinitionsDecide | packages/sdk-flags-core/src/evaluate.ts:56-69 | in an accepted document a key without a definition is FLAG_NOT_FOUND, and DISABLED is answered exactly for a definition whose state says so |
| Evaluate.AcceptedRulesetsDoNotGoWrong | packages/sdk-flags-core/src/evaluate.ts:78-92 | PARSE_ERROR is exactly an evaluation error; it is never an unsupported operator, and where reads convert it is a malformed `fractional` |
| Evaluate.PlainCallersConvert | packages/sdk-flags-core/src/evaluate.ts:78-83 | a caller's context without an own `toString` anywhere reads without failing conversions |
| Evaluate.ConversionStopsSomeFlagIff | packages/sdk-flags-core/src/evaluate.ts:78-92 | for every key and context: in some accepted document the flag's evaluation stops on a conversion if and only if some path leads to a value that cannot be converted |
| Evaluate.OwnToStringStopsSomeFlagIff | packages/sdk-flags-core/src/evaluate.ts:78-92 | for every key and context: in some accepted document the flag's evaluation stops on a conversion if and only if the context, flag properties included, has an own `toString` where a path leads |
| Evaluate.OwnToStringGivesParseError | packages/sdk-flags-core/src/evaluate.ts:78-92 | an accepted document without any `fractional` answers PARSE_ERROR when the context has an object with its own `toString` |
| Evaluate.TypedResolutionsAreTyped | packages/sdk-flags-core/src/evaluate.ts:116-142 | the value has the asked type whenever the default has it, any other value is the served variant's, and TYPE_MISMATCH is given exactly for a served value of another type |
| Evaluate.TypedResolutionMeans | packages/sdk-flags-core/src/evaluate.ts:116-142 | a typed resolution is the untyped one when the value fits, the same around the caller's default when there is no value, and otherwise an error TYPE_MISMATCH around that default |
| ProbeSlots.HoldersAreCounted | packages/probe/src/agent.ts:133-151 | the number of runs holding a slot is `running` |
| ProbeSlots.RunsAreSafe | packages/probe/src/agent.ts:111-151 | over every interleaving holders are counted and at most `concurrency`, runs wait only when all slots are held, and slots are granted in arrival order |
| ProbeSlots.IdleMeansAllRan | packages/probe/src/agent.ts:111-151 | when nobody holds a slot, nobody waits: every run that arrived got its slot and gave it back, once |
| ProbeOutbox.GuardedStepConserves | packages/probe/src/agent.ts:153-216 | while no flush finds another waiting, a step keeps one active `flushBatches` and every result |
| ProbeOutbox.GuardedRunsConserve | packages/probe/src/agent.ts:153-216 | over such runs acknowledged, expired and queued results are the enqueued ones, each once, and order is kept |
| ProbeOutbox.RunsAttend | packages/probe/src/agent.ts:153-216 | in every run a non-empty outbox has a pending timer, an active post or a waiting flush |
| ProbeOutbox.OutboxIsReliable | packages/probe/src/agent.ts:153-248 | from an empty agent, guarded runs conserve every result and every run attends to what is queued, the flush of `drain` included |
| ProbeOutbox.FlushesAreNeverStuck | packages/probe/src/agent.ts:162-182 | in every run, guarded or not, the promise in `flushing` is that of a call under way, so a pending timer can fire and a shutdown can flush |
| ProbeOutbox.AnswersEmptyTheOutbox | packages/probe/src/agent.ts:184-216 | a flush whose posts are all answered, with nothing queued meanwhile, acknowledges the whole outbox in order and returns |
| ProbeOutbox.LiveHasTimeLeft | packages/probe/src/agent.ts:184-190 | of the queued results exactly those whose lease has time left are kept for posting |
| ProbeOutbox.PostsAreBounded | packages/probe/src/agent.ts:190-196 | in every run each post has at most 200 results |
| ProbeOutbox.PostsAreFull | packages/probe/src/agent.ts:184-196 | a flush first posts the oldest 200 live results, or all when there are fewer |
| ProbeOutbox.FlushesAreDue | packages/probe/src/agent.ts:153-160 | a queued result makes a flush due, at once when 200 wait, and one already due is not put off; a failed post makes a retry due unless a flush is |
| ProbeOutbox.TimersStayPending | packages/probe/src/agent.ts:153-216 | a pending timer stays until it fires or the agent shuts down, and is gone then |
| ProbeOutbox.FailureEndsTheCall | packages/probe/src/agent.ts:205-214 | a failed post gives up its call, changing nothing that is queued; the call can only return |
| ProbeWaiters.WaitersPostTheSame | packages/probe/src/agent.ts:172-194 | however many flushes wait on a call, when it returns, at any time, all of them post the same batch of what is still live |
| ProbeWaiters.WaitersRepeat | packages/probe/src/agent.ts:172-199 | when two or more waited, something queued is live as they resume and two posts are answered, a result is acknowledged twice |
| ProbeWaiters.NothingLiveIsHarmless | packages/probe/src/agent.ts:172-216 | when nothing queued is live as they resume, all return at once and every result is accounted for |
| ProbeWaiters.WaitersBreakIff | packages/probe/src/agent.ts:172-216 | for any number of waiting flushes, resuming and answering breaks conservation exactly when they are two or more and something queued is still live |
| ProbeWaiters.WaitersLose | packages/probe/src/agent.ts:172-214 | when two or more waited and more than one batch is live as they resume, the second batch can be lost: neither acknowledged, expired, queued nor being posted |
| ProbeWaiters.UnguardedFlushCanBreak | packages/probe/src/agent.ts:172-214 | wherever a flush waits on a call that still posts, one more flush while something queued is live can be followed, with the clock never running back, by a failed post after which a result is acknowledged twice |
| ProbeWaiters.AnAgentCanRepeat | packages/probe/src/agent.ts:153-216 | from an empty agent, at any time and for any results live then, a run with the clock never running back acknowledges a result twice |
| ProbeAgent.ProbeAgent.constructor | packages/probe/src/agent.ts:82-97 | an agent starts with free slots and an empty outbox |
| ProbeAgent.ProbeAgent.AcquireSlot | packages/probe/src/agent.ts:133-141 | the slot step of the model, on the agent's fields |
| ProbeAgent.ProbeAgent.ReleaseSlot | packages/probe/src/agent.ts:143-151 | the release step, handing the slot to the first waiter |
| ProbeAgent.ProbeAgent.FinishCheck | packages/probe/src/agent.ts:114-125 | a check that answered is queued, one that threw is not, and either way its slot is released once and safety is kept |
| ProbeAgent.ProbeAgent.Enqueue | packages/probe/src/agent.ts:153-160 | the queue step: flush at once at the batch limit, else after a delay unless one is pending |
| ProbeAgent.ProbeAgent.StartBatches | packages/probe/src/agent.ts:184-197 | drop what has expired and post the first batch |
| ProbeAgent.ProbeAgent.Flush | packages/probe/src/agent.ts:172-176 | wait on an active flush, or start one |
| ProbeAgent.ProbeAgent.ClearTimerAndFlush | packages/probe/src/agent.ts:164-168 | the timer callback, and the flush of `drain` |
| ProbeAgent.ProbeAgent.ReportAnswered | packages/probe/src/agent.ts:197-204 | an answered batch leaves the outbox and the next one is posted |
| ProbeAgent.ProbeAgent.ReportFailed | packages/probe/src/agent.ts:205-214 | a failed batch stays queued and a retry is scheduled unless a timer is pending |
| ProbeAgent.ProbeAgent.Settled | packages/probe/src/agent.ts:172-182 | when a flush ends each flush that waited on it starts its own, in turn |
| RulesetCache.ChangedFlagsAreExact | packages/sdk-openfeature-server/src/openfeature-server.ts:51-57 | the changed flags are exactly the keys whose definitions differ as JSON, each once |
| RulesetCache.UnannouncedFlagsResolveAlike | packages/sdk-openfeature-server/src/openfeature-server.ts:51-57 | a flag not listed as changed resolves as before, in every context |
| RulesetCache.MoccoProvider.constructor | packages/sdk-openfeature-server/src/openfeature-server.ts:69-81 | nothing is held at first |
| RulesetCache.MoccoProvider.Create | packages/sdk-openfeature-server/src/openfeature-server.ts:122-128 | an invalid bootstrap document is refused, a valid one is held without a tag |
| RulesetCache.MoccoProvider.BeginPoll | packages/sdk-openfeature-server/src/openfeature-server.ts:226-231 | one poll at a time, asking with the held tag |
| RulesetCache.MoccoProvider.FinishPoll | packages/sdk-openfeature-server/src/openfeature-server.ts:231-263 | the poll step of the model, on the provider's fields: ruleset, tag, degraded flag and events |
| RulesetCache.MoccoProvider.FinishInitialize | packages/sdk-openfeature-server/src/openfeature-server.ts:275-278 | initialisation rejects exactly when its poll failed and nothing is held |
| RulesetCache.PollMeans | packages/sdk-openfeature-server/src/openfeature-server.ts:231-263 | a poll that fails changes neither document nor tag; a change is announced exactly when a later poll brings a valid document in which some definition differs; the provider is degraded after a failure, unless it is the first one and something is held |
| RulesetCache.RunsAreCoherent | packages/sdk-openfeature-server/src/openfeature-server.ts:226-264 | over every run, whatever the server publishes in between, the held tag is that of the held ruleset and a ruleset once held is never dropped |
| RulesetCache.PollsBringTheServersDocument | packages/sdk-core/src/client.ts:130-140 | when equal tags mean equal documents, a poll that ends with the server's answer (200 or 304) leaves the document the server had when it answered, or, if that is invalid, both fields unchanged |
| RulesetCache.ReusedTagServesOld | packages/sdk-core/src/client.ts:130-140 | without that hypothesis a poll can succeed and keep an old document |
| RulesetCache.ChangesAreAnnounced | packages/sdk-openfeature-server/src/openfeature-server.ts:241-246 | after the initial poll, any definition that differs between two points of a run was announced between them |
| RulesetCache.EventsTellTheStatus | packages/sdk-openfeature-server/src/openfeature-server.ts:248-260 | in every run READY and STALE alternate, the last telling whether the provider is degraded; the ERROR event is never emitted by a poll |
| Sse.ReadServerSentEvents | packages/sdk-core/src/sse.ts:47-70 | the chunk loop yields the events of all complete blocks of the received text, and for clean cuts those of the whole stream's text |
| Sse.SplitGoesOn | packages/sdk-core/src/sse.ts:62-65 | splitting may go on from the unfinished block |
| Sse.CutsAreCleanIff | packages/sdk-core/src/sse.ts:62 | normalising chunk by chunk equals normalising the whole exactly when no cut splits a CR LF pair |
| Sse.CuttingDoesNotMatter | packages/sdk-core/src/sse.ts:47-70 | two clean ways of cutting one text give the same events |
| Sse.CutPairLosesAnEvent | packages/sdk-core/src/sse.ts:62 | a cut inside a CR LF pair can lose an event |
| Sse.CutPairChangesData | packages/sdk-core/src/sse.ts:62 | an event of one bare data line gets a CR at the end of its data when cut inside the pair that ends the line |
| Sse.CutChangesLine | packages/sdk-core/src/sse.ts:62-65 | a block of any lines, cut inside the pair that ends one of them, reads with a CR at the end of that line |
| Sse.CutPairChangesEvent | packages/sdk-core/src/sse.ts:18-71 | any printed event, cut inside the pair that ends any of its lines, reads as the event with a CR in that id, event name or data line, which is another event; whole, it reads as itself |
| Sse.BlockReadsBack | packages/sdk-core/src/sse.ts:18-44 | a block printed with id, event and data lines parses to its event, multi-line data included |
| Sse.LineMeans | packages/sdk-core/src/sse.ts:18-30 | a line stores its value, after a colon and at most one space, under its name: data lines collect, an id or event replaces, others and comments are skipped |
| Sse.DataMakesAnEvent | packages/sdk-core/src/sse.ts:32-44 | a block has an event exactly when one of its lines is a data line, an empty one included |
| Messenger.SortIsStableSort | packages/sdk-core/src/messenger.ts:344-351 | the sort orders by number and keeps the messages of each number, in their order |
| Messenger.MergeAddsTheUnseen | packages/sdk-core/src/messenger.ts:344-351 | a merge keeps what is there and adds exactly the messages whose number is new, sorted |
| Messenger.MergeIsStrictIff | packages/sdk-core/src/messenger.ts:344-351 | the merged thread is strictly increasing exactly when no two new messages share a number |
| Messenger.DeliveriesJoin | packages/sdk-core/src/messenger.ts:344-351 | with one message per number, any deliveries give the strictly increasing list of everything held and delivered |
| Messenger.DeliveryOrderDoesNotMatter | packages/sdk-core/src/messenger.ts:344-351 | deliveries in any order, repeated or split differently, give the same thread |
| Messenger.MergeSection | packages/sdk-core/src/messenger.ts:344-351 | merging a section of the server's log into a prefix gives a prefix exactly when nothing lies between them |
| Messenger.FinishStaysWholeIff | packages/sdk-core/src/messenger.ts:470-502 | finishing a load or a send leaves a gap-free thread gap-free exactly when no unseen message lies before what arrived |
| Messenger.CarefulRunsStayWhole | packages/sdk-core/src/messenger.ts:470-502 | over any interleaving of loads, appends and losses, threads stay gap-free if each send's answer fits and no continuing load is in flight when the state is reset |
| Messenger.LoadCatchesUp | packages/sdk-core/src/messenger.ts:470-478 | a load that fits brings the thread at least to the end of its answer |
| Messenger.GapsPersist | packages/sdk-core/src/messenger.ts:470-502 | a message once skipped, with no request under way for it, is never loaded while the user stays signed in |
| Messenger.RequestsAskPastTheEnd | packages/sdk-core/src/messenger.ts:470-499 | a load asks past the last loaded message; a sent message joins a loaded thread, and on one not loaded yet the whole thread is asked for |
| Messenger.SendSkipsReply | packages/sdk-core/src/messenger.ts:496-499 | a reply followed by one's own message on a loaded thread is such a skipped message |
| Messenger.ResetStartsMidThread | packages/sdk-core/src/messenger.ts:496-499 | a continuing load answered after a reset starts the new thread in the middle, contrary to the comment |
| Messenger.MarkedIsCounted | packages/sdk-core/src/messenger.ts:512-517 | the two filters of `markRead` agree: the new count is that of the new list |
| Messenger.MarkedAt | packages/sdk-core/src/messenger.ts:512-514 | marking leaves every conversation as it is, but that the marked one has nothing unread |
| Messenger.CountsUnread | packages/sdk-core/src/messenger.ts:391-407 | the count is the number of conversations with something unread |
| Messenger.MessengerClient.constructor | packages/sdk-core/src/messenger.ts:120-139 | nothing is loaded and nothing unread at first |
| Messenger.MessengerClient.BeginRefresh | packages/sdk-core/src/messenger.ts:388-390 | idle becomes loading; the count stays right |
| Messenger.MessengerClient.FinishRefresh | packages/sdk-core/src/messenger.ts:391-407 | list, status and count after an answer, a failure or no session; the count is that of the list |
| Messenger.MessengerClient.BeginLoad | packages/sdk-core/src/messenger.ts:471-476 | a load asks past the last loaded message, or for everything |
| Messenger.MessengerClient.MergeThread | packages/sdk-core/src/messenger.ts:344-351 | the merge, on one thread, leaving the others alone |
| Messenger.MessengerClient.FinishRequest | packages/sdk-core/src/messenger.ts:477-499 | the end of a load or a send is the step of its conversation, leaving every other thread alone |
| Messenger.MessengerClient.BeginMarkRead | packages/sdk-core/src/messenger.ts:505-509 | reading goes up to the newest loaded message, and does nothing when there is none |
| Messenger.MessengerClient.FinishMarkRead | packages/sdk-core/src/messenger.ts:510-518 | the conversation is marked and the count is that of the new list |
| Messenger.MessengerClient.Reset | packages/sdk-core/src/messenger.ts:606-622 | back to nothing loaded and nothing unread |
| Telemetry.EvaluationCounter.constructor | packages/sdk-core/src/telemetry.ts:30-45 | nothing is counted at first |
| Telemetry.EvaluationCounter.Record | packages/sdk-core/src/telemetry.ts:46-60 | the counting step of the model, on the counter's fields, sending early at 500 entries |
| Telemetry.EvaluationCounter.Flush | packages/sdk-core/src/telemetry.ts:62-76 | what is held becomes one report and the window restarts |
| Telemetry.RecordStaysSound | packages/sdk-core/src/telemetry.ts:46-60 | `size` is the number of distinct keys held, below 500 after each record, all in one window, and each report has 1 to 500 entries |
| Telemetry.RecordSendsWhenFull | packages/sdk-core/src/telemetry.ts:46-60 | a report goes out with the 500th key of a window, holding them all, and not before; a window starts with its first evaluation |
| Telemetry.RunsConserve | packages/sdk-core/src/telemetry.ts:46-76 | at every point of every run sent plus held counts equal the record calls, for any selection of evaluations that respects keys |
| Telemetry.EachKeyIsConserved | packages/sdk-core/src/telemetry.ts:46-76 | counts are conserved under each key, whatever the names |
| Telemetry.EachEvaluationIsConserved | packages/sdk-core/src/telemetry.ts:46-76 | for allowed names, sent plus held counts are the record calls, for each flag and variant, at every point of every run |
| Telemetry.IdsAreDistinct | packages/common/src/flags.ts:13-17 | allowed names never share a key |
| Telemetry.EmptyVariantIsMiscounted | packages/sdk-core/src/telemetry.ts:48 | an empty variant would be counted as none: the pattern is needed |

## Left out

- ProbeOutbox.GuardedRunsConserve: assumes that no flush finds another one waiting, because the code does not keep the promise otherwise; `UnguardedFlushCanBreak` and `AnAgentCanRepeat` show that the assumption is needed.
- RulesetCache.PollsBringTheServersDocument: assumes that equal tags mean equal documents, which is the server's part; `ReusedTagServesOld` shows that the assumption is needed.
- Csv.LinesAreEditorLines: covers files whose every CR is followed by LF, where a line is what an editor shows; `Csv.LinesCountBreaks` covers the line numbers of every file.
- GlossaryCsv.GlossaryRoundTrip: gives back terms as the schema gives them out (trimmed, absent translations and note filled in), which for terms already trimmed are the terms themselves.
- Messenger.CarefulRunsStayWhole: assumes what `Messenger.FinishStaysWholeIff` and `Messenger.ResetStartsMidThread` show to be needed.
- Telemetry.EachEvaluationIsConserved: assumes flag keys without line breaks and variants that are not empty, as the allowed patterns ensure.
- Flag and ruleset metadata in resolutions, and the texts of error messages.
- Inherited members and conversions of the engine beyond what the parameters say; functions reached as inherited members; object identity in `in`; the depth of the call stack.
- Upper and lower case outside ASCII, and the encoding of strings as UTF-8.
- The zod schemas other than the glossary term's, and the issue that zod reports first.
- The choice of a prompt's language (`pickVersionMessage`) and the parts of a version policy that do not bear on verdicts or directions.
- Timers, delays, backoff and jitter: a timer is pending or not, and may fire at any moment. Flushes that resume together read the same time.
- Leasing, heartbeats and the round times of checks; the agent's log; the last clearing of the timer in `drain`.
- HTTP: retries, status codes other than 200 and 304, and the session behind the messenger's calls; a call is answered, fails or has no session.
- The provider's stream loop (reconnecting, `Last-Event-ID`, which events ask for a poll): a poll may begin at any moment. `initialize` is called once, before any other poll; `onClose` is not part of this model.
- Guests, push tokens, attachments, watchers and listeners of the messenger; messages carry a number and a body.
- The backend, the consoles and the other SDK packages.
