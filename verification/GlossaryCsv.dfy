/**
 A help centre glossary as CSV.

 The terms are read from a file together with the problems of its rows, by columns that the first row names;
 the glossary is written back out, with a column for each language in use, in a form that reads again. What
 the schema gives out for a term is part of the model, since reading goes through it.
 */
module GlossaryCsv {
  import opened Text
  import opened Lists
  import opened Csv

  const LOCALES: seq<string> := ["en", "ko", "ja", "zh", "th", "vi", "id", "es", "pt", "fr", "de", "it"]

  predicate IsLocale(name: string) {
    name in LOCALES
  }

  const TERM_MAX := 100
  const TRANSLATION_MAX := 200
  const NOTE_MAX := 500
  const TERMS_MAX := 500

  datatype Rule = Keep | Fixed

  /** A term as callers hand it in: translations and note may be absent. */
  datatype TermInput = TermInput(term: string, rule: Rule, translations: Option<map<string, string>>, note: Option<string>)

  /** A term as the schema gives it out: trimmed, with the defaults filled in. */
  datatype Term = Term(term: string, rule: Rule, translations: map<string, string>, note: string)

  datatype ProblemKind =
    | EmptyFile
    | UnknownColumns(names: seq<string>)
    | NoTermColumn
    | TooManyTerms
    | InvalidRow
  datatype Problem = Problem(line: nat, kind: ProblemKind)
  datatype GlossaryFile = GlossaryFile(terms: seq<Term>, problems: seq<Problem>)

  // ----- The schema -----

  /** A JavaScript length: characters outside the Basic Multilingual Plane count twice. */
  function Utf16Length(s: string): nat {
    if s == "" then 0 else (if s[0] as int >= 0x1_0000 then 2 else 1) + Utf16Length(s[1..])
  }

  predicate IsGlossaryText(trimmed: string, max: nat) {
    1 <= Utf16Length(trimmed) <= max && '\U{27E6}' !in trimmed && '\U{27E7}' !in trimmed
  }

  function RuleText(rule: Rule): string {
    if rule.Keep? then "keep" else "fixed"
  }

  function TrimAll(m: map<string, string>): map<string, string> {
    map name | name in m :: Trim(m[name])
  }

  function Validate(term: string, rule: string, translations: map<string, string>, note: string): Option<Term> {
    if && IsGlossaryText(Trim(term), TERM_MAX)
       && rule in {"keep", "fixed"}
       && (forall name :: name in translations ==> IsLocale(name) && IsGlossaryText(Trim(translations[name]), TRANSLATION_MAX))
       && Utf16Length(Trim(note)) <= NOTE_MAX
       && (rule == "keep" <==> translations == map[])
    then Some(Term(Trim(term), if rule == "keep" then Keep else Fixed, TrimAll(translations), Trim(note)))
    else None
  }

  function TranslationsOf(input: TermInput): map<string, string> {
    if input.translations.None? then map[] else input.translations.value
  }

  function NoteOf(input: TermInput): string {
    if input.note.None? then "" else input.note.value
  }

  function ValidateInput(input: TermInput): Option<Term> {
    Validate(input.term, RuleText(input.rule), TranslationsOf(input), NoteOf(input))
  }

  // ----- Reading -----

  /** `toLowerCase`, as far as a result in plain ASCII goes. */
  function LowerChar(c: char): char {
    if 'A' <= c <= 'Z' then (c as int + 32) as char
    else if c == '\U{212A}' then 'k'
    else c
  }

  function Lower(s: string): string {
    if s == "" then "" else [LowerChar(s[0])] + Lower(s[1..])
  }

  function ColumnNames(fields: seq<string>): seq<string> {
    if fields == [] then [] else [Lower(Trim(fields[0]))] + ColumnNames(fields[1..])
  }

  predicate IsKnownColumn(name: string) {
    name in {"term", "rule", "note"} || IsLocale(name)
  }

  function UnknownNames(columns: seq<string>): seq<string> {
    if columns == [] then []
    else (if IsKnownColumn(columns[0]) then [] else [columns[0]]) + UnknownNames(columns[1..])
  }

  function HeaderProblem(columns: seq<string>): Option<ProblemKind> {
    var unknown := UnknownNames(columns);
    if unknown != [] then Some(UnknownColumns(unknown))
    else if "term" in columns then None
    else Some(NoTermColumn)
  }

  /** The first column of that name, or the number of columns. */
  function ColumnOf(columns: seq<string>, name: string): nat {
    if columns == [] || columns[0] == name then 0 else 1 + ColumnOf(columns[1..], name)
  }

  /** A row's trimmed value in a column; empty when the file or the row does not have it. */
  function Value(columns: seq<string>, fields: seq<string>, name: string): string {
    var index := ColumnOf(columns, name);
    if index < |columns| && index < |fields| then Trim(fields[index]) else ""
  }

  function RuleOf(written: string, hasTranslation: bool): string {
    if written != "" then Lower(written) else if hasTranslation then "fixed" else "keep"
  }

  function RowTranslations(columns: seq<string>, fields: seq<string>): map<string, string> {
    map name | name in columns && IsLocale(name) && Value(columns, fields, name) != "" :: Value(columns, fields, name)
  }

  function TermOf(columns: seq<string>, fields: seq<string>): Option<Term> {
    var translations := RowTranslations(columns, fields);
    Validate(Value(columns, fields, "term"),
             RuleOf(Value(columns, fields, "rule"), translations != map[]),
             translations,
             Value(columns, fields, "note"))
  }

  function ReadTerms(columns: seq<string>, rows: seq<Row>): GlossaryFile {
    if rows == [] then GlossaryFile([], [])
    else
      var term := TermOf(columns, rows[0].fields);
      var more := ReadTerms(columns, rows[1..]);
      if term.None? then GlossaryFile(more.terms, [Problem(rows[0].line, InvalidRow)] + more.problems)
      else GlossaryFile([term.value] + more.terms, more.problems)
  }

  /** A length is that of JavaScript: one for each character, and one more for each outside the Basic Multilingual Plane. */
  lemma {:induction false} LengthCountsPairs(s: string, t: string)
    ensures Utf16Length(s + t) == Utf16Length(s) + Utf16Length(t)
    ensures (forall k :: 0 <= k < |s| ==> s[k] < '\U{10000}') ==> Utf16Length(s) == |s|
    ensures (forall k :: 0 <= k < |s| ==> s[k] >= '\U{10000}') ==> Utf16Length(s) == 2 * |s|
  {
    if s == "" {
      assert s + t == t;
    } else {
      assert (s + t)[1..] == s[1..] + t;
      LengthCountsPairs(s[1..], t);
    }
  }

  lemma {:induction false} UnknownNamesAre(columns: seq<string>)
    ensures forall name :: name in UnknownNames(columns) <==> name in columns && !IsKnownColumn(name)
  {
    hide IsKnownColumn;
    if columns != [] {
      UnknownNamesAre(columns[1..]);
      assert forall name :: name in columns <==> name == columns[0] || name in columns[1..];
    }
  }

  /** A header reads when each column is the term, the rule, the note or a language, and the term is among them; otherwise the unknown columns are named, or the missing term. */
  lemma {:induction false} HeaderMeans(columns: seq<string>)
    ensures HeaderProblem(columns) == None <==>
              "term" in columns && forall name :: name in columns ==> name in ["term", "rule", "note"] || IsLocale(name)
    ensures HeaderProblem(columns) == Some(NoTermColumn) <==>
              "term" !in columns && forall name :: name in columns ==> name in ["term", "rule", "note"] || IsLocale(name)
    ensures match HeaderProblem(columns)
            case Some(UnknownColumns(names)) =>
              names != [] && forall name :: name in names <==> name in columns && name !in ["term", "rule", "note"] && !IsLocale(name)
            case _ => true
  {
    UnknownNamesAre(columns);
    var unknown := UnknownNames(columns);
    assert forall name :: IsKnownColumn(name) <==> name in ["term", "rule", "note"] || IsLocale(name);
    hide IsKnownColumn, IsLocale, UnknownNames;
    assert unknown != [] ==> unknown[0] in unknown;
  }

  /** Each column is named by its header field, whatever spaces stand around it and in any letter case. */
  lemma {:induction false} ColumnsAreNamed(fields: seq<string>)
    ensures |ColumnNames(fields)| == |fields|
    ensures forall k :: 0 <= k < |fields| ==> ColumnNames(fields)[k] == Lower(Trim(fields[k]))
  {
    if fields != [] {
      ColumnsAreNamed(fields[1..]);
      hide Lower, Trim;
      assert forall k :: 0 < k < |fields| ==> ColumnNames(fields)[k] == ColumnNames(fields[1..])[k - 1];
    }
  }

  /** What a file reads as, by its rows: none at all, a header that does not read, more than 500 terms, or a term or problem for each further row. */
  lemma {:induction false} FileMeans(text: string)
    ensures var rows, file := Rows(Unmarked(text)), ParseGlossaryCsv(text);
            && (rows == [] ==> file == GlossaryFile([], [Problem(1, EmptyFile)]))
            && (rows != [] && HeaderProblem(ColumnNames(rows[0].fields)).Some? ==>
                  file == GlossaryFile([], [Problem(rows[0].line, HeaderProblem(ColumnNames(rows[0].fields)).value)]))
            && (rows != [] && HeaderProblem(ColumnNames(rows[0].fields)).None? ==>
                  file == if |rows[1..]| > 500 then GlossaryFile([], [Problem(rows[0].line, TooManyTerms)])
                          else ReadTerms(ColumnNames(rows[0].fields), rows[1..]))
  {
    hide Rows, HeaderProblem, ColumnNames, ReadTerms, Unmarked;
  }

  /** A byte order mark at the start is skipped, once. */
  lemma {:induction false} MarkIsSkipped(text: string)
    ensures ParseGlossaryCsv("\U{FEFF}" + text) == ReadRows(Rows(text))
    ensures text == "" || text[0] != '\U{FEFF}' ==> ParseGlossaryCsv("\U{FEFF}" + text) == ParseGlossaryCsv(text)
  {
    assert ("\U{FEFF}" + text)[1..] == text;
    hide ReadRows, Rows;
  }

  /** The schema allows the texts of a row: its term, its translations and its note. */
  predicate AreAllowed(columns: seq<string>, fields: seq<string>) {
    && IsGlossaryText(Value(columns, fields, "term"), 100)
    && (forall name :: name in columns && IsLocale(name) && Value(columns, fields, name) != "" ==>
          IsGlossaryText(Value(columns, fields, name), 200))
    && Utf16Length(Value(columns, fields, "note")) <= 500
  }

  /** Some language column of the row is filled in. */
  predicate IsTranslated(columns: seq<string>, fields: seq<string>) {
    exists name :: name in columns && IsLocale(name) && Value(columns, fields, name) != ""
  }

  lemma {:induction false} ValueIsTrimmed(columns: seq<string>, fields: seq<string>, name: string)
    ensures Trim(Value(columns, fields, name)) == Value(columns, fields, name)
  {
    var index := ColumnOf(columns, name);
    if index < |columns| && index < |fields| {
      TrimTwice(fields[index]);
    }
  }

  lemma {:induction false} TranslationsAreFilledIn(columns: seq<string>, fields: seq<string>)
    ensures RowTranslations(columns, fields) != map[] <==> IsTranslated(columns, fields)
    ensures TrimAll(RowTranslations(columns, fields)) == RowTranslations(columns, fields)
  {
    var translations := RowTranslations(columns, fields);
    forall name | name in translations ensures Trim(translations[name]) == translations[name] {
      ValueIsTrimmed(columns, fields, name);
    }
    hide Value, IsLocale;
    if IsTranslated(columns, fields) {
      var name :| name in columns && IsLocale(name) && Value(columns, fields, name) != "";
      assert name in translations;
    }
    if translations != map[] {
      var name :| name in translations;
      assert name in columns && IsLocale(name) && Value(columns, fields, name) != "";
    }
  }

  /** The rule a text names. */
  function RuleNamed(text: string): Option<Rule> {
    if text == "keep" then Some(Keep) else if text == "fixed" then Some(Fixed) else None
  }

  /** The rule a row states: as written, in any letter case, or by whether it is translated when nothing is written. */
  function StatedRule(columns: seq<string>, fields: seq<string>): Option<Rule> {
    var written := Value(columns, fields, "rule");
    if written == "" then Some(if IsTranslated(columns, fields) then Fixed else Keep) else RuleNamed(Lower(written))
  }

  lemma {:induction false} RuleOfNames(written: string, hasTranslation: bool)
    ensures RuleNamed(RuleOf(written, hasTranslation)) ==
            if written == "" then Some(if hasTranslation then Fixed else Keep) else RuleNamed(Lower(written))
  {
  }

  predicate AreTexts(translations: map<string, string>) {
    forall name :: name in translations ==> IsGlossaryText(translations[name], TRANSLATION_MAX)
  }

  /** What the schema says of texts that are trimmed, under language names it knows. */
  lemma {:induction false} SchemaMeans(term: string, rule: string, translations: map<string, string>, note: string)
    requires Trim(term) == term && Trim(note) == note && TrimAll(translations) == translations
    requires forall name :: name in translations ==> IsLocale(name) && Trim(translations[name]) == translations[name]
    ensures var fitting := if translations == map[] then Keep else Fixed;
            Validate(term, rule, translations, note) ==
            if && IsGlossaryText(term, TERM_MAX) && AreTexts(translations) && Utf16Length(note) <= NOTE_MAX
               && RuleNamed(rule) == Some(fitting)
            then Some(Term(term, fitting, translations, note)) else None
  {
    hide IsLocale, IsGlossaryText, Trim, Utf16Length, TrimAll;
  }

  lemma {:induction false} AllowedIsTexts(columns: seq<string>, fields: seq<string>)
    ensures AreAllowed(columns, fields) <==>
              && IsGlossaryText(Value(columns, fields, "term"), TERM_MAX) && AreTexts(RowTranslations(columns, fields))
              && Utf16Length(Value(columns, fields, "note")) <= NOTE_MAX
  {
    hide Value, IsLocale, IsGlossaryText, Utf16Length;
    var translations := RowTranslations(columns, fields);
    if AreTexts(translations) {
      forall name | name in columns && IsLocale(name) && Value(columns, fields, name) != ""
        ensures IsGlossaryText(Value(columns, fields, name), TRANSLATION_MAX)
      {
        assert name in translations;
      }
    }
  }

  /**
   A row is a term exactly when its texts are allowed and it states a rule that fits its translations: fixed with some, keep
   with none. The term has the row's texts, that rule, and a translation for each language column that is filled in.
   */
  lemma {:induction false} RowMeans(columns: seq<string>, fields: seq<string>)
    ensures var fitting := if IsTranslated(columns, fields) then Fixed else Keep;
            TermOf(columns, fields) ==
            if AreAllowed(columns, fields) && StatedRule(columns, fields) == Some(fitting)
            then Some(Term(Value(columns, fields, "term"), fitting, RowTranslations(columns, fields), Value(columns, fields, "note")))
            else None
  {
    var translations := RowTranslations(columns, fields);
    ValueIsTrimmed(columns, fields, "term");
    ValueIsTrimmed(columns, fields, "note");
    forall name | name in translations ensures IsLocale(name) && Trim(translations[name]) == translations[name] {
      ValueIsTrimmed(columns, fields, name);
    }
    TranslationsAreFilledIn(columns, fields);
    AllowedIsTexts(columns, fields);
    RuleOfNames(Value(columns, fields, "rule"), translations != map[]);
    hide Value, IsLocale, IsGlossaryText, Trim, TrimAll, Lower, Utf16Length, IsTranslated, RowTranslations, RuleOf, RuleNamed, Validate, AreAllowed;
    SchemaMeans(Value(columns, fields, "term"), RuleOf(Value(columns, fields, "rule"), translations != map[]), translations, Value(columns, fields, "note"));
  }

  /** A row with nothing written for its rule is a term whenever its texts are allowed. */
  lemma {:induction false} EmptyRuleIsNeverInvalid(columns: seq<string>, fields: seq<string>)
    requires Value(columns, fields, "rule") == ""
    ensures TermOf(columns, fields).Some? <==> AreAllowed(columns, fields)
    ensures TermOf(columns, fields).Some? ==> (TermOf(columns, fields).value.rule == Fixed <==> IsTranslated(columns, fields))
  {
    RowMeans(columns, fields);
    hide Value, TermOf, AreAllowed, IsTranslated, RowTranslations;
  }

  /** Writing the rule out, in any letter case, changes nothing: two rows that differ only there and state the same rule read the same. */
  lemma {:induction false} SameRuleReadsTheSame(columns: seq<string>, fields: seq<string>, others: seq<string>)
    requires forall name :: name != "rule" ==> Value(columns, fields, name) == Value(columns, others, name)
    requires StatedRule(columns, fields) == StatedRule(columns, others)
    ensures TermOf(columns, fields) == TermOf(columns, others)
  {
    hide *;
    assert "term" != "rule" && "note" != "rule";
    RulesAreNoLocales();
    OtherTextsAgree(columns, fields, others);
    RowMeans(columns, fields);
    RowMeans(columns, others);
  }

  lemma {:induction false} OtherTextsAgree(columns: seq<string>, fields: seq<string>, others: seq<string>)
    requires forall name :: name != "rule" ==> Value(columns, fields, name) == Value(columns, others, name)
    requires !IsLocale("rule")
    ensures RowTranslations(columns, fields) == RowTranslations(columns, others)
    ensures AreAllowed(columns, fields) == AreAllowed(columns, others) && IsTranslated(columns, fields) == IsTranslated(columns, others)
  {
    assert "term" != "rule" && "note" != "rule";
    hide Value, IsLocale, IsGlossaryText, Utf16Length;
    assert forall name :: IsLocale(name) ==> Value(columns, fields, name) == Value(columns, others, name);
  }

  lemma RulesAreNoLocales()
    ensures !IsLocale("rule") && !IsLocale("term") && !IsLocale("note")
  {
  }

  /** Letter case does not matter; the Kelvin sign is a capital K too. */
  lemma RulesInCapitals()
    ensures Lower("KEEP") == "keep" && Lower("FIXED") == "fixed" && Lower("keep") == "keep" && Lower("fixed") == "fixed"
    ensures Lower("\U{212A}eep") == "keep"
  {
    assert "KEEP"[1..] == "EEP" && "EEP"[1..] == "EP" && "EP"[1..] == "P" && "P"[1..] == "";
    assert "keep"[1..] == "eep" && "eep"[1..] == "ep" && "ep"[1..] == "p" && "p"[1..] == "";
    assert "\U{212A}eep"[1..] == "eep";
    assert "FIXED"[1..] == "IXED" && "IXED"[1..] == "XED" && "XED"[1..] == "ED" && "ED"[1..] == "D" && "D"[1..] == "";
    assert "fixed"[1..] == "ixed" && "ixed"[1..] == "xed" && "xed"[1..] == "ed" && "ed"[1..] == "d" && "d"[1..] == "";
  }

  /** Each row is a term or a problem of its line, and nothing else is reported. */
  lemma {:induction false} EveryRowIsAnswered(columns: seq<string>, rows: seq<Row>)
    ensures var file := ReadTerms(columns, rows);
            && |file.terms| + |file.problems| == |rows|
            && (forall term :: term in file.terms <==> exists k :: 0 <= k < |rows| && TermOf(columns, rows[k].fields) == Some(term))
            && (forall p :: p in file.problems <==>
                  exists k :: 0 <= k < |rows| && TermOf(columns, rows[k].fields).None? && p == Problem(rows[k].line, InvalidRow))
  {
    hide TermOf;
    if rows != [] {
      EveryRowIsAnswered(columns, rows[1..]);
      assert forall k :: 0 < k < |rows| ==> rows[k] == rows[1..][k - 1];
      assert forall k :: 0 <= k < |rows| - 1 ==> rows[1..][k] == rows[k + 1];
    }
  }

  function OnlyProblem(line: nat, kind: ProblemKind): GlossaryFile {
    GlossaryFile([], [Problem(line, kind)])
  }

  function ReadRows(rows: seq<Row>): GlossaryFile {
    if rows == [] then OnlyProblem(1, EmptyFile)
    else
      var columns := ColumnNames(rows[0].fields);
      var problem := HeaderProblem(columns);
      if problem.Some? then OnlyProblem(rows[0].line, problem.value)
      else if |rows| - 1 > TERMS_MAX then OnlyProblem(rows[0].line, TooManyTerms)
      else ReadTerms(columns, rows[1..])
  }

  function Unmarked(text: string): string {
    if text != "" && text[0] == '\U{FEFF}' then text[1..] else text
  }

  /** Reading a file, past an optional byte order mark. */
  function ParseGlossaryCsv(text: string): GlossaryFile {
    ReadRows(Rows(Unmarked(text)))
  }

  /** Parsing as it runs, with the character machine. */
  method ParseFile(text: string) returns (file: GlossaryFile)
    ensures file == ParseGlossaryCsv(text)
  {
    var reader := new CsvReader(Unmarked(text));
    var rows := reader.Read();
    file := ReadRows(rows);
  }

  // ----- Writing -----

  predicate AnyTranslates(terms: seq<TermInput>, locale: string) {
    exists k :: 0 <= k < |terms| && locale in TranslationsOf(terms[k])
  }

  function UsedLocales(terms: seq<TermInput>, locales: seq<string>): seq<string> {
    if locales == [] then []
    else (if AnyTranslates(terms, locales[0]) then [locales[0]] else []) + UsedLocales(terms, locales[1..])
  }

  function Header(locales: seq<string>): seq<string> {
    ["term", "rule"] + locales + ["note"]
  }

  function Translated(translations: map<string, string>, locales: seq<string>): seq<string> {
    if locales == [] then []
    else [if locales[0] in translations then translations[locales[0]] else ""] + Translated(translations, locales[1..])
  }

  function TermFields(term: TermInput, locales: seq<string>): seq<string> {
    [term.term, RuleText(term.rule)] + Translated(TranslationsOf(term), locales) + [NoteOf(term)]
  }

  function TermLines(terms: seq<TermInput>, locales: seq<string>): seq<string> {
    if terms == [] then [] else [PrintRecord(TermFields(terms[0], locales))] + TermLines(terms[1..], locales)
  }

  /** Writing terms under a header that names the languages in use. */
  function PrintGlossaryCsv(terms: seq<TermInput>): string {
    PrintUnder(terms, UsedLocales(terms, LOCALES))
  }

  function PrintUnder(terms: seq<TermInput>, locales: seq<string>): string {
    Join([Join(Header(locales), ",")] + TermLines(terms, locales), "\r\n") + "\r\n"
  }

  // ----- The round trip -----

  function TermRecords(terms: seq<TermInput>, locales: seq<string>): seq<seq<string>> {
    if terms == [] then [] else [TermFields(terms[0], locales)] + TermRecords(terms[1..], locales)
  }

  predicate IsPlainName(name: string) {
    name != "" && forall k :: 0 <= k < |name| ==> 'a' <= name[k] <= 'z'
  }

  lemma {:induction false} LocaleIsPlain(name: string)
    requires IsLocale(name)
    ensures IsPlainName(name) && name !in {"term", "rule", "note"}
  {
  }

  lemma LocalesAreDistinct()
    ensures IsDistinct(LOCALES)
  {
  }

  lemma {:induction false} UsedLocalesAre(terms: seq<TermInput>, locales: seq<string>)
    requires IsDistinct(locales)
    ensures var used := UsedLocales(terms, locales);
            && IsDistinct(used)
            && forall name :: name in used <==> name in locales && AnyTranslates(terms, name)
  {
    if locales != [] {
      UsedLocalesAre(terms, locales[1..]);
      assert locales == [locales[0]] + locales[1..];
      assert locales[0] !in locales[1..];
    }
  }

  lemma {:induction false} PlainNameIsItself(name: string)
    requires IsPlainName(name)
    ensures Lower(name) == name && Trim(name) == name && !NeedsQuotes(name)
  {
    assert !IsSpace(name[0]) && !IsSpace(name[|name| - 1]);
    LowerKeeps(name);
  }

  lemma {:induction false} LowerKeeps(name: string)
    requires forall k :: 0 <= k < |name| ==> 'a' <= name[k] <= 'z'
    ensures Lower(name) == name
  {
    if name != "" {
      LowerKeeps(name[1..]);
      assert name == [name[0]] + name[1..];
    }
  }

  lemma {:induction false} PlainNamesAreThemselves(names: seq<string>)
    requires forall k :: 0 <= k < |names| ==> IsPlainName(names[k])
    ensures ColumnNames(names) == names && PrintFields(names) == names
  {
    if names != [] {
      PlainNameIsItself(names[0]);
      PlainNamesAreThemselves(names[1..]);
      assert names == [names[0]] + names[1..];
    }
  }

  lemma {:induction false} KnownColumnsHaveNoProblem(columns: seq<string>)
    requires forall k :: 0 <= k < |columns| ==> IsKnownColumn(columns[k])
    ensures UnknownNames(columns) == []
  {
    if columns != [] {
      KnownColumnsHaveNoProblem(columns[1..]);
    }
  }

  lemma {:induction false} ColumnOfDistinct(columns: seq<string>, k: nat)
    requires IsDistinct(columns) && k < |columns|
    ensures ColumnOf(columns, columns[k]) == k
  {
    if k > 0 {
      ColumnOfDistinct(columns[1..], k - 1);
    }
  }

  lemma {:induction false} ColumnOfAbsent(columns: seq<string>, name: string)
    requires name !in columns
    ensures ColumnOf(columns, name) == |columns|
  {
    if columns != [] {
      ColumnOfAbsent(columns[1..], name);
    }
  }

  lemma {:induction false} TranslatedAt(translations: map<string, string>, locales: seq<string>)
    ensures |Translated(translations, locales)| == |locales|
    ensures forall k :: 0 <= k < |locales| ==>
              Translated(translations, locales)[k] == if locales[k] in translations then translations[locales[k]] else ""
  {
    if locales != [] {
      TranslatedAt(translations, locales[1..]);
    }
  }

  /** The columns of a written file: distinct, known, and written as they are. */
  predicate AreColumns(locales: seq<string>) {
    IsDistinct(locales) && forall k :: 0 <= k < |locales| ==> IsLocale(locales[k])
  }

  lemma {:induction false} HeaderNames(locales: seq<string>)
    requires AreColumns(locales)
    ensures IsDistinct(Header(locales)) && "term" in Header(locales)
    ensures forall k :: 0 <= k < |Header(locales)| ==> IsPlainName(Header(locales)[k]) && IsKnownColumn(Header(locales)[k])
  {
    hide IsLocale;
    var header := Header(locales);
    assert header[0] == "term" && header[1] == "rule" && header[|header| - 1] == "note";
    forall k | 0 <= k < |header| ensures IsPlainName(header[k]) && IsKnownColumn(header[k]) {
      if 2 <= k < |header| - 1 {
        assert header[k] == locales[k - 2];
        LocaleIsPlain(locales[k - 2]);
      }
    }
    forall j, k | 0 <= j < k < |header| ensures header[j] != header[k] {
      if 2 <= j < |header| - 1 {
        assert header[j] == locales[j - 2];
        LocaleIsPlain(locales[j - 2]);
      }
      if 2 <= k < |header| - 1 {
        assert header[k] == locales[k - 2];
        LocaleIsPlain(locales[k - 2]);
      }
    }
  }

  lemma {:induction false} HeaderReads(locales: seq<string>)
    requires AreColumns(locales)
    ensures var header := Header(locales);
            && IsDistinct(header) && HeaderProblem(header) == None
            && ColumnNames(header) == header && PrintFields(header) == header && !IsBlank(header)
  {
    hide IsLocale, AreColumns, IsDistinct, ColumnNames, PrintFields, UnknownNames;
    var header := Header(locales);
    HeaderNames(locales);
    PlainNamesAreThemselves(header);
    KnownColumnsHaveNoProblem(header);
    assert header[0] == "term";
    PlainNameIsItself(header[0]);
  }

  /** A written term's fields stand under their columns. */
  lemma {:induction false} WrittenValue(term: TermInput, locales: seq<string>, k: nat)
    requires AreColumns(locales) && k < |Header(locales)|
    ensures |TermFields(term, locales)| == |Header(locales)|
    ensures Value(Header(locales), TermFields(term, locales), Header(locales)[k]) == Trim(TermFields(term, locales)[k])
  {
    hide Trim, IsLocale;
    HeaderNames(locales);
    TranslatedAt(TranslationsOf(term), locales);
    ColumnOfDistinct(Header(locales), k);
  }

  lemma {:induction false} WrittenTranslation(term: TermInput, locales: seq<string>, name: string)
    requires AreColumns(locales) && name in locales
    ensures name in Header(locales)
    ensures Value(Header(locales), TermFields(term, locales), name) ==
            if name in TranslationsOf(term) then Trim(TranslationsOf(term)[name]) else ""
  {
    hide IsLocale, Value;
    var k :| 0 <= k < |locales| && locales[k] == name;
    WrittenValue(term, locales, k + 2);
    TranslatedAt(TranslationsOf(term), locales);
    assert Header(locales)[k + 2] == name;
    assert TermFields(term, locales)[k + 2] == Translated(TranslationsOf(term), locales)[k];
    assert Trim("") == "";
  }

  lemma {:induction false} WrittenTexts(term: TermInput, locales: seq<string>)
    requires AreColumns(locales)
    ensures var header, fields := Header(locales), TermFields(term, locales);
            && Value(header, fields, "term") == Trim(term.term)
            && Value(header, fields, "rule") == RuleText(term.rule)
            && Value(header, fields, "note") == Trim(NoteOf(term))
  {
    hide IsLocale, Value, Trim;
    var last := |Header(locales)| - 1;
    WrittenValue(term, locales, 0);
    WrittenValue(term, locales, 1);
    WrittenValue(term, locales, last);
    assert Header(locales)[last] == "note" && TermFields(term, locales)[last] == NoteOf(term);
    PlainNameIsItself(RuleText(term.rule));
  }

  /** The translations a written term reads back are its own, trimmed. */
  lemma {:induction false} TranslationsReadBack(term: TermInput, locales: seq<string>)
    requires AreColumns(locales)
    requires forall name :: name in TranslationsOf(term) ==> name in locales && Trim(TranslationsOf(term)[name]) != ""
    ensures RowTranslations(Header(locales), TermFields(term, locales)) == TrimAll(TranslationsOf(term))
  {
    hide IsLocale, Value, Trim;
    var header, fields, given := Header(locales), TermFields(term, locales), TranslationsOf(term);
    var read := RowTranslations(header, fields);
    forall name ensures name in read <==> name in given {
      if name in given {
        WrittenTranslation(term, locales, name);
      }
      if name in read {
        LocaleIsPlain(name);
        assert name in header && name !in {"term", "rule", "note"};
        var k :| 0 <= k < |header| && header[k] == name;
        assert name == locales[k - 2];
        WrittenTranslation(term, locales, name);
      }
    }
    forall name | name in read ensures read[name] == Trim(given[name]) {
      WrittenTranslation(term, locales, name);
    }
  }

  lemma {:induction false} TrimAllTwice(m: map<string, string>)
    ensures TrimAll(TrimAll(m)) == TrimAll(m)
    ensures TrimAll(m) == map[] <==> m == map[]
  {
    forall name | name in m ensures Trim(Trim(m[name])) == Trim(m[name]) {
      TrimTwice(m[name]);
    }
    if m != map[] {
      var name :| name in m;
      assert name in TrimAll(m);
    }
  }

  /** The schema gives out a value it leaves as it is. */
  lemma {:induction false} ValidateTwice(term: string, rule: string, translations: map<string, string>, note: string)
    requires Validate(term, rule, translations, note).Some?
    ensures Validate(Trim(term), rule, TrimAll(translations), Trim(note)) == Validate(term, rule, translations, note)
  {
    hide IsLocale, IsGlossaryText, Trim, Utf16Length;
    TrimTwice(term);
    TrimTwice(note);
    TrimAllTwice(translations);
    forall name | name in translations ensures Trim(Trim(translations[name])) == Trim(translations[name]) {
      TrimTwice(translations[name]);
    }
  }

  /** A valid term, written under columns that hold its languages, reads back as the schema gives it out. */
  lemma {:induction false} TermReadsBack(input: TermInput, locales: seq<string>)
    requires AreColumns(locales) && ValidateInput(input).Some?
    requires forall name :: name in TranslationsOf(input) ==> name in locales
    ensures TermOf(Header(locales), TermFields(input, locales)) == ValidateInput(input)
  {
    var given := TranslationsOf(input);
    forall name | name in given ensures Trim(given[name]) != "" {
      assert Utf16Length("") == 0;
    }
    ValidateTwice(input.term, RuleText(input.rule), given, NoteOf(input));
    RuleReadsBack(input.rule);
    hide IsLocale, Trim, Value, Validate, Header, TermFields;
    WrittenTexts(input, locales);
    TranslationsReadBack(input, locales);
  }

  lemma {:induction false} RuleReadsBack(rule: Rule)
    ensures forall hasTranslation :: RuleOf(RuleText(rule), hasTranslation) == RuleText(rule)
  {
    PlainNameIsItself(RuleText(rule));
  }

  lemma {:induction false} TermsReadBack(terms: seq<TermInput>, locales: seq<string>, rows: seq<Row>)
    requires AreColumns(locales) && HaveFields(rows, TermRecords(terms, locales))
    requires forall k :: 0 <= k < |terms| ==> ValidateInput(terms[k]).Some?
    requires forall k, name :: 0 <= k < |terms| && name in TranslationsOf(terms[k]) ==> name in locales
    ensures var file := ReadTerms(Header(locales), rows);
            && file.problems == [] && |file.terms| == |terms|
            && forall k :: 0 <= k < |terms| ==> Some(file.terms[k]) == ValidateInput(terms[k])
  {
    hide AreColumns, ValidateInput, TranslationsOf, TermFields, TermOf, Header;
    if terms != [] {
      assert rows[0].fields == TermRecords(terms, locales)[0] == TermFields(terms[0], locales);
      TermReadsBack(terms[0], locales);
      assert HaveFields(rows[1..], TermRecords(terms[1..], locales)) by {
        assert TermRecords(terms, locales)[1..] == TermRecords(terms[1..], locales);
      }
      TermsReadBack(terms[1..], locales, rows[1..]);
    }
  }

  lemma {:induction false} WrittenTermIsNotBlank(term: TermInput, locales: seq<string>)
    requires ValidateInput(term).Some?
    ensures TermFields(term, locales) != [] && !IsBlank(TermFields(term, locales))
  {
    assert TermFields(term, locales)[0] == term.term;
    assert Utf16Length("") == 0;
  }

  lemma {:induction false} TermRecordsAt(terms: seq<TermInput>, locales: seq<string>)
    ensures |TermRecords(terms, locales)| == |terms|
    ensures forall k :: 0 <= k < |terms| ==> TermRecords(terms, locales)[k] == TermFields(terms[k], locales)
  {
    if terms != [] {
      TermRecordsAt(terms[1..], locales);
    }
  }

  lemma {:induction false} JoinedLinesAreRecords(header: seq<string>, terms: seq<TermInput>, locales: seq<string>)
    ensures Join([PrintRecord(header)] + TermLines(terms, locales), "\r\n") + "\r\n"
            == PrintRecords([header] + TermRecords(terms, locales))
    decreases |terms|
  {
    var lines, records := [PrintRecord(header)] + TermLines(terms, locales), [header] + TermRecords(terms, locales);
    assert lines[1..] == TermLines(terms, locales) && records[1..] == TermRecords(terms, locales);
    if terms == [] {
      assert PrintRecords(records[1..]) == "";
    } else {
      var first := TermFields(terms[0], locales);
      JoinedLinesAreRecords(first, terms[1..], locales);
      assert TermLines(terms, locales) == [PrintRecord(first)] + TermLines(terms[1..], locales);
      assert TermRecords(terms, locales) == [first] + TermRecords(terms[1..], locales);
    }
  }

  lemma {:induction false} PrintedRows(terms: seq<TermInput>, locales: seq<string>)
    requires AreColumns(locales)
    requires forall k :: 0 <= k < |terms| ==> ValidateInput(terms[k]).Some?
    ensures var text := PrintUnder(terms, locales);
            && Unmarked(text) == text
            && HaveFields(Rows(text), [Header(locales)] + TermRecords(terms, locales)) && Rows(text)[0].line == 1
  {
    hide IsLocale, PrintFields, IsBlank, TermFields, Rows, PrintRecords, ValidateInput;
    var records := [Header(locales)] + TermRecords(terms, locales);
    HeaderReads(locales);
    JoinedLinesAreRecords(Header(locales), terms, locales);
    TermRecordsAt(terms, locales);
    forall k | 0 <= k < |records| ensures records[k] != [] && !IsBlank(records[k]) {
      if k > 0 {
        WrittenTermIsNotBlank(terms[k - 1], locales);
      }
    }
    PrintedRowsReadBack(records);
    HeaderStarts(terms, locales);
  }

  lemma {:induction false} HeaderStarts(terms: seq<TermInput>, locales: seq<string>)
    ensures Unmarked(PrintUnder(terms, locales)) == PrintUnder(terms, locales)
  {
    var header := Header(locales);
    assert header[0] == "term" && |header| > 1;
    assert Join(header, ",")[0] == 't';
    assert PrintUnder(terms, locales)[0] == Join(header, ",")[0];
  }

  /** The terms the schema gives out for valid inputs. */
  function Normalised(terms: seq<TermInput>): seq<Term>
    requires forall k :: 0 <= k < |terms| ==> ValidateInput(terms[k]).Some?
  {
    seq(|terms|, k requires 0 <= k < |terms| => ValidateInput(terms[k]).value)
  }

  /** Reading a written glossary of valid terms gives exactly those terms and no problem, or, past 500 terms, only that problem. */
  lemma {:induction false} GlossaryRoundTrip(terms: seq<TermInput>)
    requires forall k :: 0 <= k < |terms| ==> ValidateInput(terms[k]).Some?
    ensures ParseGlossaryCsv(PrintGlossaryCsv(terms)) ==
            if |terms| <= TERMS_MAX then GlossaryFile(Normalised(terms), []) else OnlyProblem(1, TooManyTerms)
  {
    var locales := UsedLocales(terms, LOCALES);
    LocalesAreDistinct();
    UsedLocalesAre(terms, LOCALES);
    assert AreColumns(locales);
    forall k, name | 0 <= k < |terms| && name in TranslationsOf(terms[k]) ensures name in locales {
      assert ValidateInput(terms[k]).Some? && IsLocale(name);
      assert AnyTranslates(terms, name);
    }
    WrittenGlossaryReads(terms, locales);
  }

  lemma {:induction false} WrittenGlossaryReads(terms: seq<TermInput>, locales: seq<string>)
    requires AreColumns(locales)
    requires forall k :: 0 <= k < |terms| ==> ValidateInput(terms[k]).Some?
    requires forall k, name :: 0 <= k < |terms| && name in TranslationsOf(terms[k]) ==> name in locales
    ensures ParseGlossaryCsv(PrintUnder(terms, locales)) ==
            if |terms| <= TERMS_MAX then GlossaryFile(Normalised(terms), []) else OnlyProblem(1, TooManyTerms)
  {
    hide IsLocale, ValidateInput, TermFields, Rows, PrintUnder, HeaderProblem, ColumnNames, Header, ReadTerms;
    HeaderReads(locales);
    PrintedRows(terms, locales);
    TermRecordsAt(terms, locales);
    var rows := Rows(PrintUnder(terms, locales));
    assert rows[0].fields == Header(locales);
    assert HaveFields(rows[1..], TermRecords(terms, locales));
    TermsReadBack(terms, locales, rows[1..]);
    assert ReadTerms(Header(locales), rows[1..]).terms == Normalised(terms);
  }
}
