/**
 The CSV reader of the glossary importer: a character state machine, the row grammar it refines
 (section 2 of RFC 4180, read leniently), and the printing of fields that it undoes.
 */
module Csv {
  import opened Text

  /** A row and the line it starts on. */
  datatype Row = Row(line: nat, fields: seq<string>)

  /** White space and line terminators, as `String.prototype.trim` removes them. */
  predicate IsSpace(c: char) {
    || c in {'\t', '\n', '\r', ' ', '\U{000B}', '\U{000C}', '\U{00A0}', '\U{1680}', '\U{2028}', '\U{2029}', '\U{202F}', '\U{205F}', '\U{3000}', '\U{FEFF}'}
    || '\U{2000}' <= c <= '\U{200A}'
  }

  function TrimStart(s: string): (r: string)
    ensures r != "" ==> !IsSpace(r[0])
  {
    if s != "" && IsSpace(s[0]) then TrimStart(s[1..]) else s
  }

  function TrimEnd(s: string): (r: string)
    ensures r <= s
    ensures r != "" ==> !IsSpace(r[|r| - 1])
  {
    if s != "" && IsSpace(s[|s| - 1]) then TrimEnd(s[..|s| - 1]) else s
  }

  function Trim(s: string): string {
    TrimEnd(TrimStart(s))
  }

  ghost predicate AreSpaces(s: string) {
    forall k :: 0 <= k < |s| ==> IsSpace(s[k])
  }

  lemma {:induction false} TrimStartTakes(s: string) returns (head: string)
    ensures AreSpaces(head) && s == head + TrimStart(s)
  {
    head := "";
    if s != "" && IsSpace(s[0]) {
      var more := TrimStartTakes(s[1..]);
      hide IsSpace;
      head := [s[0]] + more;
      assert s == [s[0]] + s[1..];
    }
  }

  lemma {:induction false} TrimEndTakes(s: string) returns (tail: string)
    ensures AreSpaces(tail) && s == TrimEnd(s) + tail
  {
    tail := "";
    if s != "" && IsSpace(s[|s| - 1]) {
      var more := TrimEndTakes(s[..|s| - 1]);
      hide IsSpace;
      tail := more + [s[|s| - 1]];
      assert s == s[..|s| - 1] + [s[|s| - 1]];
    }
  }

  /** Trimming takes off spaces only, at the two ends, and leaves none there. */
  lemma {:induction false} TrimMeans(s: string) returns (head: string, tail: string)
    ensures AreSpaces(head) && AreSpaces(tail) && s == head + Trim(s) + tail
    ensures Trim(s) != "" ==> !IsSpace(Trim(s)[0]) && !IsSpace(Trim(s)[|Trim(s)| - 1])
  {
    head := TrimStartTakes(s);
    tail := TrimEndTakes(TrimStart(s));
  }

  lemma {:induction false} TrimTwice(s: string)
    ensures Trim(Trim(s)) == Trim(s)
  {
    var t := Trim(s);
    assert t != "" ==> t[0] == TrimStart(s)[0];
    assert TrimStart(t) == t && TrimEnd(t) == t;
  }

  predicate IsBlank(fields: seq<string>) {
    forall k :: 0 <= k < |fields| ==> Trim(fields[k]) == ""
  }

  function NonBlank(rows: seq<Row>): seq<Row> {
    if rows == [] then []
    else (if IsBlank(rows[0].fields) then [] else [rows[0]]) + NonBlank(rows[1..])
  }

  lemma {:induction false} NonBlankAppend(rows: seq<Row>, row: Row)
    ensures NonBlank(rows + [row]) == NonBlank(rows) + if IsBlank(row.fields) then [] else [row]
  {
    hide IsBlank;
    if rows == [] {
      assert rows + [row] == [row] && [row][1..] == [];
    } else {
      assert (rows + [row])[1..] == rows[1..] + [row];
      NonBlankAppend(rows[1..], row);
    }
  }

  predicate IsBreak(c: char) {
    c == '\r' || c == '\n'
  }

  // ----- The grammar -----

  /** What was read, what follows it, and how many quoted line feeds it holds. */
  datatype Lexed = Lexed(value: string, rest: string, lineFeeds: nat)
  datatype Record = Record(fields: seq<string>, rest: string, lineFeeds: nat)

  /** Text inside quotes, up to the closing quote or the end; a doubled quote is one quote. */
  function QuotedText(s: string): (r: Lexed)
    ensures |r.rest| <= |s|
  {
    if s == "" then Lexed("", "", 0)
    else if s[0] != '"' then
      var r := QuotedText(s[1..]);
      Lexed([s[0]] + r.value, r.rest, r.lineFeeds + if s[0] == '\n' then 1 else 0)
    else if |s| > 1 && s[1] == '"' then
      var r := QuotedText(s[2..]);
      Lexed("\"" + r.value, r.rest, r.lineFeeds)
    else Lexed("", s[1..], 0)
  }

  /** Text outside quotes, up to a comma or a line break. */
  function PlainText(s: string): (r: Lexed)
    ensures |r.rest| <= |s| && r.lineFeeds == 0
    ensures r.rest == "" || r.rest[0] == ',' || IsBreak(r.rest[0])
  {
    if s == "" || s[0] == ',' || IsBreak(s[0]) then Lexed("", s, 0)
    else
      var r := PlainText(s[1..]);
      Lexed([s[0]] + r.value, r.rest, 0)
  }

  /** A field: quoted text (a quote opens only while the field is empty), then plain text. */
  function Field(s: string): (r: Lexed)
    ensures |r.rest| <= |s|
    ensures r.rest == "" || r.rest[0] == ',' || IsBreak(r.rest[0])
    decreases |s|
  {
    if s == "" || s[0] != '"' then PlainText(s)
    else
      var quoted := QuotedText(s[1..]);
      if quoted.value == "" then Field(quoted.rest)
      else
        var plain := PlainText(quoted.rest);
        Lexed(quoted.value + plain.value, plain.rest, quoted.lineFeeds)
  }

  function ReadRecord(s: string): (r: Record)
    ensures |r.rest| <= |s|
    ensures r.rest == "" || IsBreak(r.rest[0])
    decreases |s|
  {
    var field := Field(s);
    if field.rest != "" && field.rest[0] == ',' then
      var more := ReadRecord(field.rest[1..]);
      Record([field.value] + more.fields, more.rest, field.lineFeeds + more.lineFeeds)
    else Record([field.value], field.rest, field.lineFeeds)
  }

  /** What follows a line break; CR LF is one break. */
  function AfterBreak(s: string): (r: string)
    requires s != ""
    ensures |r| < |s|
  {
    if |s| > 1 && s[0] == '\r' && s[1] == '\n' then s[2..] else s[1..]
  }

  /** The rows of a text whose first line is `line`, blank ones too. */
  function Records(s: string, line: nat): (rows: seq<Row>)
    ensures rows != []
    decreases |s|
  {
    var record := ReadRecord(s);
    var row := Row(line, record.fields);
    if record.rest == "" then [row] else [row] + Records(AfterBreak(record.rest), line + record.lineFeeds + 1)
  }

  /** The rows of a file. */
  function Rows(source: string): seq<Row> {
    NonBlank(Records(source, 1))
  }

  lemma {:induction false} AfterBreakIs(s: string)
    requires s != ""
    ensures AfterBreak(s) == s[if |s| > 1 && s[0] == '\r' && s[1] == '\n' then 2 else 1..]
  {
  }

  // ----- The state machine -----

  /** The rest of a field already begun. */
  function FieldFrom(field: string, isQuoted: bool, s: string): Lexed {
    if isQuoted then
      var quoted := QuotedText(s);
      var begun := field + quoted.value;
      var more := if begun == "" then Field(quoted.rest) else PlainText(quoted.rest);
      Lexed(begun + more.value, more.rest, quoted.lineFeeds + more.lineFeeds)
    else if field == "" then Field(s)
    else
      var plain := PlainText(s);
      Lexed(field + plain.value, plain.rest, 0)
  }

  /** The rest of a record already begun. */
  function RecordFrom(fields: seq<string>, field: string, isQuoted: bool, s: string): Record {
    var f := FieldFrom(field, isQuoted, s);
    if f.rest != "" && f.rest[0] == ',' then
      var more := ReadRecord(f.rest[1..]);
      Record(fields + [f.value] + more.fields, more.rest, f.lineFeeds + more.lineFeeds)
    else Record(fields + [f.value], f.rest, f.lineFeeds)
  }

  /** The rows still to come when the machine stands before `s`. */
  function RowsFrom(rowLine: nat, line: nat, fields: seq<string>, field: string, isQuoted: bool, s: string): seq<Row> {
    var record := RecordFrom(fields, field, isQuoted, s);
    var row := Row(rowLine, record.fields);
    if record.rest == "" then [row] else [row] + Records(AfterBreak(record.rest), line + record.lineFeeds + 1)
  }

  lemma {:induction false} FreshRecord(s: string)
    ensures RecordFrom([], "", false, s) == ReadRecord(s)
  {
    var f := Field(s);
    assert FieldFrom("", false, s) == f;
    if f.rest != "" && f.rest[0] == ',' {
      assert [] + [f.value] + ReadRecord(f.rest[1..]).fields == [f.value] + ReadRecord(f.rest[1..]).fields;
    } else {
      assert [] + [f.value] == [f.value];
    }
  }

  lemma {:induction false} FreshRowsAreRecords(s: string, line: nat)
    ensures RowsFrom(line, line, [], "", false, s) == Records(s, line)
  {
    FreshRecord(s);
  }

  lemma {:induction false} EndOfSource(rowLine: nat, line: nat, fields: seq<string>, field: string, isQuoted: bool)
    ensures RowsFrom(rowLine, line, fields, field, isQuoted, "") == [Row(rowLine, fields + [field])]
  {
    assert field + "" == field && field + "" + "" == field;
    assert Field("") == Lexed("", "", 0) && PlainText("") == Lexed("", "", 0) && QuotedText("") == Lexed("", "", 0);
    assert FieldFrom(field, isQuoted, "") == Lexed(field, "", 0);
  }

  /** Two states that finish their field alike finish their rows alike. */
  lemma {:induction false} SameFieldSameRows(rowLine: nat, line: nat, fields: seq<string>, field: string, isQuoted: bool, s: string,
                          line': nat, field': string, isQuoted': bool, s': string)
    requires var f, f' := FieldFrom(field, isQuoted, s), FieldFrom(field', isQuoted', s');
             f.value == f'.value && f.rest == f'.rest && line + f.lineFeeds == line' + f'.lineFeeds
    ensures RowsFrom(rowLine, line, fields, field, isQuoted, s) == RowsFrom(rowLine, line', fields, field', isQuoted', s')
  {
  }

  lemma {:induction false} QuotedStep(rowLine: nat, line: nat, fields: seq<string>, field: string, s: string)
    requires s != ""
    ensures RowsFrom(rowLine, line, fields, field, true, s) ==
            if s[0] != '"' then
              RowsFrom(rowLine, if s[0] == '\n' then line + 1 else line, fields, field + [s[0]], true, s[1..])
            else if |s| > 1 && s[1] == '"' then RowsFrom(rowLine, line, fields, field + "\"", true, s[2..])
            else RowsFrom(rowLine, line, fields, field, false, s[1..])
  {
    if s[0] != '"' {
      assert field + ([s[0]] + QuotedText(s[1..]).value) == field + [s[0]] + QuotedText(s[1..]).value;
      SameFieldSameRows(rowLine, line, fields, field, true, s,
                        if s[0] == '\n' then line + 1 else line, field + [s[0]], true, s[1..]);
    } else if |s| > 1 && s[1] == '"' {
      assert field + ("\"" + QuotedText(s[2..]).value) == field + "\"" + QuotedText(s[2..]).value;
      SameFieldSameRows(rowLine, line, fields, field, true, s, line, field + "\"", true, s[2..]);
    } else {
      assert field + "" == field;
      if field == "" { assert "" + Field(s[1..]).value == Field(s[1..]).value; }
      SameFieldSameRows(rowLine, line, fields, field, true, s, line, field, false, s[1..]);
    }
  }

  lemma {:induction false} PlainStep(rowLine: nat, line: nat, fields: seq<string>, field: string, s: string)
    requires s != ""
    ensures RowsFrom(rowLine, line, fields, field, false, s) ==
            if s[0] == '"' && field == "" then RowsFrom(rowLine, line, fields, field, true, s[1..])
            else if s[0] == ',' then RowsFrom(rowLine, line, fields + [field], "", false, s[1..])
            else if IsBreak(s[0]) then
              [Row(rowLine, fields + [field])] + RowsFrom(line + 1, line + 1, [], "", false, AfterBreak(s))
            else RowsFrom(rowLine, line, fields, field + [s[0]], false, s[1..])
  {
    if s[0] == '"' && field == "" {
      QuoteOpens(s);
      SameFieldSameRows(rowLine, line, fields, field, false, s, line, field, true, s[1..]);
    } else if s[0] == ',' || IsBreak(s[0]) {
      FieldEnds(field, s);
      if s[0] == ',' {
        CommaStarts(fields, field, s);
      } else {
        FreshRowsAreRecords(AfterBreak(s), line + 1);
      }
    } else {
      assert field + ([s[0]] + PlainText(s[1..]).value) == field + [s[0]] + PlainText(s[1..]).value;
      SameFieldSameRows(rowLine, line, fields, field, false, s, line, field + [s[0]], false, s[1..]);
    }
  }

  lemma {:induction false} QuoteOpens(s: string)
    requires s != "" && s[0] == '"'
    ensures FieldFrom("", false, s) == FieldFrom("", true, s[1..])
  {
    var q := QuotedText(s[1..]);
    assert "" + q.value == q.value;
    if q.value == "" {
      assert "" + Field(q.rest).value == Field(q.rest).value;
      EmptyQuoteHasNoLineFeed(s[1..]);
    }
  }

  lemma {:induction false} FieldEnds(field: string, s: string)
    requires s != "" && (s[0] == ',' || IsBreak(s[0]))
    ensures FieldFrom(field, false, s) == Lexed(field, s, 0)
  {
    assert field + "" == field;
  }

  lemma {:induction false} CommaStarts(fields: seq<string>, field: string, s: string)
    requires s != "" && s[0] == ',' && FieldFrom(field, false, s) == Lexed(field, s, 0)
    ensures RecordFrom(fields, field, false, s) == RecordFrom(fields + [field], "", false, s[1..])
  {
    var f, record := Field(s[1..]), ReadRecord(s[1..]);
    assert FieldFrom("", false, s[1..]) == f;
    if f.rest != "" && f.rest[0] == ',' {
      var more := ReadRecord(f.rest[1..]);
      assert fields + [field] + ([f.value] + more.fields) == fields + [field] + [f.value] + more.fields;
    }
  }

  class CsvReader {
    const source: string
    var rows: seq<Row>
    var fields: seq<string>
    var field: string
    var line: nat
    var rowLine: nat
    var isQuoted: bool
    /** Every row ended so far, blank ones too. */
    ghost var ended: seq<Row>

    constructor (source: string)
      ensures this.source == source && IsFresh()
    {
      this.source := source;
      rows, fields, field := [], [], "";
      line, rowLine, isQuoted := 1, 1, false;
      ended := [];
    }

    ghost predicate IsFresh()
      reads this
    {
      ended == [] && rows == [] && fields == [] && field == "" && line == 1 && rowLine == 1 && !isQuoted
    }

    /** The rows ended so far and those the rest of the source still holds. */
    ghost function Outcome(rest: string): seq<Row>
      reads this
    {
      ended + RowsFrom(rowLine, line, fields, field, isQuoted, rest)
    }

    method EndRow()
      requires rows == NonBlank(ended)
      modifies `rows, `fields, `field, `ended
      ensures ended == old(ended) + [Row(rowLine, old(fields) + [old(field)])]
      ensures rows == NonBlank(ended) && fields == [] && field == ""
    {
      fields := fields + [field];
      NonBlankAppend(ended, Row(rowLine, fields));
      ended := ended + [Row(rowLine, fields)];
      if exists k :: 0 <= k < |fields| && Trim(fields[k]) != "" {
        rows := rows + [Row(rowLine, fields)];
      }
      fields := [];
      field := "";
    }

    /** The step taken inside quotes. A doubled quote uses up two characters. */
    method Quoted(c: char, next: string) returns (consumed: nat)
      modifies `field, `isQuoted, `line
      ensures consumed == if c == '"' && next == "\"" then 2 else 1
      ensures isQuoted == (old(isQuoted) && (c != '"' || next == "\""))
      ensures field == old(field) + if c != '"' then [c] else if next == "\"" then "\"" else ""
      ensures line == old(line) + if c == '\n' then 1 else 0
    {
      if c == '"' {
        if next == "\"" {
          field := field + "\"";
          return 2;
        }
        isQuoted := false;
        return 1;
      }
      if c == '\n' {
        line := line + 1;
      }
      field := field + [c];
      return 1;
    }

    /** The step taken outside quotes. CR LF uses up two characters. */
    method Plain(c: char, next: string) returns (consumed: nat)
      requires rows == NonBlank(ended)
      modifies this
      ensures consumed == if c == '\r' && next == "\n" then 2 else 1
      ensures isQuoted == (old(isQuoted) || (c == '"' && old(field) == ""))
      ensures rows == NonBlank(ended)
      ensures if IsBreak(c) then
                && ended == old(ended) + [Row(old(rowLine), old(fields) + [old(field)])]
                && fields == [] && field == "" && line == rowLine == old(line) + 1
              else
                && ended == old(ended) && line == old(line) && rowLine == old(rowLine)
                && fields == (if c == ',' then old(fields) + [old(field)] else old(fields))
                && field == (if c == ',' || (c == '"' && old(field) == "") then "" else old(field) + [c])
    {
      if c == '"' && field == "" {
        isQuoted := true;
      } else if c == ',' {
        fields := fields + [field];
        field := "";
      } else if c == '\n' || c == '\r' {
        EndRow();
        line := line + 1;
        rowLine := line;
        return if c == '\r' && next == "\n" then 2 else 1;
      } else {
        field := field + [c];
      }
      return 1;
    }

    /** One turn of the loop: the character at `i`, and the one it may look at. */
    method Advance(i: nat) returns (consumed: nat)
      requires i < |source| && rows == NonBlank(ended)
      modifies this
      ensures rows == NonBlank(ended)
      ensures 1 <= consumed <= |source| - i && Outcome(source[i + consumed..]) == old(Outcome(source[i..]))
    {
      hide RowsFrom, AfterBreak;
      var next := if i + 1 < |source| then [source[i + 1]] else "";
      ghost var s := source[i..];
      assert s[1..] == source[i + 1..];
      assert |s| > 1 ==> s[2..] == source[i + 2..];
      assert AfterBreak(s) == source[i + (if source[i] == '\r' && next == "\n" then 2 else 1)..] by {
        AfterBreakIs(s);
      }
      if isQuoted {
        QuotedStep(rowLine, line, fields, field, s);
        assert field + "" == field;
        consumed := Quoted(source[i], next);
      } else {
        PlainStep(rowLine, line, fields, field, s);
        ghost var row, later := Row(rowLine, fields + [field]), RowsFrom(line + 1, line + 1, [], "", false, AfterBreak(s));
        assert ended + ([row] + later) == ended + [row] + later;
        consumed := Plain(source[i], next);
      }
    }

    /** The machine reads exactly the rows of the grammar. */
    method Read() returns (result: seq<Row>)
      requires IsFresh()
      modifies this
      ensures result == Rows(source)
    {
      hide RowsFrom, Records;
      FreshRowsAreRecords(source, 1);
      assert source[0..] == source;
      ghost var all := Records(source, 1);
      assert ended + all == all;
      var i := 0;
      while i < |source|
        invariant 0 <= i <= |source|
        invariant rows == NonBlank(ended) && Outcome(source[i..]) == all
      {
        var consumed := Advance(i);
        i := i + consumed;
      }
      EndOfSource(rowLine, line, fields, field, isQuoted);
      assert source[i..] == "";
      EndRow();
      result := rows;
    }
  }

  // ----- Line numbers -----

  function CountLineFeeds(s: string): nat {
    if s == "" then 0 else (if s[0] == '\n' then 1 else 0) + CountLineFeeds(s[1..])
  }

  lemma {:induction false} CountLineFeedsConcat(s: string, t: string)
    ensures CountLineFeeds(s + t) == CountLineFeeds(s) + CountLineFeeds(t)
  {
    if s == "" {
      assert s + t == t;
    } else {
      assert (s + t)[1..] == s[1..] + t;
      CountLineFeedsConcat(s[1..], t);
    }
  }

  lemma {:induction false} QuotedLineFeeds(s: string)
    ensures CountLineFeeds(s) == QuotedText(s).lineFeeds + CountLineFeeds(QuotedText(s).rest)
  {
    if s != "" {
      if s[0] != '"' {
        QuotedLineFeeds(s[1..]);
      } else if |s| > 1 && s[1] == '"' {
        QuotedLineFeeds(s[2..]);
        assert s[1..][1..] == s[2..];
      }
    }
  }

  lemma {:induction false} PlainLineFeeds(s: string)
    ensures CountLineFeeds(s) == CountLineFeeds(PlainText(s).rest)
  {
    if s != "" && s[0] != ',' && !IsBreak(s[0]) {
      PlainLineFeeds(s[1..]);
    }
  }

  lemma {:induction false} FieldLineFeeds(s: string)
    ensures CountLineFeeds(s) == Field(s).lineFeeds + CountLineFeeds(Field(s).rest)
    decreases |s|
  {
    if s == "" || s[0] != '"' {
      PlainLineFeeds(s);
    } else {
      QuotedLineFeeds(s[1..]);
      var q := QuotedText(s[1..]);
      if q.value == "" {
        EmptyQuoteHasNoLineFeed(s[1..]);
        FieldLineFeeds(q.rest);
      } else {
        PlainLineFeeds(q.rest);
      }
    }
  }

  lemma {:induction false} EmptyQuoteHasNoLineFeed(s: string)
    requires QuotedText(s).value == ""
    ensures QuotedText(s).lineFeeds == 0
  {
  }

  lemma {:induction false} RecordLineFeeds(s: string)
    ensures CountLineFeeds(s) == ReadRecord(s).lineFeeds + CountLineFeeds(ReadRecord(s).rest)
    decreases |s|
  {
    FieldLineFeeds(s);
    var f := Field(s);
    if f.rest != "" && f.rest[0] == ',' {
      RecordLineFeeds(f.rest[1..]);
    }
  }

  /** Every CR is the first half of a CR LF. */
  predicate PairedReturns(s: string) {
    forall i :: 0 <= i < |s| && s[i] == '\r' ==> i + 1 < |s| && s[i + 1] == '\n'
  }

  lemma {:induction false} QuotedConsumes(s: string) returns (read: string)
    ensures s == read + QuotedText(s).rest
  {
    if s == "" {
      read := "";
    } else if s[0] != '"' {
      var more := QuotedConsumes(s[1..]);
      read := [s[0]] + more;
    } else if |s| > 1 && s[1] == '"' {
      var more := QuotedConsumes(s[2..]);
      read := s[..2] + more;
    } else {
      read := s[..1];
    }
  }

  lemma {:induction false} PlainConsumes(s: string) returns (read: string)
    ensures s == read + PlainText(s).rest
  {
    if s == "" || s[0] == ',' || IsBreak(s[0]) {
      read := "";
    } else {
      var more := PlainConsumes(s[1..]);
      read := [s[0]] + more;
    }
  }

  lemma {:induction false} FieldConsumes(s: string) returns (read: string)
    ensures s == read + Field(s).rest
    decreases |s|
  {
    if s == "" || s[0] != '"' {
      read := PlainConsumes(s);
    } else {
      var quoted := QuotedConsumes(s[1..]);
      var q := QuotedText(s[1..]);
      var more: string;
      if q.value == "" {
        more := FieldConsumes(q.rest);
      } else {
        more := PlainConsumes(q.rest);
      }
      read := s[..1] + quoted + more;
    }
  }

  lemma {:induction false} RecordConsumes(s: string) returns (read: string)
    ensures s == read + ReadRecord(s).rest
    decreases |s|
  {
    read := FieldConsumes(s);
    var f := Field(s);
    if f.rest != "" && f.rest[0] == ',' {
      var more := RecordConsumes(f.rest[1..]);
      read := read + "," + more;
    }
  }

  lemma {:induction false} PairsPersist(read: string, rest: string)
    requires PairedReturns(read + rest)
    ensures PairedReturns(rest)
  {
    forall i | 0 <= i < |rest| && rest[i] == '\r' ensures i + 1 < |rest| && rest[i + 1] == '\n' {
      assert (read + rest)[|read| + i] == '\r';
      assert (read + rest)[|read| + i + 1] == '\n';
    }
  }

  /** The break after a record holds exactly one line feed when returns are paired. */
  lemma {:induction false} BreakHasOneLineFeed(s: string)
    requires s != "" && IsBreak(s[0]) && PairedReturns(s)
    ensures CountLineFeeds(s) == 1 + CountLineFeeds(AfterBreak(s))
    ensures s == s[..|s| - |AfterBreak(s)|] + AfterBreak(s)
  {
    if s[0] == '\r' {
      assert s[1..][1..] == s[2..];
    }
  }

  /** A record that is not the last, with its line break, is some text with one line feed more than the record quotes. */
  lemma {:induction false} RecordAndBreak(s: string) returns (ended: string)
    requires PairedReturns(s) && ReadRecord(s).rest != ""
    ensures var record := ReadRecord(s);
            && s == ended + AfterBreak(record.rest) && PairedReturns(AfterBreak(record.rest))
            && CountLineFeeds(ended) == record.lineFeeds + 1
  {
    var rest := ReadRecord(s).rest;
    var read := RecordConsumes(s);
    PairsPersist(read, rest);
    BreakHasOneLineFeed(rest);
    var after := AfterBreak(rest);
    ended := read + rest[..|rest| - |after|];
    assert s == ended + after;
    PairsPersist(ended, after);
    RecordLineFeeds(s);
    CountLineFeedsConcat(ended, after);
  }

  /** The text from where row `k` starts: past the `k` records before it and the line break that ends each. */
  function RowStart(s: string, k: nat): (start: string)
    ensures |start| <= |s|
    decreases k
  {
    var rest := ReadRecord(s).rest;
    if k == 0 then s else if rest == "" then "" else RowStart(AfterBreak(rest), k - 1)
  }

  /** The line breaks before row `k`: the one that ends each earlier row (CR LF being one), and the line feeds in the text of each earlier row. */
  function BreaksBefore(s: string, k: nat): nat
    decreases k
  {
    var rest := ReadRecord(s).rest;
    if k == 0 || rest == "" then 0
    else CountLineFeeds(s[..|s| - |rest|]) + 1 + BreaksBefore(AfterBreak(rest), k - 1)
  }

  /** The line feeds a record counts are those of its text. */
  lemma {:induction false} RecordTextLineFeeds(s: string)
    ensures CountLineFeeds(s[..|s| - |ReadRecord(s).rest|]) == ReadRecord(s).lineFeeds
  {
    var rest := ReadRecord(s).rest;
    var read := RecordConsumes(s);
    assert s[..|s| - |rest|] == read;
    RecordLineFeeds(s);
    CountLineFeedsConcat(read, rest);
  }

  lemma {:induction false} NextRow(s: string, line: nat, k: nat)
    requires 0 < k < |Records(s, line)|
    ensures var record := ReadRecord(s);
            && record.rest != ""
            && var after, next := AfterBreak(record.rest), line + record.lineFeeds + 1;
               && k - 1 < |Records(after, next)| && Records(s, line)[k] == Records(after, next)[k - 1]
               && RowStart(s, k) == RowStart(after, k - 1)
               && BreaksBefore(s, k) == record.lineFeeds + 1 + BreaksBefore(after, k - 1)
  {
    RecordTextLineFeeds(s);
    hide ReadRecord, CountLineFeeds;
  }

  lemma {:induction false} RowsCountBreaks(s: string, line: nat, k: nat)
    requires k < |Records(s, line)|
    ensures Records(s, line)[k] == Row(line + BreaksBefore(s, k), ReadRecord(RowStart(s, k)).fields)
    decreases |s|
  {
    hide ReadRecord, CountLineFeeds;
    if k > 0 {
      hide *;
      NextRow(s, line, k);
      RowsCountBreaks(AfterBreak(ReadRecord(s).rest), line + ReadRecord(s).lineFeeds + 1, k - 1);
    }
  }

  /** In every file, row `k` is the record that starts there, on line 1 plus the line breaks before it, quoted line feeds included. */
  lemma {:induction false} LinesCountBreaks(source: string, k: nat)
    requires k < |Records(source, 1)|
    ensures Records(source, 1)[k] == Row(1 + BreaksBefore(source, k), ReadRecord(RowStart(source, k)).fields)
  {
    RowsCountBreaks(source, 1, k);
  }

  lemma {:induction false} BreaksAreLineFeeds(s: string, line: nat, k: nat) returns (before: string)
    requires PairedReturns(s) && k < |Records(s, line)|
    ensures s == before + RowStart(s, k) && CountLineFeeds(before) == BreaksBefore(s, k)
    decreases |s|
  {
    hide ReadRecord, PairedReturns;
    if k == 0 {
      return "";
    }
    hide *;
    NextRow(s, line, k);
    var ended := RecordAndBreak(s);
    var after := AfterBreak(ReadRecord(s).rest);
    var more := BreaksAreLineFeeds(after, line + ReadRecord(s).lineFeeds + 1, k - 1);
    CountLineFeedsConcat(ended, more);
    before := ended + more;
  }

  /** With CR LF or LF line ends, a row's line is the one an editor shows: 1 plus the line feeds before the row's start, quoted or not. */
  lemma {:induction false} LinesAreEditorLines(source: string, k: nat)
    requires PairedReturns(source) && k < |Records(source, 1)|
    ensures var start := RowStart(source, k);
            var before := source[..|source| - |start|];
            source == before + start && Records(source, 1)[k] == Row(1 + CountLineFeeds(before), ReadRecord(start).fields)
  {
    LinesCountBreaks(source, k);
    var before := BreaksAreLineFeeds(source, 1, k);
    assert source[..|source| - |RowStart(source, k)|] == before;
  }

  // ----- Printing -----

  predicate NeedsQuotes(value: string) {
    exists i :: 0 <= i < |value| && (value[i] in {'"', ',', '\r', '\n'})
  }

  function DoubleQuotes(value: string): string {
    if value == "" then "" else (if value[0] == '"' then "\"\"" else [value[0]]) + DoubleQuotes(value[1..])
  }

  function PrintField(value: string): string {
    if NeedsQuotes(value) then "\"" + DoubleQuotes(value) + "\"" else value
  }

  function PrintFields(fields: seq<string>): seq<string> {
    if fields == [] then [] else [PrintField(fields[0])] + PrintFields(fields[1..])
  }

  function PrintRecord(fields: seq<string>): string {
    Join(PrintFields(fields), ",")
  }

  lemma {:induction false} QuotedReadsBack(value: string, rest: string)
    requires rest == "" || rest[0] != '"'
    ensures QuotedText(DoubleQuotes(value) + "\"" + rest) == Lexed(value, rest, CountLineFeeds(value))
  {
    var s := DoubleQuotes(value) + "\"" + rest;
    if value == "" {
      assert s[1..] == rest;
    } else {
      QuotedReadsBack(value[1..], rest);
      var tail := DoubleQuotes(value[1..]) + "\"" + rest;
      assert DoubleQuotes(value) == (if value[0] == '"' then "\"\"" else [value[0]]) + DoubleQuotes(value[1..]);
      if value[0] == '"' {
        assert s == "\"\"" + tail && s[2..] == tail;
      } else {
        assert s == [value[0]] + tail && s[1..] == tail;
      }
      assert value == [value[0]] + value[1..];
    }
  }

  lemma {:induction false} PlainReadsBack(value: string, rest: string)
    requires !NeedsQuotes(value) && (rest == "" || rest[0] == ',' || IsBreak(rest[0]))
    ensures PlainText(value + rest) == Lexed(value, rest, 0)
  {
    if value == "" {
      assert value + rest == rest;
    } else {
      assert (value + rest)[1..] == value[1..] + rest;
      assert (value + rest)[0] == value[0] && value[0] !in {'"', ',', '\r', '\n'};
      forall i | 0 <= i < |value[1..]| ensures value[1..][i] !in {'"', ',', '\r', '\n'} {
        assert value[i + 1] == value[1..][i];
      }
      PlainReadsBack(value[1..], rest);
      assert value == [value[0]] + value[1..];
    }
  }

  /** Quotes inside a field that does not start with one are text like any other. */
  lemma {:induction false} InnerQuotesAreText(value: string, rest: string)
    requires value != "" && value[0] != '"' && (forall i :: 0 <= i < |value| ==> value[i] != ',' && !IsBreak(value[i]))
    requires rest == "" || rest[0] == ',' || IsBreak(rest[0])
    ensures Field(value + rest) == Lexed(value, rest, 0)
  {
    TextReads(value, rest);
    assert (value + rest)[0] == value[0];
  }

  lemma {:induction false} TextReads(value: string, rest: string)
    requires forall i :: 0 <= i < |value| ==> value[i] != ',' && !IsBreak(value[i])
    requires rest == "" || rest[0] == ',' || IsBreak(rest[0])
    ensures PlainText(value + rest) == Lexed(value, rest, 0)
  {
    if value == "" {
      assert value + rest == rest;
    } else {
      assert (value + rest)[1..] == value[1..] + rest;
      TextReads(value[1..], rest);
      assert value == [value[0]] + value[1..];
    }
  }

  lemma {:induction false} QuotedFieldEnds(text: string, value: string, rest: string)
    requires QuotedText(text).value == value && QuotedText(text).rest == rest
    requires value != "" && (rest == "" || rest[0] == ',' || IsBreak(rest[0]))
    ensures Field("\"" + text).value == value && Field("\"" + text).rest == rest
  {
    assert ("\"" + text)[1..] == text;
    assert PlainText(rest) == Lexed("", rest, 0);
    assert value + "" == value;
  }

  lemma {:induction false} PlainFieldReadsBack(value: string, rest: string)
    requires !NeedsQuotes(value) && (rest == "" || rest[0] == ',' || IsBreak(rest[0]))
    ensures Field(value + rest) == Lexed(value, rest, 0)
  {
    PlainReadsBack(value, rest);
    if value != "" {
      assert (value + rest)[0] == value[0] && value[0] !in {'"', ',', '\r', '\n'};
    } else {
      assert value + rest == rest;
    }
  }

  /** Reading a printed field gives its value back, whatever characters it holds. */
  lemma {:induction false} FieldReadsBack(value: string, rest: string)
    requires rest == "" || rest[0] == ',' || IsBreak(rest[0])
    ensures var f := Field(PrintField(value) + rest); f.value == value && f.rest == rest
  {
    hide Field, QuotedText, DoubleQuotes;
    if NeedsQuotes(value) {
      QuotedReadsBack(value, rest);
      var text := DoubleQuotes(value) + "\"" + rest;
      QuotedFieldEnds(text, value, rest);
      assert PrintField(value) + rest == "\"" + text;
    } else {
      PlainFieldReadsBack(value, rest);
    }
  }

  /** Reading a printed record gives its fields back. */
  lemma {:induction false} RecordReadsBack(fields: seq<string>, rest: string)
    requires fields != [] && (rest == "" || IsBreak(rest[0]))
    ensures ReadRecord(PrintRecord(fields) + rest).fields == fields && ReadRecord(PrintRecord(fields) + rest).rest == rest
  {
    var s := PrintRecord(fields) + rest;
    var printed := PrintFields(fields);
    assert printed[1..] == PrintFields(fields[1..]);
    if |fields| == 1 {
      assert PrintFields(fields[1..]) == [];
      FieldReadsBack(fields[0], rest);
    } else {
      assert |printed| > 1 by { assert PrintFields(fields[1..]) != []; }
      var tail := PrintRecord(fields[1..]) + rest;
      assert s == PrintField(fields[0]) + ("," + tail);
      FieldReadsBack(fields[0], "," + tail);
      assert ("," + tail)[1..] == tail;
      RecordReadsBack(fields[1..], rest);
    }
  }

  /** Records, each ended by CR LF. */
  function PrintRecords(records: seq<seq<string>>): string {
    if records == [] then "" else PrintRecord(records[0]) + "\r\n" + PrintRecords(records[1..])
  }

  predicate HaveFields(rows: seq<Row>, records: seq<seq<string>>) {
    |rows| == |records| && forall k :: 0 <= k < |rows| ==> rows[k].fields == records[k]
  }

  lemma {:induction false} LineReadsBack(fields: seq<string>, tail: string)
    requires fields != []
    ensures var record := ReadRecord(PrintRecord(fields) + "\r\n" + tail);
            record.fields == fields && record.rest != "" && AfterBreak(record.rest) == tail
  {
    RecordReadsBack(fields, "\r\n" + tail);
    assert PrintRecord(fields) + "\r\n" + tail == PrintRecord(fields) + ("\r\n" + tail);
  }

  /** Printed records read back as they were, with one blank row for the end of the last line. */
  lemma {:induction false} RecordsReadBack(records: seq<seq<string>>, line: nat)
    requires forall k :: 0 <= k < |records| ==> records[k] != []
    ensures HaveFields(Records(PrintRecords(records), line), records + [[""]])
  {
    if records == [] {
      assert ReadRecord("") == Record([""], "", 0);
    } else {
      var s, tail := PrintRecords(records), PrintRecords(records[1..]);
      LineReadsBack(records[0], tail);
      var next := line + ReadRecord(s).lineFeeds + 1;
      RecordsReadBack(records[1..], next);
      assert Records(s, line) == [Row(line, records[0])] + Records(tail, next);
    }
  }

  lemma {:induction false} NonBlankKeepsAll(rows: seq<Row>)
    requires forall k :: 0 <= k < |rows| ==> !IsBlank(rows[k].fields)
    ensures NonBlank(rows) == rows
  {
    if rows != [] {
      NonBlankKeepsAll(rows[1..]);
    }
  }

  lemma {:induction false} LastBlankIsDropped(rows: seq<Row>, records: seq<seq<string>>)
    requires forall k :: 0 <= k < |records| ==> !IsBlank(records[k])
    requires HaveFields(rows, records + [[""]])
    ensures HaveFields(NonBlank(rows), records) && NonBlank(rows) <= rows
  {
    var n := |records|;
    assert rows == rows[..n] + [rows[n]];
    assert rows[n].fields == [""] && Trim("") == "";
    NonBlankAppend(rows[..n], rows[n]);
    NonBlankKeepsAll(rows[..n]);
  }

  /** Printed records, none of them blank, are the rows of their file. */
  lemma {:induction false} PrintedRowsReadBack(records: seq<seq<string>>)
    requires forall k :: 0 <= k < |records| ==> records[k] != [] && !IsBlank(records[k])
    ensures HaveFields(Rows(PrintRecords(records)), records)
    ensures records != [] ==> Rows(PrintRecords(records))[0].line == 1
  {
    RecordsReadBack(records, 1);
    LastBlankIsDropped(Records(PrintRecords(records), 1), records);
  }
}
