/**
 The Server-Sent Events reader: chunks of a decoded stream in, events out, and the blocks of the whole
 text it amounts to (section 9.2.6 of the HTML Standard).
 */
module Sse {
  import opened Text

  datatype Event = Event(id: Option<string>, event: string, data: string)
  datatype Fields = Fields(id: Option<string>, event: Option<string>, data: seq<string>)

  // ----- One block -----

  predicate StartsWith(s: string, c: char) {
    s != "" && s[0] == c
  }

  /** What one line adds to the event under construction. */
  function WithLine(fields: Fields, line: string): Fields {
    if line == "" || line[0] == ':' then fields
    else
      var colon := IndexOf(line, ':');
      var name := line[..colon];
      var raw := if colon == |line| then "" else line[colon + 1..];
      var value := if StartsWith(raw, ' ') then raw[1..] else raw;
      if name == "data" then fields.(data := fields.data + [value])
      else if name == "id" then fields.(id := Some(value))
      else if name == "event" then fields.(event := Some(value))
      else fields
  }

  function WithLines(fields: Fields, lines: seq<string>): Fields
    decreases |lines|
  {
    if lines == [] then fields else WithLines(WithLine(fields, lines[0]), lines[1..])
  }

  /** The event of a block; blocks without data have none. */
  function ParseBlock(block: string): Option<Event> {
    var fields := WithLines(Fields(None, None, []), Split(block, '\n'));
    if fields.data == [] then None
    else Some(Event(fields.id, if fields.event.None? then "message" else fields.event.value, Join(fields.data, "\n")))
  }

  function Events(blocks: seq<string>): seq<Event> {
    if blocks == [] then []
    else
      var first := ParseBlock(blocks[0]);
      (if first.None? then [] else [first.value]) + Events(blocks[1..])
  }

  /** Where a value goes: data lines collect, an id or event name replaces the one before, and any other name is skipped. */
  ghost predicate Stores(before: Fields, name: string, value: string, after: Fields) {
    match name
    case "data" => after == Fields(before.id, before.event, before.data + [value])
    case "id" => after == Fields(Some(value), before.event, before.data)
    case "event" => after == Fields(before.id, Some(value), before.data)
    case _ => after == before
  }

  function Unspaced(raw: string): string {
    if StartsWith(raw, ' ') then raw[1..] else raw
  }

  lemma {:induction false} NamedLineStores(fields: Fields, name: string, raw: string)
    requires ':' !in name && name != ""
    ensures Stores(fields, name, Unspaced(raw), WithLine(fields, name + ":" + raw))
    ensures Stores(fields, name, "", WithLine(fields, name))
  {
    assert name[0] in name;
    LineCuts(name, raw);
    NameAlone(name);
  }

  /** A line is a name, and after a colon and at most one space its value; without a colon the value is empty, and a line that starts with a colon is skipped. */
  lemma {:induction false} LineMeans(fields: Fields, name: string, value: string)
    requires ':' !in name
    ensures name != "" ==> Stores(fields, name, value, WithLine(fields, name + ": " + value))
    ensures name != "" && !StartsWith(value, ' ') ==> Stores(fields, name, value, WithLine(fields, name + ":" + value))
    ensures name != "" ==> Stores(fields, name, "", WithLine(fields, name))
    ensures WithLine(fields, ":" + value) == fields && WithLine(fields, "") == fields
  {
    CommentIsSkipped(fields, value);
    if name != "" {
      hide WithLine, Stores;
      NamedLineStores(fields, name, " " + value);
      NamedLineStores(fields, name, value);
      assert name + ": " + value == name + ":" + (" " + value) && (" " + value)[1..] == value;
    }
  }

  predicate IsDataLine(line: string) {
    line == "data" || "data:" <= line
  }

  /** A block has an event exactly when one of its lines is a data line, an empty one included. */
  lemma {:induction false} DataMakesAnEvent(block: string)
    ensures ParseBlock(block).Some? <==> exists line :: line in Split(block, '\n') && IsDataLine(line)
  {
    DataIsCollected(Fields(None, None, []), Split(block, '\n'));
  }

  lemma {:induction false} DataIsCollected(fields: Fields, lines: seq<string>)
    ensures WithLines(fields, lines).data != [] <==> fields.data != [] || exists line :: line in lines && IsDataLine(line)
    decreases |lines|
  {
    if lines != [] {
      OneLineCollects(fields, lines[0]);
      hide WithLine, IsDataLine;
      DataIsCollected(WithLine(fields, lines[0]), lines[1..]);
      assert forall line :: line in lines <==> line == lines[0] || line in lines[1..];
    }
  }

  lemma {:induction false} OneLineCollects(fields: Fields, line: string)
    ensures WithLine(fields, line).data != [] <==> fields.data != [] || IsDataLine(line)
  {
    if IsDataLine(line) {
      var colon := IndexOf(line, ':');
      if line != "data" {
        assert line[4] == ':';
        assert forall k :: 0 <= k < 4 ==> line[k] == "data"[k];
        assert colon == 4 && line[..colon] == "data";
      } else {
        assert forall k :: 0 <= k < 4 ==> line[k] != ':';
      }
    }
  }

  lemma {:induction false} CommentIsSkipped(fields: Fields, value: string)
    ensures WithLine(fields, ":" + value) == fields && WithLine(fields, "") == fields
  {
  }

  lemma {:induction false} LineCuts(name: string, raw: string)
    requires ':' !in name
    ensures var line := name + ":" + raw;
            IndexOf(line, ':') == |name| < |line| && line[..|name|] == name && line[|name| + 1..] == raw
  {
    IndexOfAfter(name, ':', raw);
    assert name + [':'] + raw == name + ":" + raw;
  }

  lemma {:induction false} NameAlone(name: string)
    requires ':' !in name
    ensures IndexOf(name, ':') == |name| && name[..|name|] == name
  {
  }

  // ----- The stream -----

  predicate IsPair(s: string) {
    |s| > 1 && s[0] == '\r' && s[1] == '\n'
  }

  /** `replaceAll('\r\n', '\n')` */
  function Normalise(s: string): string {
    if s == "" then ""
    else if IsPair(s) then "\n" + Normalise(s[2..])
    else [s[0]] + Normalise(s[1..])
  }

  predicate IsBreak(s: string) {
    |s| > 1 && s[0] == '\n' && s[1] == '\n'
  }

  /** `split('\n\n')` */
  function SplitBlocks(s: string): (blocks: seq<string>)
    ensures |blocks| > 0
  {
    if s == "" then [""]
    else if IsBreak(s) then [""] + SplitBlocks(s[2..])
    else
      var rest := SplitBlocks(s[1..]);
      [[s[0]] + rest[0]] + rest[1..]
  }

  /** The blocks that are complete: all but the last. */
  function CompleteBlocks(s: string): seq<string> {
    SplitBlocks(s)[..|SplitBlocks(s)| - 1]
  }

  function Unfinished(s: string): string {
    SplitBlocks(s)[|SplitBlocks(s)| - 1]
  }

  /** The text the reader works on: each chunk normalised by itself. */
  function Received(chunks: seq<string>): string {
    if chunks == [] then "" else Normalise(chunks[0]) + Received(chunks[1..])
  }

  function Concat(chunks: seq<string>): string {
    if chunks == [] then "" else chunks[0] + Concat(chunks[1..])
  }

  /** The events of a whole text: every complete block, the unfinished last one left out. */
  function EventsOf(text: string): seq<Event> {
    Events(CompleteBlocks(Normalise(text)))
  }

  lemma {:induction false} OneBlockIsTheText(s: string)
    requires |SplitBlocks(s)| == 1
    ensures SplitBlocks(s) == [s]
  {
    if s != "" {
      OneBlockIsTheText(s[1..]);
      assert s == [s[0]] + s[1..];
    }
  }

  lemma {:induction false} SplitStep(s: string)
    requires s != ""
    ensures IsBreak(s) ==> SplitBlocks(s) == [""] + SplitBlocks(s[2..])
    ensures !IsBreak(s) ==> SplitBlocks(s) == [[s[0]] + SplitBlocks(s[1..])[0]] + SplitBlocks(s[1..])[1..]
  {
  }

  /** Splitting may go on from the unfinished block: what was complete stays complete. */
  lemma {:induction false} SplitGoesOn(a: string, b: string)
    ensures SplitBlocks(a + b) == CompleteBlocks(a) + SplitBlocks(Unfinished(a) + b)
  {
    hide SplitBlocks;
    if |SplitBlocks(a)| == 1 {
      OneBlockIsTheText(a);
    } else if a == "" {
      NothingIsOneBlock();
    } else if IsBreak(a) {
      var rest := a[2..];
      SplitGoesOn(rest, b);
      SplitStep(a);
      SplitStep(a + b);
      assert (a + b)[2..] == rest + b;
      assert CompleteBlocks(a) == [""] + CompleteBlocks(rest);
    } else {
      var rest := a[1..];
      SplitStep(a);
      NothingIsOneBlock();
      assert rest != "";
      SplitGoesOn(rest, b);
      SplitStep(a + b);
      assert (a + b)[1..] == rest + b;
      var blocks, joined := SplitBlocks(rest), SplitBlocks(rest + b);
      assert Unfinished(a) == Unfinished(rest);
      assert CompleteBlocks(a) == [[a[0]] + blocks[0]] + CompleteBlocks(rest)[1..];
      assert joined == CompleteBlocks(rest) + SplitBlocks(Unfinished(rest) + b);
      assert joined[0] == blocks[0] && joined[1..] == CompleteBlocks(rest)[1..] + SplitBlocks(Unfinished(rest) + b);
    }
  }

  lemma NothingIsOneBlock()
    ensures SplitBlocks("") == [""]
  {
  }

  lemma {:induction false} EventsAppend(a: seq<string>, b: seq<string>)
    ensures Events(a + b) == Events(a) + Events(b)
  {
    if a == [] {
      assert a + b == b;
    } else {
      assert (a + b)[1..] == a[1..] + b;
      EventsAppend(a[1..], b);
    }
  }

  lemma {:induction false} ReceivedAppend(chunks: seq<string>, chunk: string)
    ensures Received(chunks + [chunk]) == Received(chunks) + Normalise(chunk)
  {
    if chunks == [] {
      assert chunks + [chunk] == [chunk] && [chunk][1..] == [];
    } else {
      assert (chunks + [chunk])[1..] == chunks[1..] + [chunk];
      ReceivedAppend(chunks[1..], chunk);
    }
  }

  /** The reader: a buffer of unfinished text, and the events of each completed block as they come. */
  method ReadServerSentEvents(chunks: seq<string>) returns (events: seq<Event>)
    ensures events == Events(CompleteBlocks(Received(chunks)))
    ensures CleanCuts(chunks) ==> events == EventsOf(Concat(chunks))
  {
    hide SplitBlocks, Normalise;
    events := [];
    var buffer := "";
    assert chunks[..0] == [];
    NothingIsOneBlock();
    for i := 0 to |chunks|
      invariant buffer == Unfinished(Received(chunks[..i]))
      invariant events == Events(CompleteBlocks(Received(chunks[..i])))
    {
      ghost var before := Received(chunks[..i]);
      var chunk := Normalise(chunks[i]);
      assert chunks[..i + 1] == chunks[..i] + [chunks[i]];
      ReceivedAppend(chunks[..i], chunks[i]);
      SplitGoesOn(before, chunk);
      buffer := buffer + chunk;
      var blocks := SplitBlocks(buffer);
      assert CompleteBlocks(before + chunk) == CompleteBlocks(before) + blocks[..|blocks| - 1];
      EventsAppend(CompleteBlocks(before), blocks[..|blocks| - 1]);
      buffer := blocks[|blocks| - 1];
      events := events + Events(blocks[..|blocks| - 1]);
    }
    assert chunks[..|chunks|] == chunks;
    CutsAreCleanIff(chunks);
  }

  // ----- Where a stream may be cut -----

  /** The cut between `a` and `b` falls inside a CR LF pair. */
  predicate SplitsPair(a: string, b: string) {
    a != "" && a[|a| - 1] == '\r' && StartsWith(b, '\n')
  }

  predicate CleanCuts(chunks: seq<string>) {
    chunks == [] || (!SplitsPair(chunks[0], Concat(chunks[1..])) && CleanCuts(chunks[1..]))
  }

  lemma {:induction false} NormaliseOne(c: char, s: string)
    requires !(c == '\r' && StartsWith(s, '\n'))
    ensures Normalise([c] + s) == [c] + Normalise(s)
  {
    assert ([c] + s)[1..] == s;
  }

  lemma {:induction false} NormalisePair(s: string)
    ensures Normalise(['\r', '\n'] + s) == ['\n'] + Normalise(s)
  {
    assert (['\r', '\n'] + s)[2..] == s;
  }

  lemma {:induction false} NormaliseSplitPair(b: string)
    requires StartsWith(b, '\n')
    ensures |Normalise(['\r'] + b)| == |Normalise(['\r'])| + |Normalise(b)| - 1
  {
    var rest := b[1..];
    assert b == ['\n'] + rest && ['\r'] + b == ['\r', '\n'] + rest && ['\r'] + [] == ['\r'];
    NormalisePair(rest);
    NormaliseOne('\n', rest);
    NormaliseOne('\r', []);
  }

  lemma {:induction false} NormaliseConcat(a: string, b: string)
    ensures !SplitsPair(a, b) ==> Normalise(a + b) == Normalise(a) + Normalise(b)
    ensures SplitsPair(a, b) ==> |Normalise(a + b)| == |Normalise(a)| + |Normalise(b)| - 1
  {
    if a == "" {
      assert a + b == b;
    } else {
      hide Normalise;
      if IsPair(a) {
        var rest := a[2..];
        assert a == ['\r', '\n'] + rest && a + b == ['\r', '\n'] + (rest + b);
        NormaliseConcat(rest, b);
        NormalisePair(rest);
        NormalisePair(rest + b);
        assert SplitsPair(a, b) <==> SplitsPair(rest, b);
      } else if a == ['\r'] && StartsWith(b, '\n') {
        NormaliseSplitPair(b);
      } else {
        var rest := a[1..];
        assert a == [a[0]] + rest && a + b == [a[0]] + (rest + b);
        NormaliseConcat(rest, b);
        NormaliseOne(a[0], rest);
        NormaliseOne(a[0], rest + b);
        assert SplitsPair(a, b) <==> SplitsPair(rest, b);
      }
    }
  }

  lemma {:induction false} NeverShorter(chunks: seq<string>)
    ensures |Normalise(Concat(chunks))| <= |Received(chunks)|
    ensures CleanCuts(chunks) ==> Received(chunks) == Normalise(Concat(chunks))
    ensures !CleanCuts(chunks) ==> |Normalise(Concat(chunks))| < |Received(chunks)|
  {
    if chunks != [] {
      NormaliseConcat(chunks[0], Concat(chunks[1..]));
      NeverShorter(chunks[1..]);
    }
  }

  /** Normalising chunk by chunk is normalising the whole text exactly when no cut falls inside a CR LF pair. */
  lemma {:induction false} CutsAreCleanIff(chunks: seq<string>)
    ensures Received(chunks) == Normalise(Concat(chunks)) <==> CleanCuts(chunks)
  {
    NeverShorter(chunks);
  }

  /** Two clean ways of cutting one text give the same events. */
  lemma {:induction false} CuttingDoesNotMatter(chunks: seq<string>, others: seq<string>)
    requires Concat(chunks) == Concat(others) && CleanCuts(chunks) && CleanCuts(others)
    ensures Events(CompleteBlocks(Received(chunks))) == Events(CompleteBlocks(Received(others)))
    ensures Events(CompleteBlocks(Received(chunks))) == EventsOf(Concat(chunks))
  {
    CutsAreCleanIff(chunks);
    CutsAreCleanIff(others);
  }

  /** A cut inside a CR LF pair can lose an event: `data CR LF CR LF` holds one, but not when cut after the first CR. */
  lemma CutPairLosesAnEvent()
    ensures Concat(["data\r", "\n\r\n"]) == "data\r\n\r\n"
    ensures EventsOf("data\r\n\r\n") == [Event(None, "message", "")]
    ensures Events(CompleteBlocks(Received(["data\r", "\n\r\n"]))) == []
  {
    NormalisedExamples();
    hide Normalise, ParseBlock, SplitBlocks, CompleteBlocks, Events;
    var cut := ["data\r", "\n\r\n"];
    assert cut[1..] == ["\n\r\n"] && ["\n\r\n"][1..] == [];
    assert Concat(["\n\r\n"]) == "\n\r\n" + "" == "\n\r\n";
    assert Received(["\n\r\n"]) == Normalise("\n\r\n") + "" == "\n\n";
    assert Received(cut) == "data\r" + "\n\n";
    assert "data\n\n" == "data" + "\n\n";
    BlockEnds("data");
    BlockEnds("data\r");
    BareLineParses("data");
    BareLineParses("data\r");
  }

  /** A plain line of data: no line breaks in it. */
  predicate IsPlainData(value: string) {
    '\n' !in value && '\r' !in value
  }

  lemma {:induction false} LoneDataLineParses(value: string)
    requires '\n' !in value
    ensures ParseBlock("data: " + value) == Some(Event(None, "message", value))
  {
    hide WithLine;
    var line, none := "data: " + value, Fields(None, None, []);
    SplitPlain(line, '\n');
    DataLineReads(none, value);
    assert [line][1..] == [] && [] + [value] == [value];
    assert WithLines(none, [line]) == WithLines(WithLine(none, line), []);
  }

  lemma BreaksNormalise()
    ensures Normalise("\r\n\r\n") == "\n\n" && Normalise("\n\r\n") == "\n\n" && Normalise("\r") == "\r"
  {
    NormaliseOne('\n', "\r\n");
    NormaliseOne('\r', "");
    NormalisePair("");
    NormalisePair("\r\n");
    assert ['\r', '\n'] + "" == "\r\n" && ['\r', '\n'] + "\r\n" == "\r\n\r\n" && ['\n'] + "\r\n" == "\n\r\n" && ['\r'] + "" == "\r";
    assert ['\n'] + "" == "\n" && ['\n'] + "\n" == "\n\n";
  }

  /**
   Every event of one data line is changed by a cut inside the CR LF that ends the line: read whole, its data
   is the line's value; cut there, the value and a CR.
   */
  lemma {:induction false} CutPairChangesData(value: string)
    requires IsPlainData(value)
    ensures var line := "data: " + value;
            var whole, cut := [line + "\r\n\r\n"], [line + "\r", "\n\r\n"];
            && Concat(cut) == Concat(whole) && !CleanCuts(cut)
            && Events(CompleteBlocks(Received(whole))) == [Event(None, "message", value)]
            && Events(CompleteBlocks(Received(cut))) == [Event(None, "message", value + "\r")]
  {
    hide Normalise, ParseBlock, SplitBlocks, CompleteBlocks, Events;
    var line := "data: " + value;
    var whole, cut := [line + "\r\n\r\n"], [line + "\r", "\n\r\n"];
    assert '\r' !in "data: " && '\n' !in "data: ";
    BreaksNormalise();
    NormaliseSkips(line, "\r\n\r\n");
    NormaliseSkips(line, "\r");
    assert whole[1..] == [] && cut[1..] == ["\n\r\n"] && ["\n\r\n"][1..] == [];
    assert Received(whole) == line + "\n\n" + "" == line + "\n\n";
    assert Received(["\n\r\n"]) == "\n\n" + "" == "\n\n";
    assert Received(cut) == line + "\r" + "\n\n";
    assert Concat(["\n\r\n"]) == "\n\r\n" + "" == "\n\r\n";
    assert Concat(cut) == line + "\r" + "\n\r\n" == line + "\r\n\r\n" == line + "\r\n\r\n" + "" == Concat(whole);
    assert SplitsPair(cut[0], Concat(cut[1..]));
    assert line + "\r" == "data: " + (value + "\r");
    BlockEnds(line);
    BlockEnds(line + "\r");
    LoneDataLineParses(value);
    LoneDataLineParses(value + "\r");
  }

  lemma NormalisedExamples()
    ensures Normalise("data\r\n\r\n") == "data\n\n"
    ensures Normalise("data\r") == "data\r" && Normalise("\n\r\n") == "\n\n"
  {
    NormaliseSkips("data", "\r\n\r\n");
    NormaliseSkips("data", "\r");
    assert "data" + "\r\n\r\n" == "data\r\n\r\n" && "data" + "\r" == "data\r";
    assert "\r\n\r\n"[2..] == "\r\n" && "\r\n"[2..] == "" && "\r"[1..] == "" && "\n\r\n"[1..] == "\r\n";
    assert Normalise("\r\n") == "\n" + Normalise("") && Normalise("\r\n\r\n") == "\n" + Normalise("\r\n");
    assert Normalise("\n\r\n") == "\n" + Normalise("\r\n") && Normalise("\r") == "\r" + Normalise("");
  }

  /** A block of one line without a colon is an event only if the line is `data`. */
  lemma {:induction false} BareLineParses(line: string)
    requires line != "" && ':' !in line && '\n' !in line
    ensures ParseBlock(line) == if line == "data" then Some(Event(None, "message", "")) else None
  {
    SplitPlain(line, '\n');
    NoColon(line);
    assert line[0] in line;
    var none := Fields(None, None, []);
    assert [line][1..] == [];
    assert WithLines(none, [line]) == WithLines(WithLine(none, line), []);
    if line == "data" {
      assert [] + [""] == [""];
      assert WithLine(none, line) == none.(data := [""]);
    }
  }

  lemma {:induction false} NoColon(s: string)
    requires ':' !in s
    ensures IndexOf(s, ':') == |s| && s[..IndexOf(s, ':')] == s
  {
  }

  lemma {:induction false} NormaliseSkips(plain: string, rest: string)
    requires '\r' !in plain
    ensures Normalise(plain + rest) == plain + Normalise(rest)
  {
    if plain == "" {
      assert plain + rest == rest;
    } else {
      assert plain[0] in plain;
      assert (plain + rest)[1..] == plain[1..] + rest;
      NormaliseSkips(plain[1..], rest);
    }
  }

  /** A text without line feeds, then an empty line: one complete block. */
  lemma {:induction false} BlockEnds(plain: string)
    requires '\n' !in plain
    ensures SplitBlocks(plain + "\n\n") == [plain, ""]
    ensures CompleteBlocks(plain + "\n\n") == [plain] && Events([plain]) == if ParseBlock(plain).None? then [] else [ParseBlock(plain).value]
  {
    hide ParseBlock, SplitBlocks;
    var s := plain + "\n\n";
    SplitStep(s);
    NothingIsOneBlock();
    if plain == "" {
      assert s[2..] == "";
    } else {
      assert plain[0] in plain;
      assert s[1..] == plain[1..] + "\n\n";
      BlockEnds(plain[1..]);
      assert [plain[0]] + plain[1..] == plain;
    }
    assert [plain][1..] == [];
  }

  // ----- Blocks read back -----

  function DataLines(values: seq<string>): seq<string> {
    if values == [] then [] else ["data: " + values[0]] + DataLines(values[1..])
  }

  /** An event as a block of lines. */
  function PrintLines(e: Event): seq<string> {
    (if e.id.None? then [] else ["id: " + e.id.value]) + ["event: " + e.event] + DataLines(Split(e.data, '\n'))
  }

  function PrintBlock(e: Event): string {
    Join(PrintLines(e), "\n")
  }

  lemma {:induction false} LineReads(name: string, value: string, fields: Fields)
    requires name in {"data", "id", "event"}
    ensures var read := WithLine(fields, name + ": " + value);
            read == if name == "data" then fields.(data := fields.data + [value])
                    else if name == "id" then fields.(id := Some(value))
                    else fields.(event := Some(value))
  {
    var line := name + ": " + value;
    assert line == name + [':'] + (" " + value);
    IndexOfAfter(name, ':', " " + value);
    assert line[..|name|] == name && line[|name| + 1..] == " " + value;
    assert (" " + value)[1..] == value;
    assert line[0] == name[0];
  }

  lemma {:induction false} DataLineReads(fields: Fields, value: string)
    ensures WithLine(fields, "data: " + value) == fields.(data := fields.data + [value])
  {
    hide WithLine;
    LineReads("data", value, fields);
    assert "data" + ": " + value == "data: " + value;
  }

  lemma {:induction false} DataLinesRead(fields: Fields, values: seq<string>)
    ensures WithLines(fields, DataLines(values)) == fields.(data := fields.data + values)
    decreases |values|
  {
    hide WithLine;
    if values == [] {
      assert fields.data + values == fields.data;
    } else {
      DataLineReads(fields, values[0]);
      DataLinesRead(fields.(data := fields.data + [values[0]]), values[1..]);
      assert DataLines(values) == ["data: " + values[0]] + DataLines(values[1..]);
      assert DataLines(values)[1..] == DataLines(values[1..]);
      assert fields.data + [values[0]] + values[1..] == fields.data + values;
    }
  }

  lemma {:induction false} DataLinesLackLineFeeds(values: seq<string>)
    requires forall k :: 0 <= k < |values| ==> '\n' !in values[k]
    ensures forall k :: 0 <= k < |DataLines(values)| ==> '\n' !in DataLines(values)[k]
  {
    if values != [] {
      DataLinesLackLineFeeds(values[1..]);
    }
  }

  /** A printed block reads back as its event, whatever lines its data has. */
  lemma {:induction false} BlockReadsBack(e: Event)
    requires '\n' !in e.event && (e.id.Some? ==> '\n' !in e.id.value)
    ensures ParseBlock(PrintBlock(e)) == Some(e)
  {
    hide WithLine, WithLines, DataLines;
    var values, lines := Split(e.data, '\n'), PrintLines(e);
    SplitParts(e.data, '\n');
    DataLinesLackLineFeeds(values);
    SplitJoin(lines, '\n');
    JoinSplit(e.data, '\n');
    LinesRead(e);
  }

  lemma {:induction false} LinesRead(e: Event)
    ensures WithLines(Fields(None, None, []), PrintLines(e)) == Fields(e.id, Some(e.event), Split(e.data, '\n'))
  {
    hide WithLine, Split;
    var none, values := Fields(None, None, []), Split(e.data, '\n');
    var identified := if e.id.None? then none else none.(id := e.id);
    var rest := ["event: " + e.event] + DataLines(values);
    assert rest[1..] == DataLines(values);
    LineReads("event", e.event, identified);
    assert "event" + ": " + e.event == "event: " + e.event;
    DataLinesRead(identified.(event := Some(e.event)), values);
    assert [] + values == values;
    if e.id.Some? {
      LineReads("id", e.id.value, none);
      assert "id" + ": " + e.id.value == "id: " + e.id.value;
      assert PrintLines(e) == ["id: " + e.id.value] + rest && PrintLines(e)[1..] == rest;
    } else {
      assert PrintLines(e) == rest;
    }
  }

  // ----- Cuts inside a block of several lines -----

  /** Each line with its line end. */
  function Lines(lines: seq<string>, end: string): string {
    if lines == [] then "" else lines[0] + end + Lines(lines[1..], end)
  }

  /** The lines of a block: none is empty or holds a line break. */
  predicate ArePlainLines(lines: seq<string>) {
    forall k :: 0 <= k < |lines| ==> lines[k] != "" && IsPlainData(lines[k])
  }

  /** The lines with a CR after line `k`. */
  function WithReturn(lines: seq<string>, k: nat): seq<string>
    requires k < |lines|
  {
    lines[k := lines[k] + "\r"]
  }

  lemma {:induction false} LinesConcat(a: seq<string>, b: seq<string>, end: string)
    ensures Lines(a + b, end) == Lines(a, end) + Lines(b, end)
  {
    if a == [] {
      assert a + b == b;
    } else {
      assert (a + b)[1..] == a[1..] + b;
      LinesConcat(a[1..], b, end);
    }
  }

  lemma {:induction false} NormaliseLines(lines: seq<string>, rest: string)
    requires ArePlainLines(lines)
    ensures Normalise(Lines(lines, "\r\n") + rest) == Lines(lines, "\n") + Normalise(rest)
  {
    hide Normalise;
    if lines == [] {
      assert "" + rest == rest && "" + Normalise(rest) == Normalise(rest);
    } else {
      var more := Lines(lines[1..], "\r\n") + rest;
      assert Lines(lines, "\r\n") + rest == lines[0] + (['\r', '\n'] + more);
      NormaliseSkips(lines[0], ['\r', '\n'] + more);
      NormalisePair(more);
      NormaliseLines(lines[1..], rest);
    }
  }

  lemma {:induction false} LinesAreJoined(lines: seq<string>)
    requires lines != []
    ensures Lines(lines, "\n") == Join(lines, "\n") + "\n"
  {
    if |lines| > 1 {
      LinesAreJoined(lines[1..]);
    }
  }

  /** No empty line in the text, and no line feed at its end. */
  predicate IsOneBlock(s: string) {
    && (forall i :: 0 <= i < |s| - 1 ==> s[i] == '\n' ==> s[i + 1] != '\n')
    && (s != "" ==> s[|s| - 1] != '\n')
  }

  lemma {:induction false} OneBlockEnds(s: string)
    requires IsOneBlock(s)
    ensures SplitBlocks(s + "\n\n") == [s, ""]
  {
    hide SplitBlocks;
    SplitStep(s + "\n\n");
    NothingIsOneBlock();
    if s == "" {
      assert (s + "\n\n")[2..] == "";
    } else {
      assert (s + "\n\n")[1..] == s[1..] + "\n\n";
      OneBlockEnds(s[1..]);
      assert [s[0]] + s[1..] == s;
    }
  }

  lemma {:induction false} JoinedLinesAreOneBlock(lines: seq<string>)
    requires lines != [] && forall k :: 0 <= k < |lines| ==> lines[k] != "" && '\n' !in lines[k]
    ensures IsOneBlock(Join(lines, "\n")) && Join(lines, "\n") != "" && Join(lines, "\n")[0] != '\n'
  {
    var line := lines[0];
    assert forall i :: 0 <= i < |line| ==> line[i] in line;
    if |lines| > 1 {
      JoinedLinesAreOneBlock(lines[1..]);
      var rest := Join(lines[1..], "\n");
      var joined := line + "\n" + rest;
      assert joined[|joined| - 1] == rest[|rest| - 1];
      forall i | 0 <= i < |joined| - 1 && joined[i] == '\n' ensures joined[i + 1] != '\n' {
        if i > |line| {
          assert joined[i] == rest[i - |line| - 1] && joined[i + 1] == rest[i - |line|];
        }
      }
    }
  }

  /** Whole, a stream of one block is its lines; cut inside the pair that ends line `k`, that line has a CR at its end. */
  lemma {:induction false} CutChangesLine(lines: seq<string>, k: nat)
    requires k < |lines| && ArePlainLines(lines)
    ensures var whole := [Lines(lines, "\r\n") + "\r\n"];
            var cut := [Lines(lines[..k], "\r\n") + lines[k] + "\r", "\n" + Lines(lines[k + 1..], "\r\n") + "\r\n"];
            && Concat(cut) == Concat(whole) && !CleanCuts(cut)
            && CompleteBlocks(Received(whole)) == [Join(lines, "\n")]
            && CompleteBlocks(Received(cut)) == [Join(WithReturn(lines, k), "\n")]
  {
    var before, after := lines[..k], lines[k + 1..];
    var whole := [Lines(lines, "\r\n") + "\r\n"];
    var first, second := Lines(before, "\r\n") + lines[k] + "\r", "\n" + Lines(after, "\r\n") + "\r\n";
    var cut := [first, second];
    LinesAround(before, lines[k], after, "\r\n");
    LinesAround(before, lines[k] + "\r", after, "\n");
    assert lines == before + [lines[k]] + after && WithReturn(lines, k) == before + [lines[k] + "\r"] + after;
    assert whole[1..] == [] && cut[1..] == [second] && [second][1..] == [];
    assert Concat([second]) == second + "" == second;
    assert Concat(cut) == first + second == Lines(lines, "\r\n") + "\r\n" == Lines(lines, "\r\n") + "\r\n" + "" == Concat(whole);
    assert SplitsPair(first, second);
    assert Received(whole) == Normalise(whole[0]) + "" == Normalise(whole[0]);
    assert Received([second]) == Normalise(second) + "" == Normalise(second);
    CutNormalises(lines, k);
    PlainBlock(lines);
    PlainBlock(WithReturn(lines, k));
  }

  lemma {:induction false} LinesAround(before: seq<string>, line: string, after: seq<string>, end: string)
    ensures Lines(before + [line] + after, end) == Lines(before, end) + line + end + Lines(after, end)
  {
    LinesConcat(before + [line], after, end);
    LinesConcat(before, [line], end);
    assert [line][1..] == [];
  }

  lemma {:induction false} CutNormalises(lines: seq<string>, k: nat)
    requires k < |lines| && ArePlainLines(lines)
    ensures Normalise(Lines(lines, "\r\n") + "\r\n") == Lines(lines, "\n") + "\n"
    ensures Normalise(Lines(lines[..k], "\r\n") + lines[k] + "\r") + Normalise("\n" + Lines(lines[k + 1..], "\r\n") + "\r\n")
         == Lines(WithReturn(lines, k), "\n") + "\n"
  {
    hide Normalise;
    var before, after := lines[..k], lines[k + 1..];
    LinesAround(before, lines[k] + "\r", after, "\n");
    assert WithReturn(lines, k) == before + [lines[k] + "\r"] + after;
    NormalisePair("");
    NothingToNormalise("");
    assert ['\r', '\n'] + "" == "\r\n" && ['\n'] + "" == "\n";
    NormaliseLines(lines, "\r\n");
    NormaliseLines(before, lines[k] + "\r");
    assert Lines(before, "\r\n") + (lines[k] + "\r") == Lines(before, "\r\n") + lines[k] + "\r";
    NormaliseSkips(lines[k], "\r");
    NormaliseOne('\r', "");
    assert ['\r'] + "" == "\r";
    var rest := Lines(after, "\r\n") + "\r\n";
    assert "\n" + Lines(after, "\r\n") + "\r\n" == ['\n'] + rest;
    NormaliseOne('\n', rest);
    NormaliseLines(after, "\r\n");
  }

  lemma {:induction false} NothingToNormalise(s: string)
    requires s == ""
    ensures Normalise(s) == ""
  {
  }

  lemma {:induction false} PlainBlock(lines: seq<string>)
    requires lines != [] && forall k :: 0 <= k < |lines| ==> lines[k] != "" && '\n' !in lines[k]
    ensures CompleteBlocks(Lines(lines, "\n") + "\n") == [Join(lines, "\n")]
  {
    LinesAreJoined(lines);
    JoinedLinesAreOneBlock(lines);
    OneBlockEnds(Join(lines, "\n"));
    assert Lines(lines, "\n") + "\n" == Join(lines, "\n") + "\n\n";
  }

  /** How many lines stand before the data lines of a printed event. */
  function HeadLines(e: Event): nat {
    if e.id.None? then 1 else 2
  }

  /** The event with a CR after the value of its line `k`. */
  function WithReturnIn(e: Event, k: nat): Event
    requires k < |PrintLines(e)|
  {
    var values := Split(e.data, '\n');
    if k >= HeadLines(e) then
      DataLinesCount(values);
      e.(data := Join(WithReturn(values, k - HeadLines(e)), "\n"))
    else if e.id.Some? && k == 0 then e.(id := Some(e.id.value + "\r"))
    else e.(event := e.event + "\r")
  }

  lemma {:induction false} DataLinesCount(values: seq<string>)
    ensures |DataLines(values)| == |values|
    ensures forall k :: 0 <= k < |values| ==> DataLines(values)[k] == "data: " + values[k]
  {
    if values != [] {
      DataLinesCount(values[1..]);
    }
  }

  lemma {:induction false} ReturnInValue(values: seq<string>, j: nat)
    requires j < |values| && forall i :: 0 <= i < |values| ==> '\n' !in values[i]
    ensures Split(Join(WithReturn(values, j), "\n"), '\n') == WithReturn(values, j)
    ensures j < |DataLines(values)| && DataLines(WithReturn(values, j)) == WithReturn(DataLines(values), j)
  {
    var changed := WithReturn(values, j);
    SplitJoin(changed, '\n');
    DataLinesCount(values);
    DataLinesCount(changed);
    assert "data: " + (values[j] + "\r") == "data: " + values[j] + "\r";
  }

  lemma {:induction false} ReturnInData(e: Event, k: nat)
    requires HeadLines(e) <= k < |PrintLines(e)|
    ensures PrintLines(WithReturnIn(e, k)) == WithReturn(PrintLines(e), k)
    ensures WithReturnIn(e, k) != e
  {
    var values, j := Split(e.data, '\n'), k - HeadLines(e);
    DataLinesCount(values);
    SplitParts(e.data, '\n');
    ReturnInValue(values, j);
    assert WithReturn(values, j)[j] != values[j];
    hide Split, Join, DataLines;
    assert PrintLines(e)[HeadLines(e)..] == DataLines(values);
  }

  lemma {:induction false} ReturnInLine(e: Event, k: nat)
    requires k < |PrintLines(e)|
    ensures PrintLines(WithReturnIn(e, k)) == WithReturn(PrintLines(e), k)
    ensures WithReturnIn(e, k) != e
  {
    if k >= HeadLines(e) {
      ReturnInData(e, k);
    } else {
      hide Split, Join, DataLines;
      assert e.id.Some? ==> "id: " + (e.id.value + "\r") == "id: " + e.id.value + "\r";
      assert "event: " + (e.event + "\r") == "event: " + e.event + "\r";
    }
  }

  /**
   Any printed event, cut inside the CR LF that ends its line `k`: the reader gives the event with a CR in that
   line's value (id, event name or data line), which is another event; read whole, it gives the event.
   */
  lemma {:induction false} CutPairChangesEvent(e: Event, k: nat)
    requires IsPlainData(e.event) && (e.id.Some? ==> IsPlainData(e.id.value)) && '\r' !in e.data
    requires k < |PrintLines(e)|
    ensures var lines := PrintLines(e);
            var whole := [Lines(lines, "\r\n") + "\r\n"];
            var cut := [Lines(lines[..k], "\r\n") + lines[k] + "\r", "\n" + Lines(lines[k + 1..], "\r\n") + "\r\n"];
            && Concat(cut) == Concat(whole)
            && Events(CompleteBlocks(Received(whole))) == [e]
            && Events(CompleteBlocks(Received(cut))) == [WithReturnIn(e, k)] && WithReturnIn(e, k) != e
  {
    PrintedLinesArePlain(e);
    BlockReadsBack(e);
    ReturnInLine(e, k);
    hide PrintLines, ParseBlock, CompleteBlocks, Received, Concat, Lines;
    CutChangesLine(PrintLines(e), k);
    ReturnKeepsPlain(e, k);
    BlockReadsBack(WithReturnIn(e, k));
    OneEvent(PrintBlock(e));
    OneEvent(PrintBlock(WithReturnIn(e, k)));
  }

  lemma {:induction false} OneEvent(block: string)
    ensures Events([block]) == if ParseBlock(block).None? then [] else [ParseBlock(block).value]
  {
    assert [block][1..] == [];
  }

  lemma {:induction false} ReturnKeepsPlain(e: Event, k: nat)
    requires IsPlainData(e.event) && (e.id.Some? ==> IsPlainData(e.id.value)) && k < |PrintLines(e)|
    ensures var changed := WithReturnIn(e, k); '\n' !in changed.event && (changed.id.Some? ==> '\n' !in changed.id.value)
  {
  }

  lemma {:induction false} PrintedLinesArePlain(e: Event)
    requires IsPlainData(e.event) && (e.id.Some? ==> IsPlainData(e.id.value)) && '\r' !in e.data
    ensures ArePlainLines(PrintLines(e))
  {
    var values := Split(e.data, '\n');
    DataLinesCount(values);
    SplitParts(e.data, '\n');
    SplitKeepsOut(e.data, '\n', '\r');
  }

  lemma {:induction false} SplitKeepsOut(s: string, c: char, d: char)
    requires d !in s
    ensures forall k :: 0 <= k < |Split(s, c)| ==> d !in Split(s, c)[k]
  {
    if s != "" {
      assert s[0] in s;
      SplitKeepsOut(s[1..], c, d);
      var rest := Split(s[1..], c);
      assert Split(s, c) == if s[0] == c then [""] + rest else [[s[0]] + rest[0]] + rest[1..];
    }
  }
}
