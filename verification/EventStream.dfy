/** Server-sent events as the stress driver reads them: a line-by-line loop with an event name
    and a list of data lines as its state, compared with a block-by-block reading of the stream. */
module EventStream {

  datatype Event = Event(name: string, raw: string)

  // ----- Lines -----

  /** The text before and after the first colon. */
  function Partition(line: string): (r: (string, string))
    ensures ':' !in r.0
    ensures ':' in line ==> line == r.0 + ":" + r.1
    ensures ':' !in line ==> r == (line, "")
  {
    if line == "" then ("", "")
    else if line[0] == ':' then ("", line[1..])
    else
      var (field, value) := Partition(line[1..]);
      assert line == [line[0]] + line[1..];
      ([line[0]] + field, value)
  }

  function Strip(value: string): string {
    if value != "" && value[0] == ' ' then value[1..] else value
  }

  predicate Comment(line: string) { line != "" && line[0] == ':' }

  /** A line that names neither an event nor data. */
  predicate Unknown(line: string) { line != "" && Partition(line).0 != "event" && Partition(line).0 != "data" }

  /** A comment line has the empty field, so it sets nothing. */
  predicate Sets(line: string, field: string) { Partition(line).0 == field }

  function Value(line: string): string { Strip(Partition(line).1) }

  lemma {:induction false} PartitionPrinted(field: string, rest: string)
    requires ':' !in field
    ensures Partition(field + ":" + rest) == (field, rest)
    decreases |field|
  {
    var line := field + ":" + rest;
    if field != "" {
      assert field == [field[0]] + field[1..] && field[0] in field;
      assert line[1..] == field[1..] + ":" + rest;
      PartitionPrinted(field[1..], rest);
    }
  }

  // ----- The meaning of a stream, block by block -----

  /** The values of the data lines of a block, in order. */
  function DataOf(block: seq<string>): seq<string> {
    if block == [] then []
    else DataOf(block[..|block|-1]) + if Sets(block[|block|-1], "data") then [Value(block[|block|-1])] else []
  }

  /** The value of the last event line of a block, or the given name. */
  function NameOf(block: seq<string>, otherwise: string): string {
    if block == [] then otherwise
    else if Sets(block[|block|-1], "event") then Value(block[|block|-1])
    else NameOf(block[..|block|-1], otherwise)
  }

  function Joined(lines: seq<string>): string {
    if lines == [] then "" else if |lines| == 1 then lines[0] else lines[0] + "\n" + Joined(lines[1..])
  }

  /** A block is one event, or none when it carries no data. */
  function Meaning(block: seq<string>): seq<Event> {
    if DataOf(block) == [] then [] else [Event(NameOf(block, "message"), Joined(DataOf(block)))]
  }

  function FirstBlank(lines: seq<string>): (i: nat)
    ensures i <= |lines| && "" !in lines[..i] && (i < |lines| ==> lines[i] == "")
  {
    if lines == [] || lines[0] == "" then 0
    else
      var i := FirstBlank(lines[1..]);
      assert lines[..1 + i] == [lines[0]] + lines[1..][..i];
      1 + i
  }

  /** The events of a stream: one block per blank line, what follows the last one ignored. */
  function Streamed(lines: seq<string>): seq<Event>
    decreases |lines|
  {
    var i := FirstBlank(lines);
    if i == |lines| then [] else Meaning(lines[..i]) + Streamed(lines[i + 1..])
  }

  // ----- The loop -----

  method ReadEvents<Json>(lines: seq<string>, decode: string -> Json) returns (out: seq<(string, Json)>)
    ensures out == Decoded(Streamed(lines), decode)
  {
    hide Streamed, Meaning, DataOf, NameOf, Decoded, Partition, Strip;
    var event := "message";
    var data: seq<string> := [];
    out := [];
    ghost var complete, block := [], [];
    BlockDecoded([], decode);
    for n := 0 to |lines|
      invariant lines[..n] == complete + block && Complete(complete) && "" !in block
      invariant event == NameOf(block, "message") && data == DataOf(block)
      invariant out == Decoded(Streamed(complete), decode)
    {
      var line := lines[n];
      assert lines[..n + 1] == complete + (block + [line]);
      LineAdded(block, line);
      if Comment(line) {
        block := block + [line];
        continue;
      }
      if line == "" {
        BlockStreamed(complete, block);
        DecodedConcat(Streamed(complete), Meaning(block), decode);
        BlockDecoded(block, decode);
        BlockDecoded([], decode);
        if data != [] {
          out := out + [(event, decode(Joined(data)))];
        }
        event, data := "message", [];
        complete, block := complete + (block + [line]), [];
        continue;
      }
      var (field, value) := Partition(line);
      value := Strip(value);
      if field == "event" {
        event := value;
      } else if field == "data" {
        data := data + [value];
      }
      block := block + [line];
    }
    assert lines[..|lines|] == lines;
    StreamedConcat(complete, block);
    NothingUnterminated(block);
    assert Streamed(complete) + [] == Streamed(complete);
  }

  ghost function Decoded<Json>(events: seq<Event>, decode: string -> Json): seq<(string, Json)> {
    seq(|events|, i requires 0 <= i < |events| => (events[i].name, decode(events[i].raw)))
  }

  lemma DecodedConcat<Json>(a: seq<Event>, b: seq<Event>, decode: string -> Json)
    ensures Decoded(a + b, decode) == Decoded(a, decode) + Decoded(b, decode)
  {
  }

  lemma BlockDecoded<Json>(block: seq<string>, decode: string -> Json)
    ensures DataOf([]) == [] && NameOf([], "message") == "message" && Decoded(Streamed([]), decode) == []
    ensures Decoded(Meaning(block), decode) ==
      if DataOf(block) == [] then [] else [(NameOf(block, "message"), decode(Joined(DataOf(block))))]
  {
  }

  /** A stream cut right after a blank line. */
  predicate Complete(lines: seq<string>) { lines == [] || lines[|lines|-1] == "" }

  lemma LineAdded(block: seq<string>, line: string)
    ensures DataOf(block + [line]) == DataOf(block) + if Sets(line, "data") then [Value(line)] else []
    ensures NameOf(block + [line], "message") == if Sets(line, "event") then Value(line) else NameOf(block, "message")
    ensures Comment(line) ==> !Sets(line, "data") && !Sets(line, "event")
  {
    assert (block + [line])[..|block|] == block;
  }

  lemma NothingUnterminated(block: seq<string>)
    requires "" !in block
    ensures Streamed(block) == []
  {
    var i := FirstBlank(block);
    forall k | 0 <= k < |block| ensures block[k] != "" { assert block[k] in block; }
  }

  lemma BlankAt(lines: seq<string>, i: nat)
    requires i < |lines| && lines[i] == "" && "" !in lines[..i]
    ensures FirstBlank(lines) == i
  {
    var j := FirstBlank(lines);
    forall k | 0 <= k < i ensures lines[k] != "" { assert lines[..i][k] in lines[..i]; }
    forall k | 0 <= k < j ensures lines[k] != "" { assert lines[..j][k] in lines[..j]; }
  }

  lemma LastIsBlank(lines: seq<string>)
    requires lines != [] && lines[|lines|-1] == ""
    ensures FirstBlank(lines) < |lines|
  {
    var i := FirstBlank(lines);
    assert lines[|lines|-1] in lines;
    assert lines[..|lines|] == lines;
  }

  /** Parsing concatenated complete blocks is concatenating their parses. */
  lemma {:induction false} StreamedConcat(a: seq<string>, b: seq<string>)
    requires Complete(a)
    ensures Streamed(a + b) == Streamed(a) + Streamed(b)
    decreases |a|
  {
    hide Meaning, FirstBlank;
    if a == [] {
      assert a + b == b;
      assert Streamed(a) + Streamed(b) == Streamed(b);
    } else {
      var i := FirstBlank(a);
      assert i < |a| by { LastIsBlank(a); }
      assert (a + b)[..i] == a[..i];
      BlankAt(a + b, i);
      assert (a + b)[i + 1..] == a[i + 1..] + b;
      StreamedConcat(a[i + 1..], b);
    }
  }

  lemma BlockStreamed(complete: seq<string>, block: seq<string>)
    requires Complete(complete) && "" !in block
    ensures Streamed(complete + (block + [""])) == Streamed(complete) + Meaning(block)
  {
    StreamedConcat(complete, block + [""]);
    OneBlock(block);
  }

  lemma OneBlock(block: seq<string>)
    requires "" !in block
    ensures Streamed(block + [""]) == Meaning(block)
  {
    var lines := block + [""];
    assert lines[..|block|] == block;
    BlankAt(lines, |block|);
    assert lines[|block| + 1..] == [];
    assert Streamed(lines) == Meaning(block) + Streamed([]);
  }

  // ----- Comments -----

  lemma {:induction false} DataConcat(a: seq<string>, b: seq<string>)
    ensures DataOf(a + b) == DataOf(a) + DataOf(b)
    decreases |b|
  {
    if b == [] {
      assert a + b == a;
    } else {
      assert (a + b)[..|a + b|-1] == a + b[..|b|-1];
      DataConcat(a, b[..|b|-1]);
    }
  }

  lemma {:induction false} NameConcat(a: seq<string>, b: seq<string>, otherwise: string)
    ensures NameOf(a + b, otherwise) == NameOf(b, NameOf(a, otherwise))
    decreases |b|
  {
    if b == [] {
      assert a + b == a;
    } else {
      assert (a + b)[..|a + b|-1] == a + b[..|b|-1];
      NameConcat(a, b[..|b|-1], otherwise);
    }
  }

  lemma CommentMeansNothing(a: seq<string>, comment: string, b: seq<string>)
    requires Comment(comment) || Unknown(comment)
    ensures Meaning(a + [comment] + b) == Meaning(a + b)
  {
    hide Partition, Joined;
    LineAdded(a, comment);
    assert DataOf(a + [comment]) == DataOf(a);
    DataConcat(a + [comment], b);
    DataConcat(a, b);
    NameConcat(a + [comment], b, "message");
    NameConcat(a, b, "message");
  }

  /** A comment, or a line of another field, inserted anywhere changes nothing. */
  lemma {:induction false} CommentsChangeNothing(a: seq<string>, comment: string, b: seq<string>)
    requires Comment(comment) || Unknown(comment)
    ensures Streamed(a + [comment] + b) == Streamed(a + b)
    decreases |a|
  {
    hide Streamed, Meaning, FirstBlank;
    var i := FirstBlank(a);
    if i < |a| {
      assert a == (a[..i] + [""]) + a[i + 1..];
      CommentsChangeNothing(a[i + 1..], comment, b);
      assert a + [comment] + b == (a[..i] + [""]) + (a[i + 1..] + [comment] + b);
      assert a + b == (a[..i] + [""]) + (a[i + 1..] + b);
      StreamedConcat(a[..i] + [""], a[i + 1..] + [comment] + b);
      StreamedConcat(a[..i] + [""], a[i + 1..] + b);
    } else {
      var j := FirstBlank(b);
      CommentMeansNothing(a, comment, b[..j]);
      var with, without := a + [comment] + b[..j], a + b[..j];
      assert a == a[..i];
      if j == |b| {
        assert b == b[..j];
        NothingUnterminated(with);
        NothingUnterminated(without);
      } else {
        assert b == b[..j] + [""] + b[j + 1..];
        OneBlock(with);
        OneBlock(without);
        assert a + [comment] + b == (with + [""]) + b[j + 1..];
        assert a + b == (without + [""]) + b[j + 1..];
        StreamedConcat(with + [""], b[j + 1..]);
        StreamedConcat(without + [""], b[j + 1..]);
      }
    }
  }

  // ----- Printing -----

  datatype Option<+T> = None | Some(value: T)

  /** An event to print: its name, if it has one, its data lines, and whether a space follows each colon. */
  datatype Message = Message(name: Option<string>, data: seq<string>, spaced: bool)

  /** Without the space, values must not begin with one. */
  predicate Plain(value: string, spaced: bool) { spaced || value == "" || value[0] != ' ' }

  ghost predicate Legible(m: Message) {
    m.data != [] && (m.name.Some? ==> Plain(m.name.value, m.spaced)) && forall d :: d in m.data ==> Plain(d, m.spaced)
  }

  function Line(field: string, value: string, spaced: bool): string { field + ":" + (if spaced then " " else "") + value }

  function Printed(m: Message): seq<string> {
    (if m.name.Some? then [Line("event", m.name.value, m.spaced)] else []) + DataLines(m.data, m.spaced)
  }

  function DataLines(data: seq<string>, spaced: bool): seq<string> {
    if data == [] then [] else DataLines(data[..|data|-1], spaced) + [Line("data", data[|data|-1], spaced)]
  }

  function PrintedAll(ms: seq<Message>): seq<string> {
    if ms == [] then [] else Printed(ms[0]) + [""] + PrintedAll(ms[1..])
  }

  function Sent(ms: seq<Message>): seq<Event> {
    if ms == [] then []
    else [Event(if ms[0].name.Some? then ms[0].name.value else "message", Joined(ms[0].data))] + Sent(ms[1..])
  }

  lemma PrintedLine(field: string, value: string, spaced: bool)
    requires (field == "event" || field == "data") && Plain(value, spaced)
    ensures Partition(Line(field, value, spaced)).0 == field && Value(Line(field, value, spaced)) == value
    ensures Line(field, value, spaced) != ""
  {
    var rest := (if spaced then " " else "") + value;
    PartitionPrinted(field, rest);
    assert field + ":" + rest == Line(field, value, spaced);
    if spaced { assert rest[1..] == value; }
  }

  lemma {:induction false} DataLinesRead(data: seq<string>, spaced: bool, otherwise: string)
    requires forall d :: d in data ==> Plain(d, spaced)
    ensures DataOf(DataLines(data, spaced)) == data && NameOf(DataLines(data, spaced), otherwise) == otherwise
    ensures "" !in DataLines(data, spaced)
    decreases |data|
  {
    hide Partition, Strip, Line, Plain;
    if data != [] {
      var rest, last := data[..|data|-1], data[|data|-1];
      DataLinesRead(rest, spaced, otherwise);
      PrintedLine("data", last, spaced);
      var lines := DataLines(data, spaced);
      assert lines[..|lines|-1] == DataLines(rest, spaced);
      assert data == rest + [last];
    }
  }

  lemma PrintedMeans(m: Message)
    requires Legible(m)
    ensures "" !in Printed(m)
    ensures DataOf(Printed(m)) == m.data && NameOf(Printed(m), "message") == if m.name.Some? then m.name.value else "message"
  {
    hide Partition, Strip, DataLines, Line, Plain;
    var lines := DataLines(m.data, m.spaced);
    if m.name.Some? {
      var head := [Line("event", m.name.value, m.spaced)];
      PrintedLine("event", m.name.value, m.spaced);
      assert head[..0] == [];
      DataConcat(head, lines);
      NameConcat(head, lines, "message");
      DataLinesRead(m.data, m.spaced, m.name.value);
    } else {
      assert Printed(m) == [] + lines == lines;
      DataLinesRead(m.data, m.spaced, "message");
    }
  }

  // ----- Joined data -----

  /** The parts of a text between its line feeds. */
  function Split(text: string): (r: seq<string>)
    ensures r != []
  {
    if text == "" then [""]
    else
      var rest := Split(text[1..]);
      if text[0] == '\n' then [""] + rest else [[text[0]] + rest[0]] + rest[1..]
  }

  lemma {:induction false} SplitFirst(line: string, rest: string)
    requires '\n' !in line
    ensures Split(line + "\n" + rest) == [line] + Split(rest) && Split(line) == [line]
    decreases |line|
  {
    if line == "" {
      assert line + "\n" + rest == "\n" + rest && ("\n" + rest)[1..] == rest;
    } else {
      assert line == [line[0]] + line[1..] && line[0] in line;
      SplitFirst(line[1..], rest);
      assert (line + "\n" + rest)[1..] == line[1..] + "\n" + rest;
    }
  }

  /** The data of an event, cut at its line feeds, are its data lines. */
  lemma {:induction false} JoinedSplitsBack(data: seq<string>)
    requires data != [] && forall d :: d in data ==> '\n' !in d
    ensures Split(Joined(data)) == data
    decreases |data|
  {
    assert data[0] in data;
    if |data| == 1 {
      SplitFirst(data[0], "");
    } else {
      JoinedSplitsBack(data[1..]);
      SplitFirst(data[0], Joined(data[1..]));
    }
  }

  // ----- Whole streams -----

  /** Printing events with at least one data line each, with or without a space after the colon, and reading the
      stream gives them back; an event without a name is a message. */
  lemma {:induction false} PrintedIsReadBack(ms: seq<Message>)
    requires forall m :: m in ms ==> Legible(m)
    ensures Streamed(PrintedAll(ms)) == Sent(ms)
    decreases |ms|
  {
    if ms != [] {
      var m := ms[0];
      assert m in ms;
      PrintedMeans(m);
      OneBlock(Printed(m));
      StreamedConcat(Printed(m) + [""], PrintedAll(ms[1..]));
      PrintedIsReadBack(ms[1..]);
    }
  }

  // ----- Text -----

  /** The characters that end a line when a text is cut into lines. */
  predicate Breaks(c: char) {
    c in {'\n', '\r', '\U{0B}', '\U{0C}', '\U{1C}', '\U{1D}', '\U{1E}', '\U{85}', '\U{2028}', '\U{2029}'}
  }

  predicate OneLine(s: string) { forall c :: c in s ==> !Breaks(c) }

  function FirstBreak(text: string): (i: nat)
    ensures i <= |text| && OneLine(text[..i]) && (i < |text| ==> Breaks(text[i]))
  {
    if text == "" || Breaks(text[0]) then 0
    else
      var i := FirstBreak(text[1..]);
      assert text[..1 + i] == [text[0]] + text[1..][..i];
      1 + i
  }

  /** A text cut at its line breaks, a carriage return and a line feed counting as one. */
  function Lines(text: string): seq<string>
    decreases |text|
  {
    if text == "" then []
    else
      var i := FirstBreak(text);
      if i == |text| then [text]
      else
        var width := if text[i] == '\r' && i + 1 < |text| && text[i + 1] == '\n' then 2 else 1;
        [text[..i]] + Lines(text[i + width..])
  }

  function Text(lines: seq<string>): string {
    if lines == [] then "" else lines[0] + "\n" + Text(lines[1..])
  }

  lemma {:induction false} LinesOfText(lines: seq<string>)
    requires forall line :: line in lines ==> OneLine(line)
    ensures Lines(Text(lines)) == lines
    decreases |lines|
  {
    hide FirstBreak, OneLine, Breaks;
    if lines != [] {
      var line, text := lines[0], Text(lines);
      assert line in lines;
      BreakAt(line, Text(lines[1..]));
      assert text[..|line|] == line && text[|line|] == '\n' && text[|line| + 1..] == Text(lines[1..]);
      LinesOfText(lines[1..]);
    }
  }

  lemma BreakAt(line: string, rest: string)
    requires OneLine(line)
    ensures FirstBreak(line + "\n" + rest) == |line|
  {
    var text := line + "\n" + rest;
    var i := FirstBreak(text);
    assert text[|line|] == '\n' && Breaks('\n');
    forall k | 0 <= k < |line| ensures !Breaks(text[k]) { assert text[k] == line[k] && line[k] in line; }
    forall k | 0 <= k < i ensures !Breaks(text[k]) { assert text[..i][k] in text[..i]; }
  }

  lemma {:induction false} DataLinesAreLines(data: seq<string>, spaced: bool)
    requires forall d :: d in data ==> OneLine(d)
    ensures forall line :: line in DataLines(data, spaced) ==> OneLine(line)
    decreases |data|
  {
    if data != [] {
      assert data[|data|-1] in data;
      DataLinesAreLines(data[..|data|-1], spaced);
    }
  }

  ghost predicate Printable(m: Message) {
    Legible(m) && (m.name.Some? ==> OneLine(m.name.value)) && forall d :: d in m.data ==> OneLine(d)
  }

  lemma {:induction false} PrintedAreLines(ms: seq<Message>)
    requires forall m :: m in ms ==> Printable(m)
    ensures forall line :: line in PrintedAll(ms) ==> OneLine(line)
    decreases |ms|
  {
    if ms != [] {
      assert Printable(ms[0]) by { assert ms[0] in ms; }
      DataLinesAreLines(ms[0].data, ms[0].spaced);
      PrintedAreLines(ms[1..]);
    }
  }

  /** The same from the text of the stream, for names and data lines without line breaks. */
  lemma TextIsReadBack(ms: seq<Message>)
    requires forall m :: m in ms ==> Printable(m)
    ensures Streamed(Lines(Text(PrintedAll(ms)))) == Sent(ms)
  {
    PrintedAreLines(ms);
    LinesOfText(PrintedAll(ms));
    PrintedIsReadBack(ms);
  }
}
