/** Quoting in the exported script: `_quote` for values and `_ident` for names double the quote
    character, and the SQL lexer reads them back whatever they contain. */
module SqlText {

  datatype Option<+T> = None | Some(value: T)

  /** `text.replace(q, q + q)`. */
  function Doubled(text: string, q: char): string {
    if text == "" then "" else (if text[0] == q then [q, q] else [text[0]]) + Doubled(text[1..], q)
  }

  function Quoted(text: string, q: char): string { [q] + Doubled(text, q) + [q] }

  /** The lexer after an opening quote: a doubled quote is one character, a single one ends the
      token. The result is the token and what follows it. */
  function Scan(input: string, q: char): (r: Option<(string, string)>)
    ensures r.Some? ==> |r.value.1| < |input|
  {
    if input == "" then None
    else if input[0] != q then
      var r := Scan(input[1..], q);
      if r.None? then None else Some(([input[0]] + r.value.0, r.value.1))
    else if |input| > 1 && input[1] == q then
      var r := Scan(input[2..], q);
      if r.None? then None else Some(([q] + r.value.0, r.value.1))
    else Some(("", input[1..]))
  }

  /** No content can end its own token early or reach into what follows. */
  lemma {:induction false} ScanReadsQuoted(text: string, q: char, rest: string)
    requires rest == "" || rest[0] != q
    ensures Scan(Quoted(text, q)[1..] + rest, q) == Some((text, rest))
  {
    var input := Quoted(text, q)[1..] + rest;
    if text == "" {
      assert input == [q] + rest;
      assert input[1..] == rest;
    } else {
      var inner := Quoted(text[1..], q)[1..] + rest;
      ScanReadsQuoted(text[1..], q, rest);
      if text[0] == q {
        assert input == [q, q] + inner;
        assert input[2..] == inner;
      } else {
        assert input == [text[0]] + inner;
        assert input[1..] == inner;
      }
      assert [text[0]] + text[1..] == text;
    }
  }

  // ----- A row of values -----

  /** A cell as `_literal` tells columns apart: NULL, a boolean, a number in its printed form, or text
      with the type it is cast to, if any. */
  datatype Cell = Null | Bool(value: bool) | Number(printed: string) | Text(text: string, cast: string)

  /** The characters of keywords, numbers and type names. */
  predicate Bare(c: char) { 'a' <= c <= 'z' || 'A' <= c <= 'Z' || '0' <= c <= '9' || c == '+' || c == '-' || c == '.' }

  predicate AllBare(s: string) { forall c :: c in s ==> Bare(c) }

  predicate NumberLike(s: string) { s != "" && ('0' <= s[0] <= '9' || s[0] == '-') }

  /** What numbers and type names look like in print. */
  predicate WellFormed(cell: Cell) {
    match cell
    case Number(printed) => NumberLike(printed) && AllBare(printed)
    case Text(_, cast) => AllBare(cast)
    case _ => true
  }

  function Literal(cell: Cell): string {
    match cell
    case Null => "NULL"
    case Bool(value) => if value then "TRUE" else "FALSE"
    case Number(printed) => printed
    case Text(text, cast) => Quoted(text, '\'') + if cast == "" then "" else "::" + cast
  }

  /** `", ".join(...)` over the cells of a row, as far as the closing parenthesis. */
  function Values(cells: seq<Cell>): string {
    if cells == [] then ")"
    else if |cells| == 1 then Literal(cells[0]) + ")"
    else Literal(cells[0]) + ", " + Values(cells[1..])
  }

  function BareRun(s: string): (n: nat)
    ensures n <= |s| && AllBare(s[..n])
  {
    if s == "" || !Bare(s[0]) then 0
    else
      var n := BareRun(s[1..]);
      assert s[..n + 1] == [s[0]] + s[1..][..n];
      n + 1
  }

  function ReadWord(input: string): (r: Option<(Cell, string)>)
    ensures r.Some? ==> |r.value.1| < |input|
  {
    var n := BareRun(input);
    var word, rest := input[..n], input[n..];
    if word == "NULL" then Some((Null, rest))
    else if word == "TRUE" then Some((Bool(true), rest))
    else if word == "FALSE" then Some((Bool(false), rest))
    else if NumberLike(word) then Some((Number(word), rest))
    else None
  }

  function ReadCast(text: string, input: string): (r: (Cell, string))
    ensures |r.1| <= |input|
  {
    if |input| >= 2 && input[0] == ':' && input[1] == ':' then
      var n := BareRun(input[2..]);
      (Text(text, input[2..][..n]), input[2..][n..])
    else (Text(text, ""), input)
  }

  function ReadLiteral(input: string): (r: Option<(Cell, string)>)
    ensures r.Some? ==> |r.value.1| < |input|
  {
    if input != "" && input[0] == '\'' then
      var r := Scan(input[1..], '\'');
      if r.None? then None else Some(ReadCast(r.value.0, r.value.1))
    else ReadWord(input)
  }

  /** What follows a cell: a comma or a closing parenthesis. */
  predicate Follows(rest: string) { rest != "" && (rest[0] == ',' || rest[0] == ')') }

  lemma {:induction false} BareRunIs(word: string, rest: string)
    requires AllBare(word) && Follows(rest)
    ensures BareRun(word + rest) == |word|
    decreases |word|
  {
    if word == "" {
      assert word + rest == rest;
    } else {
      assert word[0] in word;
      assert (word + rest)[1..] == word[1..] + rest;
      BareRunIs(word[1..], rest);
    }
  }

  lemma WordReadsBack(cell: Cell, rest: string)
    requires !cell.Text? && WellFormed(cell) && Follows(rest)
    ensures ReadLiteral(Literal(cell) + rest) == Some((cell, rest))
  {
    var word, input := Literal(cell), Literal(cell) + rest;
    assert AllBare(word) && word != "" && Bare(word[0]);
    BareRunIs(word, rest);
    hide BareRun;
    assert input[..|word|] == word && input[|word|..] == rest && input[0] == word[0];
  }

  lemma TextReadsBack(text: string, cast: string, rest: string)
    requires AllBare(cast) && Follows(rest)
    ensures ReadLiteral(Literal(Text(text, cast)) + rest) == Some((Text(text, cast), rest))
  {
    var input := Literal(Text(text, cast)) + rest;
    var after := (if cast == "" then "" else "::" + cast) + rest;
    assert input[0] == '\'' && input[1..] == Quoted(text, '\'')[1..] + after;
    ScanReadsQuoted(text, '\'', after);
    if cast == "" {
      assert after == rest;
    } else {
      assert after[2..] == cast + rest;
      BareRunIs(cast, rest);
      assert (cast + rest)[..|cast|] == cast && (cast + rest)[|cast|..] == rest;
    }
    hide Scan, BareRun, Quoted;
    assert ReadCast(text, after) == (Text(text, cast), rest);
  }

  lemma LiteralReadsBack(cell: Cell, rest: string)
    requires WellFormed(cell) && Follows(rest)
    ensures ReadLiteral(Literal(cell) + rest) == Some((cell, rest))
  {
    if cell.Text? { TextReadsBack(cell.text, cell.cast, rest); } else { WordReadsBack(cell, rest); }
  }

  /** The reader of a non-empty value list. */
  function ReadValues(input: string): Option<(seq<Cell>, string)>
    decreases |input|
  {
    var r := ReadLiteral(input);
    if r.None? then None
    else
      var (cell, rest) := r.value;
      if rest != "" && rest[0] == ')' then Some(([cell], rest[1..]))
      else if |rest| >= 2 && rest[0] == ',' && rest[1] == ' ' then
        var tail := ReadValues(rest[2..]);
        if tail.None? then None else Some(([cell] + tail.value.0, tail.value.1))
      else None
  }

  lemma ReadFirst(input: string, cell: Cell, tail: string)
    requires ReadLiteral(input) == Some((cell, ", " + tail))
    ensures ReadValues(input) == (var r := ReadValues(tail); if r.None? then None else Some(([cell] + r.value.0, r.value.1)))
  {
    assert (", " + tail)[2..] == tail;
  }

  lemma ReadLast(input: string, cell: Cell, rest: string)
    requires ReadLiteral(input) == Some((cell, ")" + rest))
    ensures ReadValues(input) == Some(([cell], rest))
  {
    assert (")" + rest)[1..] == rest;
  }

  /** Every row of cells, whatever text they hold, is read back exactly. */
  lemma {:induction false} ValuesReadBack(cells: seq<Cell>, rest: string)
    requires cells != [] && forall cell :: cell in cells ==> WellFormed(cell)
    ensures ReadValues(Values(cells) + rest) == Some((cells, rest))
    decreases |cells|
  {
    hide Literal, ReadLiteral, ReadValues, WellFormed;
    assert cells[0] in cells;
    var input := Values(cells) + rest;
    if |cells| == 1 {
      var after := ")" + rest;
      assert input == Literal(cells[0]) + after;
      LiteralReadsBack(cells[0], after);
      ReadLast(input, cells[0], rest);
      assert [cells[0]] == cells;
    } else {
      var tail := Values(cells[1..]) + rest;
      var after := ", " + tail;
      assert input == Literal(cells[0]) + after;
      LiteralReadsBack(cells[0], after);
      ReadFirst(input, cells[0], tail);
      ValuesReadBack(cells[1..], rest);
      assert [cells[0]] + cells[1..] == cells;
    }
  }
}
