/** Decimal numbers as the writer prints them. */
module Decimals {

  predicate Digit(c: char) { '0' <= c <= '9' }

  function DigitOf(n: nat): (c: char)
    requires n < 10
    ensures Digit(c) && (c as int) - ('0' as int) == n
  {
    ('0' as int + n) as char
  }

  function Decimal(n: nat): (s: string)
    ensures s != "" && forall c :: c in s ==> Digit(c)
  {
    if n < 10 then [DigitOf(n)] else Decimal(n / 10) + [DigitOf(n % 10)]
  }

  function Number(s: string): nat
    requires forall c :: c in s ==> Digit(c)
  {
    if s == "" then 0
    else
      var last := s[|s|-1];
      assert last in s && Digit(last);
      10 * Number(s[..|s|-1]) + ((last as int) - ('0' as int))
  }

  function Pow10(k: nat): nat { if k == 0 then 1 else 10 * Pow10(k - 1) }

  function Zeros(k: nat): (s: string)
    ensures |s| == k && forall c :: c in s ==> c == '0'
  {
    seq(k, _ => '0')
  }

  /** Padded with zeros on the left to a width of at least `width`. */
  function Padded(n: nat, width: nat): (s: string)
    ensures forall c :: c in s ==> Digit(c)
  {
    var d := Decimal(n);
    if |d| >= width then d else Zeros(width - |d|) + d
  }

  lemma {:induction false} NumberOfDecimal(n: nat)
    ensures Number(Decimal(n)) == n
  {
    if n >= 10 {
      NumberOfDecimal(n / 10);
      assert Decimal(n)[..|Decimal(n)|-1] == Decimal(n / 10);
    } else {
      assert Decimal(n)[..0] == "";
    }
  }

  lemma {:induction false} DecimalFits(n: nat, k: nat)
    requires k >= 1
    ensures |Decimal(n)| <= k <==> n < Pow10(k)
  {
    if n >= 10 {
      if k == 1 {
        assert Pow10(1) == 10 * Pow10(0);
      } else {
        DecimalFits(n / 10, k - 1);
      }
    } else {
      PowGrows(k);
    }
  }

  lemma {:induction false} PowGrows(k: nat)
    requires k >= 1
    ensures Pow10(k) >= 10
    decreases k
  {
    if k > 1 { PowGrows(k - 1); } else { assert Pow10(0) == 1; }
  }

  lemma {:induction false} NumberOfZeros(k: nat, d: string)
    requires forall c :: c in d ==> Digit(c)
    ensures Number(Zeros(k) + d) == Number(d)
    decreases |d|, k
  {
    var s := Zeros(k) + d;
    if d != "" {
      assert s[..|s|-1] == Zeros(k) + d[..|d|-1];
      NumberOfZeros(k, d[..|d|-1]);
    } else if k > 0 {
      assert s == Zeros(k) && s[..|s|-1] == Zeros(k - 1) + "";
      NumberOfZeros(k - 1, "");
    } else {
      assert s == "";
    }
  }

  /** A padded number reads back, and has exactly the width when it fits. */
  lemma PaddedReads(n: nat, width: nat)
    requires width >= 1
    ensures Number(Padded(n, width)) == n
    ensures |Padded(n, width)| == width <==> n < Pow10(width)
  {
    NumberOfDecimal(n);
    DecimalFits(n, width);
    if |Decimal(n)| < width { NumberOfZeros(width - |Decimal(n)|, Decimal(n)); }
  }
}

/** Literal strings of section 7.3.4.2 of ISO 32000-1. */
module PdfStrings {
  import opened FlowGraph

  /** Every occurrence of a character replaced by a text. */
  function Replaced(s: string, c: char, text: string): string {
    if s == "" then "" else (if s[0] == c then text else [s[0]]) + Replaced(s[1..], c, text)
  }

  /** The three replacements of the writer, in its order. */
  function Escaped(line: string): string {
    Replaced(Replaced(Replaced(line, '\\', "\\\\"), '(', "\\("), ')', "\\)")
  }

  function EscapedChar(c: char): string {
    if c == '\\' || c == '(' || c == ')' then ['\\', c] else [c]
  }

  lemma {:induction false} ReplacedConcat(a: string, b: string, c: char, text: string)
    ensures Replaced(a + b, c, text) == Replaced(a, c, text) + Replaced(b, c, text)
    decreases |a|
  {
    if a == "" {
      assert a + b == b;
    } else {
      assert (a + b)[1..] == a[1..] + b;
      ReplacedConcat(a[1..], b, c, text);
    }
  }

  lemma ReplacedChar(x: char, c: char, text: string)
    ensures Replaced([x], c, text) == if x == c then text else [x]
  {
    var first := if x == c then text else [x];
    assert [x][1..] == "";
    assert Replaced([x], c, text) == first + "";
  }

  lemma ReplacedPair(x: char, y: char, c: char, text: string)
    requires x != c
    ensures Replaced([x, y], c, text) == [x] + if y == c then text else [y]
  {
    ReplacedConcat([x], [y], c, text);
    assert [x] + [y] == [x, y];
    ReplacedChar(x, c, text);
    ReplacedChar(y, c, text);
  }

  lemma EscapedCharIs(c: char)
    ensures Escaped([c]) == EscapedChar(c)
  {
    hide Replaced;
    assert "\\\\" == ['\\', '\\'] && "\\(" == ['\\', '('] && "\\)" == ['\\', ')'];
    ReplacedChar(c, '\\', "\\\\");
    ReplacedChar(c, '(', "\\(");
    ReplacedChar(c, ')', "\\)");
    ReplacedPair('\\', '\\', '(', "\\(");
    ReplacedPair('\\', '\\', ')', "\\)");
    ReplacedPair('\\', '(', ')', "\\)");
    assert forall x: char, y: char :: [x] + [y] == [x, y];
  }

  /** The replacements act on each character on its own: the backslash comes first. */
  lemma EscapedHead(line: string)
    requires line != ""
    ensures Escaped(line) == EscapedChar(line[0]) + Escaped(line[1..])
  {
    var head, tail := [line[0]], line[1..];
    assert line == head + tail;
    ReplacedConcat(head, tail, '\\', "\\\\");
    ReplacedConcat(Replaced(head, '\\', "\\\\"), Replaced(tail, '\\', "\\\\"), '(', "\\(");
    ReplacedConcat(Replaced(Replaced(head, '\\', "\\\\"), '(', "\\("), Replaced(Replaced(tail, '\\', "\\\\"), '(', "\\("), ')', "\\)");
    EscapedCharIs(line[0]);
  }

  // ----- Reading -----

  predicate Octal(c: char) { '0' <= c <= '7' }

  /** The value and length of an escape sequence, the text following its backslash. */
  function Escape(s: string): (r: (string, nat))
    requires s != ""
    ensures 1 <= r.1 <= |s|
  {
    var c := s[0];
    if c == 'n' then ("\n", 1)
    else if c == 'r' then ("\r", 1)
    else if c == 't' then ("\t", 1)
    else if c == 'b' then ("\U{08}", 1)
    else if c == 'f' then ("\U{0C}", 1)
    else if c == '\r' then ("", if |s| > 1 && s[1] == '\n' then 2 else 1)
    else if c == '\n' then ("", 1)
    else if Octal(c) then
      var k := if |s| > 1 && Octal(s[1]) then (if |s| > 2 && Octal(s[2]) then 3 else 2) else 1;
      ([OctalValue(s[..k])], k)
    else ([c], 1)
  }

  /** High-order overflow of an octal escape is ignored. */
  function OctalValue(s: string): char
    requires forall c :: c in s ==> Octal(c)
  {
    (OctalNumber(s) % 256) as char
  }

  function OctalNumber(s: string): nat
    requires forall c :: c in s ==> Octal(c)
  {
    if s == "" then 0
    else
      var last := s[|s|-1];
      assert last in s && Octal(last);
      8 * OctalNumber(s[..|s|-1]) + ((last as int) - ('0' as int))
  }

  function Prepend(text: string, r: Option<(string, string)>): Option<(string, string)> {
    if r.Some? then Some((text + r.value.0, r.value.1)) else None
  }

  /** Reads a literal string from after its opening parenthesis: its value, and the text after its
      closing one. An end of line counts as a line feed. */
  function Literal(s: string, depth: nat): Option<(string, string)>
    decreases |s|
  {
    if s == "" then None
    else if s[0] == ')' then
      if depth == 0 then Some(("", s[1..])) else Prepend(")", Literal(s[1..], depth - 1))
    else if s[0] == '(' then Prepend("(", Literal(s[1..], depth + 1))
    else if s[0] == '\\' then
      if |s| == 1 then None
      else var (text, length) := Escape(s[1..]); Prepend(text, Literal(s[1..][length..], depth))
    else if s[0] == '\r' then Prepend("\n", Literal(if |s| > 1 && s[1] == '\n' then s[2..] else s[1..], depth))
    else Prepend([s[0]], Literal(s[1..], depth))
  }

  /** What a reader makes of the end-of-line characters of a line. */
  function Normalized(line: string): string
    decreases |line|
  {
    if line == "" then ""
    else if line[0] == '\r' then "\n" + Normalized(if |line| > 1 && line[1] == '\n' then line[2..] else line[1..])
    else [line[0]] + Normalized(line[1..])
  }

  lemma {:induction false} NormalizedIff(line: string)
    ensures Normalized(line) == line <==> '\r' !in line
    ensures '\r' !in Normalized(line)
    decreases |line|
  {
    if line != "" {
      if line[0] == '\r' {
        NormalizedIff(if |line| > 1 && line[1] == '\n' then line[2..] else line[1..]);
        assert Normalized(line)[0] == '\n';
      } else {
        NormalizedIff(line[1..]);
        assert line == [line[0]] + line[1..];
        assert Normalized(line)[1..] == Normalized(line[1..]);
      }
    }
  }

  lemma EscapeReads(c: char, next: string)
    requires c == '\\' || c == '(' || c == ')'
    ensures Literal(['\\', c] + next, 0) == Prepend([c], Literal(next, 0))
  {
    var s := ['\\', c] + next;
    assert s[1..] == [c] + next && s[1..][1..] == next;
  }

  lemma CharReads(c: char, next: string)
    requires c != '\\' && c != '(' && c != ')'
    ensures c != '\r' ==> Literal([c] + next, 0) == Prepend([c], Literal(next, 0))
    ensures c == '\r' && (next == "" || next[0] != '\n') ==> Literal([c] + next, 0) == Prepend("\n", Literal(next, 0))
    ensures c == '\r' && next != "" && next[0] == '\n' ==> Literal([c] + next, 0) == Prepend("\n", Literal(next[1..], 0))
  {
    var s := [c] + next;
    assert s[1..] == next;
    if |s| > 1 { assert s[2..] == next[1..]; }
  }

  /** A line escaped and read back is the line with its ends of line normalized. */
  lemma {:induction false} EscapedReads(line: string, rest: string)
    ensures Literal(Escaped(line) + ")" + rest, 0) == Some((Normalized(line), rest))
    decreases |line|
  {
    var s := Escaped(line) + ")" + rest;
    if line == "" {
      assert Escaped("") == "";
      assert s[1..] == rest;
    } else {
      hide Escaped, Literal;
      var c, tail := line[0], line[1..];
      var next := Escaped(tail) + ")" + rest;
      EscapedHead(line);
      EscapedReads(tail, rest);
      assert s == EscapedChar(c) + next;
      if c == '\\' || c == '(' || c == ')' {
        EscapeReads(c, next);
      } else {
        CharReads(c, next);
        NextChar(tail, rest);
        if c == '\r' && tail != "" && tail[0] == '\n' { EscapedReads(tail[1..], rest); }
      }
    }
  }

  lemma NextChar(tail: string, rest: string)
    ensures var next := Escaped(tail) + ")" + rest;
            && next != "" && (next[0] == '\n' <==> tail != "" && tail[0] == '\n')
            && (tail != "" && tail[0] == '\n' ==> next[1..] == Escaped(tail[1..]) + ")" + rest)
  {
    if tail == "" {
      EscapedEmpty();
    } else {
      EscapedHead(tail);
      hide Escaped;
      var next := Escaped(tail) + ")" + rest;
      assert next[0] == EscapedChar(tail[0])[0];
    }
  }

  lemma EscapedEmpty()
    ensures Escaped("") == ""
  {
  }
}

/** The one-page PDF writer of the examples, and a reader that follows the cross-reference table of
    sections 7.5.4 and 7.5.5 of ISO 32000-1. Bytes stand as characters below 256. */
module PdfWriter {
  import opened FlowGraph
  import opened Decimals
  import opened PdfStrings

  /** The operators before the first line. */
  function Operators(): string { "BT\n/F1 12 Tf\n72 760 Td\n14 TL\n" }

  predicate Latin1(s: string) { forall c :: c in s ==> (c as int) < 256 }

  // ----- What is written -----

  function Show(line: string): string { "(" + Escaped(line) + ") Tj\nT*\n" }

  function ShowUpTo(lines: seq<string>, n: nat): string
    requires n <= |lines|
  {
    if n == 0 then Operators() else ShowUpTo(lines, n - 1) + Show(lines[n - 1])
  }

  function Content(lines: seq<string>): string { ShowUpTo(lines, |lines|) + "ET\n" }

  function Catalog(): (s: string)
    ensures |s| <= 200
  {
    "<< /Type /Catalog /Pages 2 0 R >>"
  }

  function Pages(): (s: string)
    ensures |s| <= 200
  {
    "<< /Type /Pages /Kids [3 0 R] /Count 1 >>"
  }

  function Page(): (s: string)
    ensures |s| <= 200
  {
    "<< /Type /Page /Parent 2 0 R /MediaBox [0 0 612 792] " +
    "/Resources << /Font << /F1 4 0 R >> >> /Contents 5 0 R >>"
  }

  function Font(): (s: string)
    ensures |s| <= 200
  {
    "<< /Type /Font /Subtype /Type1 /BaseFont /Helvetica >>"
  }

  function ContentBody(stream: string): string {
    "<< /Length " + Decimal(|stream|) + " >>\nstream\n" + stream + "\nendstream"
  }

  function Bodies(stream: string): seq<string> { [Catalog(), Pages(), Page(), Font(), ContentBody(stream)] }

  function Heading(n: nat): string { Decimal(n) + " 0 obj\n" }

  function Object(n: nat, body: string): string { Heading(n) + body + "\nendobj\n" }

  /** The file up to and including object n. */
  function UpTo(bodies: seq<string>, n: nat): string
    requires n <= |bodies|
  {
    if n == 0 then "%PDF-1.4\n" else UpTo(bodies, n - 1) + Object(n, bodies[n - 1])
  }

  function Entry(offset: nat): string { Padded(offset, 10) + " 00000 n \n" }

  function Entries(bodies: seq<string>, n: nat): string
    requires n <= |bodies|
  {
    if n == 0 then "" else Entries(bodies, n - 1) + Entry(|UpTo(bodies, n - 1)|)
  }

  /** The entry of the free object 0. */
  function Free(): (s: string)
    ensures |s| == 20
  {
    "0000000000 65535 f \n"
  }

  function TableHeading(size: nat): string { "xref\n0 " + Decimal(size) + "\n" }

  function TrailerHead(size: nat): (s: string)
    ensures s != "" && s[|s|-1] == '\n'
  {
    "trailer\n<< /Size " + Decimal(size) + " /Root 1 0 R >>\nstartxref\n"
  }

  function EndMark(): (s: string)
    ensures |s| == 7
  {
    "\n%%EOF\n"
  }

  function Trailer(size: nat, xrefAt: nat): string { TrailerHead(size) + Decimal(xrefAt) + EndMark() }

  function File(bodies: seq<string>): string {
    var n := |bodies|;
    UpTo(bodies, n) + TableHeading(n + 1) + Free() + Entries(bodies, n) + Trailer(n + 1, |UpTo(bodies, n)|)
  }

  /** The writer's three loops. It fails exactly when a character has no Latin-1 encoding. */
  method BuildPdf(lines: seq<string>) returns (r: Option<string>)
    ensures r == if Latin1(Content(lines)) then Some(File(Bodies(Content(lines)))) else None
  {
    hide Latin1, Bodies, Show, File;
    var content := Operators();
    for i := 0 to |lines|
      invariant content == ShowUpTo(lines, i)
    {
      content := content + Show(lines[i]);
    }
    content := content + "ET\n";
    if !Latin1(content) {
      return None;
    }
    var file := Assemble(Bodies(content));
    return Some(file);
  }

  /** The objects with their offsets kept, then the table of those offsets. */
  method Assemble(objects: seq<string>) returns (out: string)
    ensures out == File(objects)
  {
    hide Entry, Object, TableHeading, Trailer, Free, UpTo, Entries;
    Starts(objects);
    out := "%PDF-1.4\n";
    var offsets: seq<nat> := [];
    for i := 0 to |objects|
      invariant out == UpTo(objects, i) && |offsets| == i
      invariant forall j :: 0 <= j < i ==> offsets[j] == |UpTo(objects, j)|
    {
      OneMore(objects, i, "");
      offsets := offsets + [|out|];
      out := out + Object(i + 1, objects[i]);
    }
    var xrefAt := |out|;
    out := out + TableHeading(|objects| + 1) + Free();
    ghost var before := out;
    for i := 0 to |offsets|
      invariant out == before + Entries(objects, i)
    {
      OneMore(objects, i, before);
      out := out + Entry(offsets[i]);
    }
    out := out + Trailer(|objects| + 1, xrefAt);
  }

  lemma Starts(bodies: seq<string>)
    ensures UpTo(bodies, 0) == "%PDF-1.4\n" && Entries(bodies, 0) == ""
  {
  }

  lemma OneMore(bodies: seq<string>, n: nat, before: string)
    requires n < |bodies|
    ensures UpTo(bodies, n + 1) == UpTo(bodies, n) + Object(n + 1, bodies[n])
    ensures Entries(bodies, n + 1) == Entries(bodies, n) + Entry(|UpTo(bodies, n)|)
    ensures before + Entries(bodies, n + 1) == before + Entries(bodies, n) + Entry(|UpTo(bodies, n)|)
  {
    hide Entry, Object;
  }

  lemma Latin1Concat(a: string, b: string)
    ensures Latin1(a + b) <==> Latin1(a) && Latin1(b)
  {
    if Latin1(a + b) {
      assert forall c :: c in a || c in b ==> c in a + b;
    }
  }

  lemma {:induction false} EscapedLatin1(line: string)
    ensures Latin1(Escaped(line)) <==> Latin1(line)
    decreases |line|
  {
    if line == "" {
      EscapedEmpty();
    } else {
      EscapedHead(line);
      EscapedLatin1(line[1..]);
      hide Escaped;
      Latin1Concat(EscapedChar(line[0]), Escaped(line[1..]));
      Latin1Concat([line[0]], line[1..]);
      assert line == [line[0]] + line[1..] && line[0] in EscapedChar(line[0]);
    }
  }

  lemma ShowLatin1(line: string)
    ensures Latin1(Show(line)) <==> Latin1(line)
  {
    EscapedLatin1(line);
    hide Escaped;
    Latin1Concat("(" + Escaped(line), ") Tj\nT*\n");
    Latin1Concat("(", Escaped(line));
  }

  lemma OperatorsLatin1()
    ensures Latin1(Operators())
  {
  }

  lemma {:induction false} ShownLatin1(lines: seq<string>, n: nat)
    requires n <= |lines|
    ensures Latin1(ShowUpTo(lines, n)) <==> forall i :: 0 <= i < n ==> Latin1(lines[i])
  {
    OperatorsLatin1();
    hide Show, Latin1, Operators;
    if n > 0 {
      ShownLatin1(lines, n - 1);
      ShowLatin1(lines[n - 1]);
      Latin1Concat(ShowUpTo(lines, n - 1), Show(lines[n - 1]));
    }
  }

  /** The content can be encoded exactly when every line can. */
  lemma EncodedIff(lines: seq<string>)
    ensures Latin1(Content(lines)) <==> forall i :: 0 <= i < |lines| ==> Latin1(lines[i])
  {
    ShownLatin1(lines, |lines|);
    Latin1Concat(ShowUpTo(lines, |lines|), "ET\n");
  }

  // ----- Reading -----

  predicate StartsWith(s: string, prefix: string) { |prefix| <= |s| && s[..|prefix|] == prefix }

  predicate AllDigits(s: string) { forall c :: c in s ==> Digit(c) }

  /** Where the run of digits ending at `end` begins. */
  function RunStart(f: string, end: nat): (i: nat)
    requires end <= |f|
    ensures i <= end && AllDigits(f[i..end]) && (i == 0 || !Digit(f[i - 1]))
  {
    if end == 0 || !Digit(f[end - 1]) then end
    else
      var i := RunStart(f, end - 1);
      assert f[i..end] == f[i..end - 1] + [f[end - 1]];
      i
  }

  /** The number before the end-of-file marker. */
  function StartXref(f: string): nat
    requires |f| >= 7
  {
    Number(f[RunStart(f, |f| - 7)..|f| - 7])
  }

  /** The offset in a cross-reference entry of 20 bytes. */
  function ReadEntry(f: string, at: nat): Option<nat> {
    if at + 20 <= |f| && AllDigits(f[at..at + 10]) && f[at + 10..at + 20] == " 00000 n \n"
    then Some(Number(f[at..at + 10])) else None
  }

  /** The text of object n of a file with a table of `size` entries, found through the table. */
  function ObjectText(f: string, size: nat, n: nat): Option<string>
    requires |f| >= 7
  {
    var x := StartXref(f);
    if x > |f| || !StartsWith(f[x..], TableHeading(size)) then None
    else
      var entry := ReadEntry(f, x + |TableHeading(size)| + 20 * n);
      if entry.None? || entry.value > |f| || !StartsWith(f[entry.value..], Heading(n)) then None
      else Some(f[entry.value..][|Heading(n)|..])
  }

  function DigitRun(s: string): (n: nat)
    ensures n <= |s| && AllDigits(s[..n])
  {
    if s == "" || !Digit(s[0]) then 0
    else
      var n := DigitRun(s[1..]);
      assert s[..n + 1] == [s[0]] + s[1..][..n];
      n + 1
  }

  const LENGTH: string := "<< /Length "
  const STREAM: string := " >>\nstream\n"
  const ENDSTREAM: string := "\nendstream"

  /** The stream of an object, by its /Length. */
  function StreamOf(text: string): Option<string> {
    if !StartsWith(text, LENGTH) then None
    else
      var s := text[|LENGTH|..];
      var d := DigitRun(s);
      var length, rest := Number(s[..d]), s[d..];
      if !StartsWith(rest, STREAM) || |rest| < |STREAM| + length || !StartsWith(rest[|STREAM| + length..], ENDSTREAM)
      then None
      else Some(rest[|STREAM|..][..length])
  }

  /** The lines shown by the operators after the first ones. */
  function Shown(s: string): Option<seq<string>>
    decreases |s|
  {
    if s == "ET\n" then Some([])
    else if s == "" || s[0] != '(' then None
    else
      var text := Literal(s[1..], 0);
      if text.None? || |text.value.1| >= |s| || !StartsWith(text.value.1, " Tj\nT*\n") then None
      else
        var rest := Shown(text.value.1[7..]);
        if rest.None? then None else Some([text.value.0] + rest.value)
  }

  function ReadLines(f: string): Option<seq<string>> {
    if |f| < 7 then None
    else
      var text := ObjectText(f, 6, 5);
      if text.None? then None
      else
        var stream := StreamOf(text.value);
        if stream.None? || !StartsWith(stream.value, Operators()) then None
        else Shown(stream.value[|Operators()|..])
  }

  // ----- What the reader finds -----

  /** Offsets have ten digits. */
  ghost predicate Fits(bodies: seq<string>) { forall n :: 0 <= n < |bodies| ==> |UpTo(bodies, n)| < Pow10(10) }

  lemma EntryWidth(offset: nat)
    ensures |Entry(offset)| == 20 <==> offset < Pow10(10)
    ensures offset < Pow10(10) ==> forall rest :: ReadEntry(Entry(offset) + rest, 0) == Some(offset)
  {
    PaddedReads(offset, 10);
    var e := Entry(offset);
    if offset < Pow10(10) {
      forall rest: string ensures ReadEntry(e + rest, 0) == Some(offset) {
        var s := e + rest;
        assert s[0..10] == Padded(offset, 10) && s[10..20] == " 00000 n \n";
      }
    }
  }

  lemma {:induction false} UpToGrows(bodies: seq<string>, n: nat, m: nat)
    requires n <= m <= |bodies|
    ensures StartsWith(UpTo(bodies, m), UpTo(bodies, n))
    decreases m
  {
    if n < m { UpToGrows(bodies, n, m - 1); }
  }

  lemma {:induction false} EntriesGrow(bodies: seq<string>, n: nat, m: nat)
    requires n <= m <= |bodies| && Fits(bodies)
    ensures |Entries(bodies, n)| == 20 * n && StartsWith(Entries(bodies, m), Entries(bodies, n))
    decreases m
  {
    hide Entry, UpTo, Entries;
    Starts(bodies);
    if n < m {
      OneMore(bodies, m - 1, "");
      EntriesGrow(bodies, n, m - 1);
    } else if n > 0 {
      OneMore(bodies, n - 1, "");
      EntriesGrow(bodies, n - 1, m - 1);
      EntryWidth(|UpTo(bodies, n - 1)|);
    }
  }

  /** The offset kept for object n is where its heading stands. */
  lemma ObjectInPlace(bodies: seq<string>, n: nat)
    requires 1 <= n <= |bodies|
    ensures |UpTo(bodies, n - 1)| <= |File(bodies)|
    ensures StartsWith(File(bodies)[|UpTo(bodies, n - 1)|..], Object(n, bodies[n - 1]))
  {
    hide Object, TableHeading, Entries, Trailer;
    var f, before, here := File(bodies), UpTo(bodies, n - 1), UpTo(bodies, n);
    UpToGrows(bodies, n, |bodies|);
    assert StartsWith(f, UpTo(bodies, |bodies|));
    assert f[..|here|] == here;
    assert f[|before|..][..|here| - |before|] == here[|before|..];
  }

  lemma EntryInPlace(bodies: seq<string>, n: nat)
    requires 1 <= n <= |bodies| && Fits(bodies)
    ensures ReadEntry(File(bodies), |UpTo(bodies, |bodies|)| + |TableHeading(|bodies| + 1)| + 20 * n) == Some(|UpTo(bodies, n - 1)|)
  {
    hide Entry, Trailer, TableHeading, Fits, Padded, Free, UpTo, ReadEntry;
    var f, all := File(bodies), Entries(bodies, |bodies|);
    var table := UpTo(bodies, |bodies|) + TableHeading(|bodies| + 1) + Free();
    var rest := Trailer(|bodies| + 1, |UpTo(bodies, |bodies|)|);
    assert f == table + all + rest;
    EntriesGrow(bodies, n - 1, |bodies|);
    EntriesGrow(bodies, n, |bodies|);
    var offset := |UpTo(bodies, n - 1)|;
    assert Fits(bodies) ==> offset < Pow10(10) by { FitsAt(bodies, n - 1); }
    EntryWidth(offset);
    var at := |table| + 20 * (n - 1);
    assert all[20 * (n - 1)..20 * n] == Entry(offset);
    assert f[at..] == Entry(offset) + f[at + 20..];
    EntryShift(f, at);
  }

  lemma FitsAt(bodies: seq<string>, n: nat)
    requires n < |bodies| && Fits(bodies)
    ensures |UpTo(bodies, n)| < Pow10(10)
  {
  }

  lemma EntryShift(f: string, at: nat)
    requires at <= |f|
    ensures ReadEntry(f, at) == ReadEntry(f[at..], 0)
  {
    if at + 20 <= |f| {
      assert f[at..][0..10] == f[at..at + 10] && f[at..][10..20] == f[at + 10..at + 20];
    }
  }

  lemma RunIs(a: string, d: string, rest: string)
    requires a != "" && !Digit(a[|a|-1]) && AllDigits(d)
    ensures RunStart(a + d + rest, |a| + |d|) == |a|
  {
    hide RunStart;
    var f, end := a + d + rest, |a| + |d|;
    var i := RunStart(f, end);
    forall k | i <= k < end ensures Digit(f[k]) { assert f[i..end][k - i] in f[i..end]; }
    forall k | |a| <= k < end ensures Digit(f[k]) { assert d[k - |a|] in d; }
    assert !Digit(f[|a|-1]);
  }

  lemma Middle(a: string, d: string, end: string)
    ensures (a + d + end)[|a|..|a| + |d|] == d
  {
  }

  /** The number before an end mark of seven characters. */
  lemma NumberBeforeEnd(a: string, x: nat, end: string)
    requires a != "" && a[|a|-1] == '\n' && |end| == 7
    ensures StartXref(a + Decimal(x) + end) == x
  {
    var f, d := a + Decimal(x) + end, Decimal(x);
    RunIs(a, d, end);
    Middle(a, d, end);
    NumberOfDecimal(x);
    hide RunStart, Decimal, Number;
    assert |f| - 7 == |a| + |d|;
  }

  /** The file ends with the position of its table. */
  lemma TableIsFound(bodies: seq<string>)
    ensures |File(bodies)| >= 7 && StartXref(File(bodies)) == |UpTo(bodies, |bodies|)| <= |File(bodies)|
    ensures StartsWith(File(bodies)[|UpTo(bodies, |bodies|)|..], TableHeading(|bodies| + 1))
  {
    hide UpTo, Entries, TableHeading, Free, StartXref, Decimal, TrailerHead, EndMark;
    var up, size := UpTo(bodies, |bodies|), |bodies| + 1;
    var heading, rest := TableHeading(size), Free() + Entries(bodies, |bodies|);
    var before := up + heading + Free() + Entries(bodies, |bodies|);
    var a, tail := before + TrailerHead(size), Decimal(|up|) + EndMark();
    assert File(bodies) == a + Decimal(|up|) + EndMark();
    NumberBeforeEnd(a, |up|, EndMark());
    assert File(bodies) == up + (heading + (rest + (TrailerHead(size) + tail)));
    Skips(up, heading, rest + (TrailerHead(size) + tail));
  }

  lemma Skips(a: string, b: string, c: string)
    ensures StartsWith((a + (b + c))[|a|..], b)
  {
    assert (a + (b + c))[|a|..] == b + c;
  }

  /** Every object is found through the table, whatever the objects are, as long as the offsets
      have ten digits. */
  lemma EveryObjectIsFound(bodies: seq<string>, n: nat)
    requires 1 <= n <= |bodies| && Fits(bodies)
    ensures |File(bodies)| >= 7
    ensures var text := ObjectText(File(bodies), |bodies| + 1, n);
            text.Some? && StartsWith(text.value, bodies[n - 1] + "\nendobj\n")
  {
    hide File, UpTo, Fits, TableHeading, Heading, ReadEntry, StartXref;
    TableIsFound(bodies);
    EntryInPlace(bodies, n);
    ObjectInPlace(bodies, n);
    var f, at := File(bodies), |UpTo(bodies, n - 1)|;
    Splitting(f[at..], Heading(n), bodies[n - 1] + "\nendobj\n");
    assert Object(n, bodies[n - 1]) == Heading(n) + (bodies[n - 1] + "\nendobj\n");
  }

  lemma Splitting(s: string, a: string, b: string)
    ensures StartsWith(s, a + b) ==> StartsWith(s, a) && StartsWith(s[|a|..], b)
  {
    if StartsWith(s, a + b) {
      assert s[..|a|] == (a + b)[..|a|] == a;
      assert s[|a|..][..|b|] == s[..|a| + |b|][|a|..] == b;
    }
  }

  lemma {:induction false} DigitRunIs(d: string, rest: string)
    requires AllDigits(d) && (rest == "" || !Digit(rest[0]))
    ensures DigitRun(d + rest) == |d|
    decreases |d|
  {
    if d == "" {
      assert d + rest == rest;
    } else {
      assert d[0] in d;
      assert (d + rest)[1..] == d[1..] + rest;
      DigitRunIs(d[1..], rest);
    }
  }

  /** The /Length of the content object is the size of its stream. */
  lemma StreamIsFound(stream: string, text: string)
    requires StartsWith(text, ContentBody(stream))
    ensures StreamOf(text) == Some(stream)
  {
    hide Decimal, DigitRun;
    var d := Decimal(|stream|);
    var rest := text[|LENGTH| + |d|..];
    Splitting(text, LENGTH + d, STREAM + stream + ENDSTREAM);
    assert ContentBody(stream) == LENGTH + d + (STREAM + stream + ENDSTREAM);
    Splitting(text, LENGTH, d);
    var s := text[|LENGTH|..];
    assert s == d + rest;
    Splitting(rest, STREAM, stream + ENDSTREAM);
    assert STREAM + stream + ENDSTREAM == STREAM + (stream + ENDSTREAM);
    Splitting(rest, STREAM + stream, ENDSTREAM);
    Splitting(rest[|STREAM|..], stream, ENDSTREAM);
    assert rest[0] == STREAM[0];
    DigitRunIs(d, rest);
    NumberOfDecimal(|stream|);
    assert s[..|d|] == d && s[|d|..] == rest;
  }

  function ShowFrom(lines: seq<string>): string {
    if lines == [] then "ET\n" else Show(lines[0]) + ShowFrom(lines[1..])
  }

  lemma {:induction false} ContentIs(lines: seq<string>, n: nat)
    requires n <= |lines|
    ensures Content(lines) == ShowUpTo(lines, n) + ShowFrom(lines[n..])
    decreases |lines| - n
  {
    hide Show;
    if n < |lines| {
      ContentIs(lines, n + 1);
      assert lines[n..][1..] == lines[n + 1..];
    }
  }

  function NormalizedAll(lines: seq<string>): (r: seq<string>)
    ensures |r| == |lines| && forall i :: 0 <= i < |lines| ==> r[i] == Normalized(lines[i])
  {
    seq(|lines|, i requires 0 <= i < |lines| => Normalized(lines[i]))
  }

  lemma ShowReads(line: string, next: string)
    requires Shown(next).Some?
    ensures Shown(Show(line) + next) == Some([Normalized(line)] + Shown(next).value)
  {
    hide Escaped, Literal, Normalized;
    var s, tail := Show(line) + next, " Tj\nT*\n" + next;
    assert s[0] == '(' && s[1..] == Escaped(line) + ")" + tail;
    EscapedReads(line, tail);
    assert tail[7..] == next;
  }

  lemma {:induction false} ShownReads(lines: seq<string>)
    ensures Shown(ShowFrom(lines)) == Some(NormalizedAll(lines))
    decreases |lines|
  {
    if lines != [] {
      ShownReads(lines[1..]);
      hide Show, Shown, Normalized;
      ShowReads(lines[0], ShowFrom(lines[1..]));
      assert NormalizedAll(lines) == [Normalized(lines[0])] + NormalizedAll(lines[1..]);
    }
  }

  /** Following the table of a written file to its page content and undoing the escapes gives the
      lines back with their ends of line normalized: unchanged exactly when none has a carriage
      return. */
  lemma WrittenIsReadBack(lines: seq<string>)
    ensures ReadLines(File(Bodies(Content(lines)))) == Some(NormalizedAll(lines))
    ensures NormalizedAll(lines) == lines <==> forall line :: line in lines ==> '\r' !in line
  {
    hide File, Content, Bodies, ContentBody, Fits, ObjectText, StreamOf, Shown, ShowUpTo;
    var stream := Content(lines);
    var bodies := Bodies(stream);
    FiveBodies(stream);
    OffsetsFit(stream);
    EveryObjectIsFound(bodies, 5);
    var text := ObjectText(File(bodies), 6, 5).value;
    Splitting(text, bodies[4], "\nendobj\n");
    StreamIsFound(stream, text);
    ContentIs(lines, 0);
    NothingShown(lines);
    assert lines[0..] == lines;
    assert stream[|Operators()|..] == ShowFrom(lines);
    ShownReads(lines);
    forall i | 0 <= i < |lines| ensures Normalized(lines[i]) == lines[i] <==> '\r' !in lines[i] { NormalizedIff(lines[i]); }
    assert forall line :: line in lines ==> exists i :: 0 <= i < |lines| && lines[i] == line;
  }

  lemma NothingShown(lines: seq<string>)
    ensures ShowUpTo(lines, 0) == Operators()
  {
  }

  lemma ObjectLength(n: nat, body: string)
    requires n < 10
    ensures |Object(n, body)| == |body| + 16
  {
    assert |Decimal(n)| == 1;
  }

  lemma ShortBodies(stream: string)
    ensures |Bodies(stream)| == 5 && forall i :: 0 <= i < 4 ==> |Bodies(stream)[i]| <= 200
  {
    hide Catalog, Pages, Page, Font, ContentBody;
  }

  /** The stream is in the last object, so no offset depends on it. */
  lemma {:induction false} ShortOffset(bodies: seq<string>, n: nat)
    requires n < |bodies| == 5 && forall i :: 0 <= i < 4 ==> |bodies[i]| <= 200
    ensures |UpTo(bodies, n)| <= 9 + 216 * n
    decreases n
  {
    hide Object;
    if n > 0 {
      ShortOffset(bodies, n - 1);
      ObjectLength(n, bodies[n - 1]);
    }
  }

  lemma TenDigits()
    ensures Pow10(10) == 10_000_000_000
  {
  }

  /** Offsets always have ten digits. */
  lemma OffsetsFit(stream: string)
    ensures Fits(Bodies(stream))
  {
    ShortBodies(stream);
    TenDigits();
    hide UpTo, Bodies, Pow10;
    forall n | 0 <= n < 5 ensures |UpTo(Bodies(stream), n)| < Pow10(10) { ShortOffset(Bodies(stream), n); }
  }

  lemma FiveBodies(stream: string)
    ensures |Bodies(stream)| == 5 && Bodies(stream)[4] == ContentBody(stream)
  {
    hide Catalog, Pages, Page, Font, ContentBody;
  }
}
