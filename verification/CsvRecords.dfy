/** Where the records of a CSV text begin, and a printer of RFC 4180 (section 2) that the parser undoes. */
module CsvRecords {
  import opened Collections
  import opened Csv
  import opened Wrappers

  // ---- Where records begin ----

  /** The index of the first line end outside quotes, or the length of the text. */
  function FirstEnd(text: string, quoted: bool): (n: nat)
    ensures n <= |text|
    ensures n < |text| ==> LineEnd(text[n])
  {
    if text == "" || (!quoted && LineEnd(text[0])) then 0
    else 1 + FirstEnd(text[1..], quoted != (text[0] == '"'))
  }

  lemma {:induction false} FirstEndIsOutside(text: string, quoted: bool)
    requires FirstEnd(text, quoted) < |text|
    ensures var n := FirstEnd(text, quoted);
            Odd(text[..n]) == quoted && (n > 0 ==> text[n - 1] != '\r' || Odd(text[..n - 1]) != quoted)
  {
    var n := FirstEnd(text, quoted);
    if n > 0 {
      FirstEndIsOutside(text[1..], quoted != (text[0] == '"'));
      assert text[..n][1..] == text[1..][..n - 1];
      if n > 1 {
        assert text[..n - 1][1..] == text[1..][..n - 2];
      }
    }
  }

  /** Without a line end outside quotes, no record ends. */
  lemma {:induction false} NoRecordEnds(text: string, p: Parser)
    requires FirstEnd(text, p.quoted) == |text|
    ensures Run(text, p).records == p.records && Run(text, p).recordLine == p.recordLine
    decreases |text|
  {
    if text == "" {
    } else {
      var n := Width(text, p.quoted);
      if n == 2 {
        assert text[2..] == text[1..][1..];
        assert FirstEnd(text[1..], p.quoted != (text[0] == '"')) == |text[1..]|;
      }
      NoRecordEnds(text[n..], Turn(text, p));
    }
  }

  /**
   * Record `k` begins at offset `o`: at the start of the text or after a line end outside quotes, the text before it
   * holds exactly the records before it, what follows begins with it, and its line is one plus the line ends before it.
   */
  ghost predicate BeginsAt(text: string, records: seq<Record>, k: nat, o: nat)
    requires k < |records|
  {
    && o <= |text|
    && Boundary(text, o)
    && records[k].line == 1 + LineEnds(text[..o])
    && Parse(text[..o]) == Ok(records[..k])
    && BeginsWith(text[o..], records[k].fields)
  }

  /** A record may begin there: no quote is open, and no line end is cut. */
  ghost predicate Boundary(text: string, o: nat)
    requires o <= |text|
  {
    && (o > 0 ==> LineEnd(text[o - 1]))
    && !Odd(text[..o])
    && !(0 < o < |text| && text[o - 1] == '\r' && text[o] == '\n')
  }

  ghost predicate BeginsWith(text: string, fields: seq<string>) {
    && Parse(text).Ok? && Parse(text).value != []
    && Parse(text).value[0] == Record(1, fields)
  }

  /** A text with a line end outside quotes, cut there. */
  lemma {:induction false} CutAtFirstEnd(text: string) returns (a: string, e: string, b: string)
    requires FirstEnd(text, false) < |text|
    ensures text == a + e + b && Splits(a, e, b) && FirstEnd(a, false) == |a|
  {
    var n := FirstEnd(text, false);
    a, e := text[..n], if Crlf(text[n..]) then "\r\n" else [text[n]];
    b := text[n + |e|..];
    NoEndBefore(text, false);
    FirstEndIsOutside(text, false);
    if n > 0 && text[n - 1] == '\r' {
      OddBefore(text, n);
    }
  }

  /** A text without line ends outside quotes is one record at most, on line 1. */
  lemma {:induction false} OneRecordAtMost(text: string)
    requires FirstEnd(text, false) == |text| && Parse(text).Ok?
    ensures |Parse(text).value| <= 1
    ensures Parse(text).value != [] ==> Parse(text).value[0].line == 1
  {
    NoRecordEnds(text, START);
  }

  lemma {:induction false} SomewhereLater(text: string, records: seq<Record>, at: nat, a: string, e: string,
                                          b: string, lines: nat, k: nat)
    requires Splits(a, e, b) && Parse(a).Ok? && Parse(b).Ok? && k < |Parse(b).value|
    requires exists o :: BeginsAt(b, Parse(b).value, k, o)
    requires text == a + e + b && at == |Parse(a).value| + k
    requires records == Parse(a).value + Shift(Parse(b).value, lines) && lines == LineEnds(a) + 1
    ensures at < |records| && exists o :: BeginsAt(text, records, at, o)
  {
    var x, y := Parse(a).value, Parse(b).value;
    var o :| BeginsAt(b, y, k, o);
    BeginsLater(text, records, at, |a| + |e| + o, a, e, b, x, y, lines, k, o);
  }

  lemma {:induction false} CutParses(text: string, a: string, e: string, b: string)
    returns (x: seq<Record>, y: seq<Record>)
    requires Splits(a, e, b) && text == a + e + b && Parse(text).Ok?
    ensures Parse(a) == Ok(x) && Parse(b) == Ok(y) && Parse(text) == Ok(x + Shift(y, LineEnds(a) + 1))
  {
    ParsesInTurn(a, e, b);
    x, y := Parse(a).value, Parse(b).value;
  }

  lemma {:induction false} FirstOfCut(text: string, a: string, e: string, b: string, x: seq<Record>, y: seq<Record>)
    requires Splits(a, e, b) && text == a + e + b && FirstEnd(a, false) == |a| && Parse(a) == Ok(x) && x != []
    requires Parse(text) == Ok(x + Shift(y, LineEnds(a) + 1))
    ensures |x| == 1 && BeginsAt(text, Parse(text).value, 0, 0)
  {
    OneRecordAtMost(a);
    assert Parse(text).value[0] == x[0];
    BeginsAtStart(text);
  }

  /** Every record begins somewhere, on the line it says. */
  lemma {:induction false} RecordsBegin(text: string, k: nat)
    requires Parse(text).Ok? && k < |Parse(text).value|
    ensures exists o :: BeginsAt(text, Parse(text).value, k, o)
    decreases |text|
  {
    if FirstEnd(text, false) == |text| {
      OneRecordAtMost(text);
      BeginsAtStart(text);
    } else {
      var a, e, b := CutAtFirstEnd(text);
      var x, y := CutParses(text, a, e, b);
      if k < |x| {
        FirstOfCut(text, a, e, b, x, y);
      } else {
        RecordsBegin(b, k - |x|);
        SomewhereLater(text, Parse(text).value, k, a, e, b, LineEnds(a) + 1, k - |x|);
      }
    }
  }

  lemma {:induction false} NoEndBefore(text: string, quoted: bool)
    ensures var a := text[..FirstEnd(text, quoted)]; FirstEnd(a, quoted) == |a|
  {
    var n := FirstEnd(text, quoted);
    if n > 0 {
      NoEndBefore(text[1..], quoted != (text[0] == '"'));
      assert text[..n][1..] == text[1..][..n - 1];
    }
  }

  lemma {:induction false} OddBefore(text: string, n: nat)
    requires 0 < n <= |text| && text[n - 1] == '\r'
    ensures Odd(text[..n - 1]) == Odd(text[..n])
  {
    assert text[..n] == text[..n - 1] + [text[n - 1]];
    QuotesInTurn(text[..n - 1], [text[n - 1]]);
  }

  lemma {:induction false} BeginsAtStart(text: string)
    requires Parse(text).Ok? && Parse(text).value != [] && Parse(text).value[0].line == 1
    ensures BeginsAt(text, Parse(text).value, 0, 0)
  {
    assert text[..0] == "" && text[0..] == text;
    assert Parse("") == Ok([]);
  }

  /** The parts of a text at a line end, one after the other. */
  predicate Splits(a: string, e: string, b: string) {
    && IsLineEnd(e) && !Odd(a)
    && (a != "" ==> a[|a| - 1] != '\r')
    && (b != "" && e == "\r" ==> b[0] != '\n')
  }

  lemma {:induction false} CountsInTurn(a: string, e: string, b: string)
    requires Splits(a, e, b)
    ensures Odd(a + e + b) == Odd(b)
    ensures LineEnds(a + e + b) == LineEnds(a) + 1 + LineEnds(b)
  {
    var head := a + e;
    CountsOfHead(a, e, head);
    QuotesInTurn(head, b);
    LineEndsInTurn(head, b);
  }

  lemma {:induction false} CountsOfHead(a: string, e: string, head: string)
    requires IsLineEnd(e) && !Odd(a) && (a != "" ==> a[|a| - 1] != '\r') && head == a + e
    ensures !Odd(head) && LineEnds(head) == LineEnds(a) + 1
    ensures head != "" && head[|head| - 1] == e[|e| - 1]
  {
    LineEndsOf(e);
    QuotesInTurn(a, e);
    LineEndsInTurn(a, e);
  }

  /** Record `k` of the rest, which begins at offset `o` there, is record `row` of the text, and begins at `at`. */
  lemma {:induction false} BeginsLater(text: string, records: seq<Record>, row: nat, at: nat, a: string, e: string,
                                       b: string, x: seq<Record>, y: seq<Record>, lines: nat, k: nat, o: nat)
    requires Splits(a, e, b) && Parse(a) == Ok(x) && k < |y| && BeginsAt(b, y, k, o) && text == a + e + b
    requires records == x + Shift(y, lines) && lines == LineEnds(a) + 1
    requires row == |x| + k < |records| && at == |a| + |e| + o
    ensures BeginsAt(text, records, row, at)
  {
    var head := a + e + b[..o];
    CutsLater(text, at, head, a, e, b, o);
    PrefixLater(head, records, row, a, e, b[..o], x, y, lines, k);
    LineLater(head, records, row, a, e, b[..o], x, y, lines, k);
  }

  lemma {:induction false} CutsLater(text: string, at: nat, head: string, a: string, e: string, b: string, o: nat)
    requires Splits(a, e, b) && o <= |b| && Boundary(b, o) && text == a + e + b && at == |a| + |e| + o
    requires head == a + e + b[..o]
    ensures at <= |text| && text[..at] == head && text[at..] == b[o..] && !Odd(head) && Splits(a, e, b[..o])
  {
    CountsInTurn(a, e, b[..o]);
  }

  lemma {:induction false} PrefixLater(head: string, records: seq<Record>, row: nat, a: string, e: string, b: string,
                    x: seq<Record>, y: seq<Record>, lines: nat, k: nat)
    requires Splits(a, e, b) && Parse(a) == Ok(x) && k < |y| && Parse(b) == Ok(y[..k]) && row == |x| + k < |records|
    requires head == a + e + b && records == x + Shift(y, lines) && lines == LineEnds(a) + 1
    ensures Parse(head) == Ok(records[..row])
  {
    ParsesInTurn(a, e, b);
    TakesInTurn(x, y, k, lines);
  }

  lemma {:induction false} LineLater(head: string, records: seq<Record>, row: nat, a: string, e: string, b: string,
                  x: seq<Record>, y: seq<Record>, lines: nat, k: nat)
    requires Splits(a, e, b) && k < |y| && y[k].line == 1 + LineEnds(b) && row == |x| + k < |records|
    requires head == a + e + b && records == x + Shift(y, lines) && lines == LineEnds(a) + 1
    ensures records[row].line == 1 + LineEnds(head) && records[row].fields == y[k].fields
  {
    CountsInTurn(a, e, b);
    TakesInTurn(x, y, k, lines);
  }

  lemma {:induction false} TakesInTurn(a: seq<Record>, b: seq<Record>, k: nat, lines: nat)
    requires k < |b|
    ensures (a + Shift(b, lines))[..|a| + k] == a + Shift(b[..k], lines)
    ensures (a + Shift(b, lines))[|a| + k] == Record(b[k].line + lines, b[k].fields)
  {
  }

  // ---- The printer ----

  /** A field and whether it goes in quotes. */
  datatype PrintedField = PrintedField(value: string, quoted: bool)

  /** A record and the line end after it. */
  datatype PrintedRecord = PrintedRecord(fields: seq<PrintedField>, end: string)

  predicate Special(c: char) { c == '"' || c == ',' || LineEnd(c) }

  /** A field with a quote, a comma or a line break must go in quotes; any other may. */
  predicate CanPrint(f: PrintedField) {
    f.quoted || forall i | 0 <= i < |f.value| :: !Special(f.value[i])
  }

  predicate Printable(r: PrintedRecord) {
    && r.fields != [] && r.end in {"\n", "\r\n"}
    && forall i | 0 <= i < |r.fields| :: CanPrint(r.fields[i])
  }

  function Escape(value: string): string {
    if value == "" then "" else (if value[0] == '"' then "\"\"" else [value[0]]) + Escape(value[1..])
  }

  function PrintField(f: PrintedField): string {
    if f.quoted then "\"" + (Escape(f.value) + "\"") else f.value
  }

  function PrintFields(fields: seq<PrintedField>): string
    requires fields != []
  {
    if |fields| == 1 then PrintField(fields[0]) else PrintField(fields[0]) + ("," + PrintFields(fields[1..]))
  }

  /** The records, each with its line end; the last one only when the file is `closed`. */
  function Print(records: seq<PrintedRecord>, closed: bool): string
    requires forall i | 0 <= i < |records| :: Printable(records[i])
  {
    if records == [] then ""
    else
      assert Printable(records[0]);
      if |records| == 1 && !closed then PrintFields(records[0].fields)
      else PrintFields(records[0].fields) + records[0].end + Print(records[1..], closed)
  }

  function Values(fields: seq<PrintedField>): (values: seq<string>)
    ensures |values| == |fields|
  {
    if fields == [] then [] else [fields[0].value] + Values(fields[1..])
  }

  /** The line breaks inside the fields of a record. */
  function Breaks(fields: seq<PrintedField>): nat {
    if fields == [] then 0 else LineEnds(fields[0].value) + Breaks(fields[1..])
  }

  /** The records printed, each with the line where it was printed. */
  function Printed(records: seq<PrintedRecord>, line: nat): seq<Record> {
    if records == [] then []
    else [Record(line, Values(records[0].fields))] + Printed(records[1..], line + Breaks(records[0].fields) + 1)
  }

  /** Without the records of a single empty field, which print as an empty line. */
  function NotBlank(records: seq<Record>): seq<Record> {
    if records == [] then []
    else (if records[0].fields == [""] then [] else [records[0]]) + NotBlank(records[1..])
  }

  // ---- What the parser makes of each piece ----

  lemma {:induction false} ReadsPlain(value: string, p: Parser)
    requires !p.quoted && forall i | 0 <= i < |value| :: !Special(value[i])
    ensures Run(value, p) == p.(field := p.field + value)
    ensures LineEnds(value) == 0
    decreases |value|
  {
    if value == "" {
      assert p.field + value == p.field;
    } else {
      ReadsPlain(value[1..], Turn(value, p));
      assert p.field + [value[0]] + value[1..] == p.field + value;
    }
  }

  /** The parser after a part of a quoted field. */
  function Inside(p: Parser, text: string, lines: nat): Parser { p.(field := p.field + text, line := p.line + lines) }

  lemma {:induction false} StepQuote(rest: string, p: Parser)
    requires p.quoted
    ensures Run("\"\"" + rest, p) == Run(rest, Inside(p, "\"", 0))
  {
    assert ("\"\"" + rest)[2..] == rest;
  }

  lemma {:induction false} StepChar(c: char, rest: string, p: Parser)
    requires p.quoted && c != '"' && rest != "" && !(c == '\r' && rest[0] == '\n')
    ensures Run([c] + rest, p) == Run(rest, Inside(p, [c], if LineEnd(c) then 1 else 0))
  {
    var text := [c] + rest;
    assert text[1..] == rest && text[..1] == [c];
  }

  /** The parser after the whole field and its closing quote. */
  function Closed(p: Parser, value: string, lines: nat): Parser { Inside(p, value, lines).(quoted := false) }

  lemma {:induction false} InsideInTurn(p: Parser, first: string, rest: string, a: nat, b: nat)
    ensures Closed(Inside(p, first, a), rest, b) == Closed(p, first + rest, a + b)
  {
    assert p.field + first + rest == p.field + (first + rest);
  }

  lemma {:induction false} EscapeOfFirst(value: string)
    requires value != ""
    ensures Escape(value) + "\"" == (if value[0] == '"' then "\"\"" else [value[0]]) + (Escape(value[1..]) + "\"")
  {
    Regrouped(if value[0] == '"' then "\"\"" else [value[0]], Escape(value[1..]), "\"");
  }

  lemma {:induction false} EscapeOfCrlf(value: string)
    requires Crlf(value)
    ensures Escape(value) + "\"" == "\r\n" + (Escape(value[2..]) + "\"")
  {
    var rest := value[1..];
    assert rest[0] == '\n' && rest[1..] == value[2..];
    assert Escape(rest) == "\n" + Escape(value[2..]);
    assert Escape(value) == "\r" + ("\n" + Escape(value[2..]));
    assert Escape(value) == "\r\n" + Escape(value[2..]);
    Regrouped("\r\n", Escape(value[2..]), "\"");
  }

  lemma {:induction false} ReadsQuoted(value: string, p: Parser)
    requires p.quoted
    ensures Run(Escape(value) + "\"", p) == Closed(p, value, LineEnds(value))
    decreases |value|, 1
  {
    if value == "" {
      assert ("\"")[1..] == "" && p.field + value == p.field;
    } else {
      if Crlf(value) {
        EscapeOfCrlf(value);
        ReadsQuoted(value[2..], Inside(p, "\r\n", 1));
        InsideInTurn(p, "\r\n", value[2..], 1, LineEnds(value[2..]));
        assert "\r\n" + value[2..] == value;
      } else {
        ReadsAfterOne(value, p);
      }
    }
  }

  lemma {:induction false} ReadsAfterOne(value: string, p: Parser)
    requires p.quoted && value != "" && !Crlf(value)
    ensures Run(Escape(value) + "\"", p) == Closed(p, value, LineEnds(value))
    decreases |value|, 0
  {
    var c, rest, lines := value[0], value[1..], if LineEnd(value[0]) then 1 else 0;
    EscapeOfFirst(value);
    if c == '"' {
      StepQuote(Escape(rest) + "\"", p);
    } else {
      StepChar(c, Escape(rest) + "\"", p);
    }
    ReadsQuoted(rest, Inside(p, [c], lines));
    InsideInTurn(p, [c], rest, lines, LineEnds(rest));
    assert [c] + rest == value;
  }

  lemma {:induction false} ReadsField(f: PrintedField, p: Parser)
    requires !p.quoted && p.field == "" && CanPrint(f)
    ensures Run(PrintField(f), p) == p.(field := f.value, line := p.line + LineEnds(f.value))
  {
    assert "" + f.value == f.value;
    if f.quoted {
      var text := PrintField(f);
      assert text[1..] == Escape(f.value) + "\"";
      ReadsQuoted(f.value, p.(quoted := true));
    } else {
      ReadsPlain(f.value, p);
    }
  }

  /** The parser after some fields: the last one is still open. */
  function WithFields(p: Parser, values: seq<string>, breaks: nat): Parser
    requires values != []
  {
    p.(fields := p.fields + values[..|values| - 1], field := values[|values| - 1], line := p.line + breaks)
  }

  lemma {:induction false} ReadsComma(text: string, rest: string, p: Parser, q: Parser)
    requires Run(text, p) == q && !q.quoted
    ensures Run(text + ("," + rest), p) == Run(rest, q.(fields := q.fields + [q.field], field := ""))
  {
    RunsInTurn(text, "," + rest, p);
    assert ("," + rest)[1..] == rest;
  }

  /** The parser after the first of several fields and the comma. */
  function AfterComma(p: Parser, value: string): Parser {
    p.(fields := p.fields + [value], field := "", line := p.line + LineEnds(value))
  }

  lemma {:induction false} ReadsFirst(first: PrintedField, rest: string, p: Parser)
    requires !p.quoted && p.field == "" && CanPrint(first)
    ensures Run(PrintField(first) + ("," + rest), p) == Run(rest, AfterComma(p, first.value))
  {
    ReadsField(first, p);
    ReadsComma(PrintField(first), rest, p, p.(field := first.value, line := p.line + LineEnds(first.value)));
  }

  /** The first of several fields, and the rest as they are read after it. */
  lemma {:induction false} ReadsBoth(first: PrintedField, rest: string, p: Parser, values: seq<string>, breaks: nat)
    requires !p.quoted && p.field == "" && CanPrint(first) && values != []
    requires Run(rest, AfterComma(p, first.value)) == WithFields(AfterComma(p, first.value), values, breaks)
    ensures Run(PrintField(first) + ("," + rest), p) ==
              WithFields(p, [first.value] + values, LineEnds(first.value) + breaks)
  {
    ReadsFirst(first, rest, p);
  }

  /** Reading some fields, as a whole. */
  predicate Reads(fields: seq<PrintedField>, p: Parser)
    requires fields != []
  {
    Run(PrintFields(fields), p) == WithFields(p, Values(fields), Breaks(fields))
  }

  lemma {:induction false} ReadsMore(first: PrintedField, rest: seq<PrintedField>, p: Parser)
    requires rest != [] && CanPrint(first) && !p.quoted && p.field == "" && Reads(rest, AfterComma(p, first.value))
    ensures Reads([first] + rest, p)
  {
    assert ([first] + rest)[1..] == rest;
    ReadsBoth(first, PrintFields(rest), p, Values(rest), Breaks(rest));
  }

  lemma {:induction false} ReadsOne(f: PrintedField, p: Parser)
    requires CanPrint(f) && !p.quoted && p.field == ""
    ensures Reads([f], p)
  {
    ReadsOnly(f, p);
    assert [f][1..] == [];
    assert Values([f]) == [f.value] && Breaks([f]) == LineEnds(f.value);
  }

  lemma {:induction false} ReadsFields(fields: seq<PrintedField>, p: Parser)
    requires fields != [] && forall i | 0 <= i < |fields| :: CanPrint(fields[i])
    requires !p.quoted && p.field == ""
    ensures Reads(fields, p)
  {
    var first, rest := fields[0], fields[1..];
    if rest == [] {
      ReadsOne(first, p);
      assert fields == [first];
    } else {
      ReadsFields(rest, AfterComma(p, first.value));
      ReadsMore(first, rest, p);
      assert fields == [first] + rest;
    }
  }

  lemma {:induction false} ReadsOnly(f: PrintedField, p: Parser)
    requires !p.quoted && p.field == "" && CanPrint(f)
    ensures Run(PrintField(f), p) == WithFields(p, [f.value], LineEnds(f.value))
  {
    ReadsField(f, p);
  }

  /** One printed record, alone. */
  lemma {:induction false} ParsesOne(fields: seq<PrintedField>)
    requires fields != [] && forall i | 0 <= i < |fields| :: CanPrint(fields[i])
    ensures Parse(PrintFields(fields)) == Ok(NotBlank([Record(1, Values(fields))]))
    ensures !Odd(PrintFields(fields)) && LineEnds(PrintFields(fields)) == Breaks(fields)
  {
    var text, values := PrintFields(fields), Values(fields);
    ReadsFields(fields, START);
    LastIsQuoted(text, START);
    CountsLines(text, START);
    FinishesFields(values, Breaks(fields));
  }

  lemma {:induction false} FinishesFields(values: seq<string>, breaks: nat)
    requires values != []
    ensures Finish(WithFields(START, values, breaks)) == NotBlank([Record(1, values)])
  {
    var p := WithFields(START, values, breaks);
    assert p.fields + [p.field] == values;
    assert [Record(1, values)][1..] == [];
  }

  lemma {:induction false} PrintedEdges(fields: seq<PrintedField>)
    requires fields != [] && forall i | 0 <= i < |fields| :: CanPrint(fields[i])
    ensures var text := PrintFields(fields); text != "" ==> !LineEnd(text[0]) && !LineEnd(text[|text| - 1])
  {
    var text := PrintField(fields[0]);
    assert text != "" ==> !LineEnd(text[0]) && !LineEnd(text[|text| - 1]);
    if |fields| > 1 {
      PrintedEdges(fields[1..]);
    }
  }

  lemma {:induction false} PrintedLater(records: seq<PrintedRecord>, line: nat, lines: nat)
    ensures Shift(NotBlank(Printed(records, line)), lines) == NotBlank(Printed(records, line + lines))
  {
    if records == [] {
    } else {
      var next := line + Breaks(records[0].fields) + 1;
      PrintedLater(records[1..], next, lines);
      FirstLater(Record(line, Values(records[0].fields)), Printed(records[1..], next),
          Printed(records[1..], next + lines), lines);
    }
  }

  lemma {:induction false} FirstLater(first: Record, rest: seq<Record>, later: seq<Record>, lines: nat)
    requires Shift(NotBlank(rest), lines) == NotBlank(later)
    ensures Shift(NotBlank([first] + rest), lines) == NotBlank([Record(first.line + lines, first.fields)] + later)
  {
    ShiftBoth(NotBlank([first]), NotBlank(rest), lines);
  }

  lemma {:induction false} ShiftBoth(a: seq<Record>, b: seq<Record>, lines: nat)
    ensures Shift(a + b, lines) == Shift(a, lines) + Shift(b, lines)
  {
  }

  /** A printed record, its line end, and a text that parses on its own. */
  lemma {:induction false} ParsesFirst(r: PrintedRecord, b: string, rest: seq<Record>)
    requires Printable(r) && Parse(b) == Ok(rest)
    ensures Parse(PrintFields(r.fields) + r.end + b) ==
              Ok(NotBlank([Record(1, Values(r.fields))]) + Shift(rest, Breaks(r.fields) + 1))
  {
    ParsesOne(r.fields);
    PrintedEdges(r.fields);
    ParsesInTurn(PrintFields(r.fields), r.end, b);
  }

  /** The first record and the rest, each on its line. */
  lemma {:induction false} PrintedFirst(r: PrintedRecord, rest: seq<PrintedRecord>)
    ensures NotBlank(Printed([r] + rest, 1))
         == NotBlank([Record(1, Values(r.fields))]) + Shift(NotBlank(Printed(rest, 1)), Breaks(r.fields) + 1)
  {
    assert ([r] + rest)[1..] == rest;
    PrintedLater(rest, 1, Breaks(r.fields) + 1);
  }

  lemma {:induction false} ParsesBoth(r: PrintedRecord, b: string, rest: seq<PrintedRecord>)
    requires Printable(r) && Parse(b) == Ok(NotBlank(Printed(rest, 1)))
    ensures Parse(PrintFields(r.fields) + r.end + b) == Ok(NotBlank(Printed([r] + rest, 1)))
  {
    ParsesFirst(r, b, NotBlank(Printed(rest, 1)));
    PrintedFirst(r, rest);
  }

  lemma {:induction false} ParsesLast(r: PrintedRecord)
    requires Printable(r)
    ensures Parse(PrintFields(r.fields)) == Ok(NotBlank(Printed([r], 1)))
  {
    ParsesOne(r.fields);
    assert Printed([], 2 + Breaks(r.fields)) == [] && [r][1..] == [];
  }

  /**
   * Parsing undoes printing: whatever quotes the printer adds beyond those needed, whichever line ends it writes and
   * whether or not it ends the last line, the parser gives back every record but the blank ones, with its line.
   */
  lemma {:induction false} ParsesWhatWasPrinted(records: seq<PrintedRecord>, closed: bool)
    requires forall i | 0 <= i < |records| :: Printable(records[i])
    ensures Parse(Print(records, closed)) == Ok(NotBlank(Printed(records, 1)))
  {
    if records == [] {
      assert Parse("") == Ok([]);
    } else {
      var r, rest := records[0], records[1..];
      assert records == [r] + rest && Printable(r);
      if rest == [] && !closed {
        ParsesLast(r);
      } else {
        ParsesWhatWasPrinted(rest, closed);
        ParsesBoth(r, Print(rest, closed), rest);
      }
    }
  }
}
