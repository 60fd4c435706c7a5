/**
 * The RFC 4180 parser (src/platform/files/csv.ts): one loop over the text, specified by a function that runs the same
 * automaton over what is left of it.
 */
module Csv {
  import opened Wrappers

  /** Its fields, and which line of the text it starts on: the first one is line 1. */
  datatype Record = Record(line: nat, fields: seq<string>)

  datatype MalformedCsv = MalformedCsv

  datatype Parser = Parser(
    records: seq<Record>,
    fields: seq<string>,
    field: string,
    quoted: bool,
    line: nat,
    recordLine: nat)

  const START: Parser := Parser([], [], "", false, 1, 1)

  predicate LineEnd(c: char) { c == '\n' || c == '\r' }

  /** The text begins with CRLF. */
  predicate Crlf(text: string) { |text| > 1 && text[0] == '\r' && text[1] == '\n' }

  /** Ends the current record; an empty line is no record. */
  function EndRecord(p: Parser): Parser {
    var fields := p.fields + [p.field];
    p.(records := p.records + (if fields != [""] then [Record(p.recordLine, fields)] else []),
       fields := [],
       field := "")
  }

  /** How many characters the next turn takes: two for CRLF, and for a doubled quote inside a quoted field. */
  function Width(text: string, quoted: bool): (n: nat)
    requires text != ""
    ensures 1 <= n <= |text|
  {
    if Crlf(text) || (quoted && |text| > 1 && text[0] == '"' && text[1] == '"') then 2 else 1
  }

  /** One turn of the loop. */
  function Turn(text: string, p: Parser): Parser
    requires text != ""
  {
    var c := text[0];
    if p.quoted then
      if c == '"' then if Width(text, true) == 2 then p.(field := p.field + ['"']) else p.(quoted := false)
      else p.(field := p.field + text[..Width(text, true)], line := if LineEnd(c) then p.line + 1 else p.line)
    else if c == '"' then p.(quoted := true)
    else if c == ',' then p.(fields := p.fields + [p.field], field := "")
    else if LineEnd(c) then EndRecord(p).(line := p.line + 1, recordLine := p.line + 1)
    else p.(field := p.field + [c])
  }

  /** The parser after the whole text. */
  function Run(text: string, p: Parser): Parser
    decreases |text|
  {
    if text == "" then p else Run(text[Width(text, p.quoted)..], Turn(text, p))
  }

  /** What ends with the text ends the last record. */
  function Finish(p: Parser): seq<Record> {
    if p.field != "" || p.fields != [] then EndRecord(p).records else p.records
  }

  function Parse(text: string): Result<seq<Record>, MalformedCsv> {
    var p := Run(text, START);
    if p.quoted then Err(MalformedCsv) else Ok(Finish(p))
  }

  method ParseCsv(text: string) returns (r: Result<seq<Record>, MalformedCsv>)
    ensures r == Parse(text)
  {
    var records: seq<Record> := [];
    var fields: seq<string> := [];
    var field := "";
    var quoted := false;
    var line, recordLine := 1, 1;
    var i := 0;
    while i < |text|
      invariant 0 <= i <= |text|
      invariant Run(text[i..], Parser(records, fields, field, quoted, line, recordLine)) == Run(text, START)
    {
      ghost var rest := text[i..];
      ghost var before := Parser(records, fields, field, quoted, line, recordLine);
      var c := text[i];
      var lineEnd := c == '\n' || c == '\r';
      var crlf := c == '\r' && i + 1 < |text| && text[i + 1] == '\n';
      ghost var was := i;
      if quoted {
        if c == '"' && i + 1 < |text| && text[i + 1] == '"' {
          field := field + ['"'];
          i := i + 2;
        } else {
          if c == '"' {
            quoted := false;
          } else {
            field := field + if crlf then "\r\n" else [c];
            assert rest[..Width(rest, true)] == if crlf then "\r\n" else [c];
            if lineEnd {
              line := line + 1;
            }
          }
          i := i + if crlf then 2 else 1;
        }
      } else {
        if c == '"' {
          quoted := true;
        } else if c == ',' {
          fields := fields + [field];
          field := "";
        } else if lineEnd {
          fields := fields + [field];
          if |fields| > 1 || fields[0] != "" {
            records := records + [Record(recordLine, fields)];
          }
          fields := [];
          field := "";
          line := line + 1;
          recordLine := line;
          if crlf {
            i := i + 1;
          }
        } else {
          field := field + [c];
        }
        i := i + 1;
      }
      assert i - was == Width(rest, before.quoted);
      assert text[i..] == rest[Width(rest, before.quoted)..];
      assert Parser(records, fields, field, quoted, line, recordLine) == Turn(rest, before);
    }
    assert text[i..] == "";
    if quoted {
      return Err(MalformedCsv);
    }
    if field != "" || fields != [] {
      fields := fields + [field];
      if |fields| > 1 || fields[0] != "" {
        records := records + [Record(recordLine, fields)];
      }
    }
    return Ok(records);
  }

  // ---- Quotes and line ends ----

  function Quotes(text: string): nat {
    if text == "" then 0 else (if text[0] == '"' then 1 else 0) + Quotes(text[1..])
  }

  /** The line ends of a text: LF, CR, or both as one. */
  function LineEnds(text: string): nat
    decreases |text|
  {
    if text == "" then 0
    else if Crlf(text) then 1 + LineEnds(text[2..])
    else (if LineEnd(text[0]) then 1 else 0) + LineEnds(text[1..])
  }

  predicate Odd(text: string) { Quotes(text) % 2 == 1 }

  /** The quotes one turn takes: one that opens or closes, or two that stand for one. */
  lemma {:induction false} QuotesOfTurn(text: string, p: Parser)
    requires text != ""
    ensures Odd(text) <==> (Odd(text[Width(text, p.quoted)..]) != (Turn(text, p).quoted != p.quoted))
  {
    if Width(text, p.quoted) == 2 {
      assert text[2..] == text[1..][1..];
      assert Quotes(text[1..]) == (if text[1] == '"' then 1 else 0) + Quotes(text[2..]);
    }
  }

  lemma {:induction false} LastIsQuoted(text: string, p: Parser)
    ensures Run(text, p).quoted <==> (p.quoted != Odd(text))
    decreases |text|
  {
    if text == "" {
      assert !Odd(text);
    } else {
      var rest, next := text[Width(text, p.quoted)..], Turn(text, p);
      QuotesOfTurn(text, p);
      LastIsQuoted(rest, next);
      assert Run(text, p) == Run(rest, next);
    }
  }

  /** The text is malformed exactly when it has an odd number of quotes. */
  lemma {:induction false} FailsOnOddQuotes(text: string)
    ensures Parse(text).Err? <==> Odd(text)
  {
    LastIsQuoted(text, START);
  }

  lemma {:induction false} CountsLines(text: string, p: Parser)
    ensures Run(text, p).line == p.line + LineEnds(text)
    decreases |text|
  {
    if text == "" {
    } else {
      var n := Width(text, p.quoted);
      CountsLines(text[n..], Turn(text, p));
      if n == 2 {
        assert text[2..] == text[1..][1..];
      }
    }
  }

  // ---- The lines of the records ----

  predicate LinesAscend(records: seq<Record>) {
    forall i, j | 0 <= i < j < |records| :: records[i].line < records[j].line
  }

  /** The records so far are of lines before the one at hand, each of a later line than those before it. */
  predicate InOrder(p: Parser) {
    && LinesAscend(p.records)
    && (forall i | 0 <= i < |p.records| :: 1 <= p.records[i].line < p.recordLine)
    && 1 <= p.recordLine <= p.line
  }

  lemma {:induction false} TurnKeepsOrder(text: string, p: Parser)
    requires text != "" && InOrder(p)
    ensures InOrder(Turn(text, p))
  {
  }

  lemma {:induction false} RunKeepsOrder(text: string, p: Parser)
    requires InOrder(p)
    ensures InOrder(Run(text, p))
    decreases |text|
  {
    if text == "" {
    } else {
      TurnKeepsOrder(text, p);
      RunKeepsOrder(text[Width(text, p.quoted)..], Turn(text, p));
    }
  }

  /** The records of any text are of lines that strictly ascend, from line 1 on. */
  lemma {:induction false} RecordsAscend(text: string)
    requires Parse(text).Ok?
    ensures LinesAscend(Parse(text).value)
    ensures forall i | 0 <= i < |Parse(text).value| :: 1 <= Parse(text).value[i].line
  {
    RunKeepsOrder(text, START);
  }

  // ---- Texts one after the other ----

  /** No pair of characters that the parser takes together lies across the end of `a`. */
  predicate Apart(a: string, b: string) {
    a != "" && b != "" ==>
      var last := a[|a| - 1];
      !(last == '\r' && b[0] == '\n') && !(last == '"' && b[0] == '"')
  }

  lemma {:induction false} RunsInTurn(a: string, b: string, p: Parser)
    requires Apart(a, b)
    ensures Run(a + b, p) == Run(b, Run(a, p))
    decreases |a|
  {
    if a == "" {
      assert a + b == b;
    } else {
      var n := Width(a, p.quoted);
      assert Width(a + b, p.quoted) == n;
      assert (a + b)[..n] == a[..n];
      assert Turn(a + b, p) == Turn(a, p);
      assert (a + b)[n..] == a[n..] + b;
      RunsInTurn(a[n..], b, Turn(a, p));
    }
  }

  lemma {:induction false} LineEndsInTurn(a: string, b: string)
    requires !(a != "" && b != "" && a[|a| - 1] == '\r' && b[0] == '\n')
    ensures LineEnds(a + b) == LineEnds(a) + LineEnds(b)
    decreases |a|
  {
    if a == "" {
      assert a + b == b;
    } else {
      var n := if Crlf(a) then 2 else 1;
      assert (a + b)[n..] == a[n..] + b;
      LineEndsInTurn(a[n..], b);
    }
  }

  lemma {:induction false} QuotesInTurn(a: string, b: string)
    ensures Quotes(a + b) == Quotes(a) + Quotes(b)
  {
    if a == "" {
      assert a + b == b;
    } else {
      assert (a + b)[1..] == a[1..] + b;
      QuotesInTurn(a[1..], b);
    }
  }

  function Shift(records: seq<Record>, lines: nat): (shifted: seq<Record>)
    ensures |shifted| == |records|
    ensures forall i | 0 <= i < |records| :: shifted[i] == Record(records[i].line + lines, records[i].fields)
  {
    seq(|records|, i requires 0 <= i < |records| => Record(records[i].line + lines, records[i].fields))
  }

  /** The parser with more records and more lines before it. */
  function Later(p: Parser, before: seq<Record>, lines: nat): Parser {
    p.(records := before + Shift(p.records, lines), line := p.line + lines, recordLine := p.recordLine + lines)
  }

  lemma {:induction false} LaterRecord(p: Parser, before: seq<Record>, lines: nat)
    ensures EndRecord(Later(p, before, lines)) == Later(EndRecord(p), before, lines)
  {
    var fields := p.fields + [p.field];
    var more := if fields != [""] then [Record(p.recordLine, fields)] else [];
    assert Shift(p.records + more, lines) == Shift(p.records, lines) + Shift(more, lines);
    var shifted, later := Shift(p.records, lines), Shift(more, lines);
    assert before + (shifted + later) == before + shifted + later;
  }

  /** The parser does the same wherever in the file it is. */
  lemma {:induction false} RunsTheSameLater(text: string, p: Parser, before: seq<Record>, lines: nat)
    ensures Run(text, Later(p, before, lines)) == Later(Run(text, p), before, lines)
    decreases |text|
  {
    if text == "" {
    } else {
      LaterRecord(p, before, lines);
      assert Turn(text, Later(p, before, lines)) == Later(Turn(text, p), before, lines);
      RunsTheSameLater(text[Width(text, p.quoted)..], Turn(text, p), before, lines);
    }
  }

  predicate IsLineEnd(e: string) { e in {"\n", "\r", "\r\n"} }

  /** Ending the line and ending the text end the record in the same way. */
  lemma {:induction false} AfterLineEnd(e: string, p: Parser)
    requires IsLineEnd(e) && !p.quoted
    ensures Run(e, p) == Later(START, Finish(p), p.line)
  {
    assert Shift([], p.line) == [];
    assert Finish(p) == EndRecord(p).records;
    var next := Turn(e, p);
    assert e[Width(e, false)..] == "";
    assert next == Later(START, Finish(p), p.line);
  }

  lemma {:induction false} LineEndsOf(e: string)
    requires IsLineEnd(e)
    ensures LineEnds(e) == 1 && Quotes(e) == 0
  {
    if e == "\r\n" {
      assert e[2..] == "" && e[1..] == "\n" && e[1..][1..] == "";
    }
  }

  /**
   * A line end outside quotes separates: the records before it, and then those after it on their own, with later lines.
   */
  lemma {:induction false} ParsesInTurn(a: string, e: string, b: string)
    requires IsLineEnd(e) && !Odd(a)
    requires a != "" && e[0] == '\n' ==> a[|a| - 1] != '\r'
    requires b != "" && e == "\r" ==> b[0] != '\n'
    ensures Parse(a).Ok?
    ensures Parse(a + e + b) ==
      match Parse(b)
      case Err(error) => Err(error)
      case Ok(records) => Ok(Parse(a).value + Shift(records, LineEnds(a) + 1))
  {
    var p := Run(a, START);
    FailsOnOddQuotes(a);
    CountsLines(a, START);
    LastIsQuoted(a, START);
    EndsAndGoesOn(a, e, b);
    LaterFinish(Run(b, START), Finish(p), p.line);
  }

  lemma {:induction false} EndsAndGoesOn(a: string, e: string, b: string)
    requires IsLineEnd(e) && !Run(a, START).quoted
    requires a != "" && e[0] == '\n' ==> a[|a| - 1] != '\r'
    requires b != "" && e == "\r" ==> b[0] != '\n'
    ensures var p := Run(a, START);
            Run(a + e + b, START) == Later(Run(b, START), Finish(p), p.line)
  {
    var p := Run(a, START);
    RunsInTurn(a, e, START);
    RunsInTurn(a + e, b, START);
    AfterLineEnd(e, p);
    RunsTheSameLater(b, START, Finish(p), p.line);
  }

  lemma {:induction false} LaterFinish(p: Parser, before: seq<Record>, lines: nat)
    ensures Finish(Later(p, before, lines)) == before + Shift(Finish(p), lines)
  {
    LaterRecord(p, before, lines);
  }
}
