/** Row errors: passes over a file add them in any order, and they are answered by line. */
module FileImport {
  import opened Wrappers

  const MAX_IMPORT_ERRORS: nat := 100

  /** Without a column, the row as such is wrong. */
  datatype RowError = RowError(line: nat, column: Option<string>, code: string)

  function LinesOf(errors: seq<RowError>): set<nat> { set i | 0 <= i < |errors| :: errors[i].line }

  lemma {:induction false} LinesOfBoth(a: seq<RowError>, b: seq<RowError>)
    ensures LinesOf(a + b) == LinesOf(a) + LinesOf(b)
  {
    forall line ensures line in LinesOf(a + b) <==> line in LinesOf(a) + LinesOf(b) {
      if i :| 0 <= i < |a| && a[i].line == line {
        assert (a + b)[i].line == line;
      }
      if i :| 0 <= i < |b| && b[i].line == line {
        assert (a + b)[|a| + i].line == line;
      }
    }
  }

  lemma {:induction false} LinesOfOne(e: RowError)
    ensures LinesOf([e]) == {e.line}
  {
    assert [e][0].line in LinesOf([e]);
  }

  /** After the errors of its line and of those before. */
  function InsertByLine(errors: seq<RowError>, e: RowError): seq<RowError> {
    if errors == [] || errors[|errors| - 1].line <= e.line then errors + [e]
    else InsertByLine(errors[..|errors| - 1], e) + [errors[|errors| - 1]]
  }

  function SortByLine(errors: seq<RowError>): seq<RowError> {
    if errors == [] then [] else InsertByLine(SortByLine(errors[..|errors| - 1]), errors[|errors| - 1])
  }

  predicate Ascending(errors: seq<RowError>) { forall i, j | 0 <= i < j < |errors| :: errors[i].line <= errors[j].line }

  /** The errors of a line, in their order. */
  function Of(errors: seq<RowError>, line: nat): seq<RowError> {
    if errors == [] then []
    else Of(errors[..|errors| - 1], line) + if errors[|errors| - 1].line == line then [errors[|errors| - 1]] else []
  }

  lemma {:induction false} InsertedAre(errors: seq<RowError>, e: RowError)
    ensures multiset(InsertByLine(errors, e)) == multiset(errors) + multiset{e}
  {
    if errors != [] && errors[|errors| - 1].line > e.line {
      InsertedAre(errors[..|errors| - 1], e);
      assert errors == errors[..|errors| - 1] + [errors[|errors| - 1]];
    }
  }

  lemma {:induction false} InsertsInOrder(errors: seq<RowError>, e: RowError)
    requires Ascending(errors)
    ensures Ascending(InsertByLine(errors, e)) && |InsertByLine(errors, e)| == |errors| + 1
  {
    if errors != [] && errors[|errors| - 1].line > e.line {
      var before, last := errors[..|errors| - 1], errors[|errors| - 1];
      var after := InsertByLine(before, e);
      InsertsInOrder(before, e);
      InsertedAre(before, e);
      forall i | 0 <= i < |after| ensures after[i].line <= last.line {
        assert after[i] in multiset(after);
        assert after[i] in before || after[i] == e;
      }
    }
  }

  lemma {:induction false} InsertsInPlace(errors: seq<RowError>, e: RowError, line: nat)
    ensures Of(InsertByLine(errors, e), line) == Of(errors, line) + if e.line == line then [e] else []
  {
    if errors == [] || errors[|errors| - 1].line <= e.line {
      assert (errors + [e])[..|errors|] == errors;
    } else {
      var before, last := errors[..|errors| - 1], errors[|errors| - 1];
      InsertsInPlace(before, e, line);
      var after := InsertByLine(before, e);
      assert (after + [last])[..|after|] == after;
    }
  }

  /** Sorted by line, with the errors of each line in the order they were added. */
  lemma {:induction false} SortsStably(errors: seq<RowError>, line: nat)
    ensures Ascending(SortByLine(errors)) && |SortByLine(errors)| == |errors|
    ensures Of(SortByLine(errors), line) == Of(errors, line)
  {
    if errors == [] {
    } else {
      SortsStably(errors[..|errors| - 1], line);
      InsertsInOrder(SortByLine(errors[..|errors| - 1]), errors[|errors| - 1]);
      InsertsInPlace(SortByLine(errors[..|errors| - 1]), errors[|errors| - 1], line);
    }
  }

  class ImportRowErrors {
    var errors: seq<RowError>
    var lines: set<nat>

    ghost predicate Valid()
      reads this
    {
      lines == LinesOf(errors)
    }

    constructor ()
      ensures Valid() && errors == []
    {
      errors, lines := [], {};
    }

    method Add(line: nat, column: Option<string>, code: string)
      requires Valid()
      modifies this
      ensures Valid() && errors == old(errors) + [RowError(line, column, code)]
    {
      LinesOfBoth(errors, [RowError(line, column, code)]);
      LinesOfOne(RowError(line, column, code));
      errors, lines := errors + [RowError(line, column, code)], lines + {line};
    }

    /** Whether a row has any error. */
    predicate HasAny(line: nat)
      reads this
    {
      line in lines
    }

    /** The first errors by line, when there is any. */
    method ThrowIfAny() returns (r: Result<(), seq<RowError>>)
      requires Valid()
      ensures errors == [] ==> r == Ok(())
      ensures errors != [] ==> r.Err? && r.error != [] && r.error <= SortByLine(errors) && Ascending(r.error)
      ensures errors != [] ==> |r.error| == if |errors| <= MAX_IMPORT_ERRORS then |errors| else MAX_IMPORT_ERRORS
    {
      if |errors| == 0 { return Ok(()); }
      SortsStably(errors, 0);
      var sorted := SortByLine(errors);
      r := Err(if |sorted| <= MAX_IMPORT_ERRORS then sorted else sorted[..MAX_IMPORT_ERRORS]);
    }
  }
}
