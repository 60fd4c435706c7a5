/** What an import answers: the products of a file without errors, and exactly when a domain error escapes. */
module ImportedProducts {
  import opened Collections
  import opened FileImport
  import opened ImportBuild
  import opened ImportExecution
  import opened ImportProducts
  import ProductFile
  import opened ProductRows
  import opened Products
  import opened RowCells
  import opened Variants
  import opened Wrappers

  // ---- What the checks of the file leave ----

  predicate AllOfLine(errors: seq<RowError>, line: nat) { forall i | 0 <= i < |errors| :: errors[i].line == line }

  lemma {:induction false} LongValuesOfLine(line: nat, cells: seq<OptionCell>)
    ensures AllOfLine(LongValues(line, cells), line)
  {
    if cells == [] {
    } else {
      LongValuesOfLine(line, cells[..|cells| - 1]);
    }
  }

  lemma {:induction false} AllOfBoth(a: seq<RowError>, b: seq<RowError>, line: nat)
    requires AllOfLine(a, line) && AllOfLine(b, line)
    ensures AllOfLine(a + b, line)
  {
  }

  lemma {:induction false} AllOfFour(a: seq<RowError>, b: seq<RowError>, c: seq<RowError>, d: seq<RowError>, line: nat)
    requires AllOfLine(a, line) && AllOfLine(b, line) && AllOfLine(c, line) && AllOfLine(d, line)
    ensures AllOfLine(a + b + c + d, line)
  {
    AllOfBoth(a, b, line);
    AllOfBoth(a + b, c, line);
    AllOfBoth(a + b + c, d, line);
  }

  lemma {:induction false} ErrorIfOfLine(bad: bool, line: nat, column: string, code: string)
    ensures AllOfLine(ErrorIf(bad, line, column, code), line)
  {
  }

  lemma {:induction false} RequiredOfLine(text: string, bad: bool, line: nat, column: string, code: string)
    ensures AllOfLine(RequiredOr(text, bad, line, column, code), line)
  {
  }

  lemma {:induction false} CellErrorsOfLine(row: Row)
    ensures AllOfLine(CellErrors(row), row.line)
  {
    var long, tooLong := |row.title| > MAX_TITLE_LENGTH, |row.description| > MAX_DESCRIPTION_LENGTH;
    var many := |CategorySlugsFrom(row.categories)| > MAX_CATEGORIES_PER_PRODUCT;
    var slug, sku := !SlugFits(row.slug), !SkuPattern(row.sku);
    RequiredOfLine(row.slug, slug, row.line, "slug", "slug");
    ErrorIfOfLine(long, row.line, "title", "maxLength");
    ErrorIfOfLine(tooLong, row.line, "description", "maxLength");
    ErrorIfOfLine(many, row.line, "categories", "arrayMaxSize");
    RequiredOfLine(row.sku, sku, row.line, "sku", "matches");
    AllOfFour(RequiredOr(row.slug, slug, row.line, "slug", "slug"), ErrorIf(long, row.line, "title", "maxLength"),
              ErrorIf(tooLong, row.line, "description", "maxLength"),
              ErrorIf(many, row.line, "categories", "arrayMaxSize"), row.line);
    AllOfBoth(TextErrors(row), RequiredOr(row.sku, sku, row.line, "sku", "matches"), row.line);
  }

  lemma {:induction false} StoreErrorsOfLine(row: Row)
    ensures AllOfLine(StoreErrors(row), row.line)
  {
  }

  lemma {:induction false} MeasureErrorsOfLine(row: Row)
    ensures AllOfLine(MeasureErrors(row), row.line)
  {
  }

  lemma {:induction false} OptionErrorsOfLine(row: Row)
    ensures AllOfLine(OptionErrors(row), row.line)
  {
    var many := |Filled(row.options)| > MAX_OPTIONS;
    LongValuesOfLine(row.line, Filled(row.options));
    AllOfBoth(LongValues(row.line, Filled(row.options)), ErrorIf(many, row.line, "options", "options"), row.line);
  }

  /** The errors of a row are of its line. */
  lemma {:induction false} RowErrorsOfLine(row: Row)
    ensures AllOfLine(RowErrors(row), row.line)
  {
    if row.wellFormed {
      CellErrorsOfLine(row);
      StoreErrorsOfLine(row);
      MeasureErrorsOfLine(row);
      OptionErrorsOfLine(row);
      AllOfFour(CellErrors(row), StoreErrors(row), MeasureErrors(row), OptionErrors(row), row.line);
    }
  }

  lemma {:induction false} RowLineHasError(rows: seq<Row>, row: Row)
    requires row in rows && RowErrors(row) != []
    ensures row.line in LinesOf(AllRowErrors(rows))
  {
    var before, last := rows[..|rows| - 1], rows[|rows| - 1];
    assert rows == before + [last];
    LinesOfBoth(AllRowErrors(before), RowErrors(last));
    if row == last {
      RowErrorsOfLine(row);
      assert RowErrors(row)[0].line in LinesOf(RowErrors(row));
    } else {
      RowLineHasError(before, row);
    }
  }

  lemma {:induction false} ValueOfRow(rows: seq<Row>, v: RowValues) returns (row: Row)
    requires v in AllValues(rows)
    ensures row in rows && row.wellFormed && v == ValuesOf(row)
  {
    var before, last := rows[..|rows| - 1], rows[|rows| - 1];
    assert rows == before + [last];
    if v in AllValues(before) {
      row := ValueOfRow(before, v);
    } else {
      row := last;
    }
  }

  lemma {:induction false} ValuesAscend(rows: seq<Row>)
    requires RowsAscend(rows)
    ensures LinesAscend(AllValues(rows))
  {
    if rows == [] {
    } else {
      var before, last := rows[..|rows| - 1], rows[|rows| - 1];
      ValuesAscend(before);
      forall i | 0 <= i < |AllValues(before)| ensures AllValues(before)[i].line < last.line {
        var row := ValueOfRow(before, AllValues(before)[i]);
        var k :| 0 <= k < |before| && before[k] == row;
        assert rows[k] == row;
      }
    }
  }

  lemma {:induction false} RepeatHasError(values: seq<RowValues>, i: nat, j: nat)
    requires i < j < |values| && !Apart(values[i], values[j])
    ensures values[j].line in LinesOf(Repeated(values))
  {
    var n := |values| - 1;
    var before, last := values[..n], values[n];
    LinesOfBoth(Repeated(before), RepeatedOf(before, last));
    if j < n {
      RepeatHasError(before, i, j);
    } else {
      assert before[i] == values[i];
      var errors := RepeatedOf(before, last);
      if values[i].sku.Some? && values[i].sku == last.sku {
        assert last.sku.value in SkusOf(before);
      } else {
        assert GtinKey(last.gtin.value) in KeysOf(before);
      }
      assert errors != [] && errors[0].line == last.line;
      assert errors[0].line in LinesOf(errors);
    }
  }

  /** The rows of the file once checked against each other: `lines` has every line with an error so far. */
  ghost predicate ValuesChecked(values: seq<RowValues>, lines: set<nat>) {
    && LinesAscend(values)
    && (forall i | 0 <= i < |values| && values[i].line !in lines :: Ready(values[i]))
    && forall i, j | 0 <= i < j < |values| && values[j].line !in lines :: Apart(values[i], values[j])
  }

  lemma {:induction false} ChecksHold(rows: seq<Row>, lines: set<nat>)
    requires FileRead(rows) && LinesOf(AllRowErrors(rows)) <= lines && LinesOf(Repeated(AllValues(rows))) <= lines
    ensures ValuesChecked(AllValues(rows), lines)
  {
    var values := AllValues(rows);
    ValuesAscend(rows);
    forall i | 0 <= i < |values| && values[i].line !in lines ensures Ready(values[i]) {
      var row := ValueOfRow(rows, values[i]);
      if RowErrors(row) != [] {
        RowLineHasError(rows, row);
      }
      ReadyWithoutErrors(row);
    }
    forall i, j | 0 <= i < j < |values| && values[j].line !in lines ensures Apart(values[i], values[j]) {
      if !Apart(values[i], values[j]) {
        RepeatHasError(values, i, j);
      }
    }
  }

  /** The rows of a product are checked as those of the file. */
  lemma {:induction false} RowsOfChecked(values: seq<RowValues>, slug: string, lines: set<nat>)
    requires ValuesChecked(values, lines)
    ensures Checked(RowsOf(values, slug), lines)
  {
    var rows := RowsOf(values, slug);
    RowsOfAscend(values, slug);
    forall i | 0 <= i < |rows| && rows[i].line !in lines ensures Ready(rows[i]) {
      assert rows[i] in rows;
      var k :| 0 <= k < |values| && values[k] == rows[i];
    }
    forall i, j | 0 <= i < j < |rows| && rows[j].line !in lines ensures Apart(rows[i], rows[j]) {
      assert rows[i] in rows && rows[j] in rows;
      var k :| 0 <= k < |values| && values[k] == rows[i];
      var m :| 0 <= m < |values| && values[m] == rows[j];
      assert k < m;
    }
  }

  // ---- The products, one after the other ----

  /** The data of a product fits as far as it is there. */
  predicate DataFits(group: Group) {
    && SlugFits(group.slug) && group.rows != []
    && var first := group.rows[0];
       && (first.title.Some? ==> Trimmed(first.title.value) && |first.title.value| <= MAX_TITLE_LENGTH)
       && (first.description.Some? ==> |first.description.value| <= MAX_DESCRIPTION_LENGTH)
       && (first.categories.Some? ==> |first.categories.value| <= MAX_CATEGORIES_PER_PRODUCT)
  }

  ghost predicate GroupsChecked(groups: seq<Group>, lines: set<nat>) {
    && (forall i | 0 <= i < |groups| :: DataFits(groups[i]) && Checked(groups[i].rows, lines))
    && forall i, j | 0 <= i < j < |groups| :: LinesIn(groups[i].rows) !! LinesIn(groups[j].rows)
  }

  lemma {:induction false} DraftIsNew(group: Group, catalog: Catalog, id: Id)
    requires DataFits(group) && HasData(group.rows[0])
    ensures DraftOf(group, catalog, id).Ok?
    ensures var p := DraftOf(group, catalog, id).value; NewDraft(p) && p.variants == [] && p.slug == group.slug
  {
    var first := group.rows[0];
    TrimmedStays(first.title.value);
    CreatedFits(id, first.title.value, group.slug, Some(first.description.value), BrandOf(first, catalog),
                IdsOf(first.categories.value, catalog), first.storeOnly.value);
  }

  /** An error escapes from the building of a product. */
  ghost predicate Escapes(group: Group, lines: set<nat>)
    requires group.rows != []
  {
    HasData(group.rows[0]) && SomeInherits(group.rows, lines)
  }

  /** What building a product says of it. */
  ghost predicate EscapesRight(one: Built, group: Group, lines: set<nat>)
    requires group.rows != []
  {
    && (one.escaped.Some? <==> Escapes(group, lines)) && one.escaped in {None, Some(InvalidOptions)}
    && LinesOf(one.errors) <= LinesIn(group.rows)
  }

  lemma {:induction false} BuildOutcome(group: Group, catalog: Catalog, lines: set<nat>, next: Id)
    requires DataFits(group) && Checked(group.rows, lines)
    ensures EscapesRight(BuildOne(group, catalog, lines, next), group, lines)
  {
    if HasData(group.rows[0]) {
      DraftIsNew(group, catalog, next);
      var start := Building(DraftOf(group, catalog, next).value, [], None, next + 1);
      VariantsOutcome(start, group.rows, lines);
    }
  }

  /** Whenever the rows are checked, building says what it must. */
  ghost predicate BuildsRight(build: Builder, group: Group)
    requires group.rows != []
  {
    forall lines, next | Checked(group.rows, lines) :: EscapesRight(build(group, lines, next), group, lines)
  }

  lemma {:induction false} BuilderIsRight(group: Group, catalog: Catalog)
    requires DataFits(group)
    ensures BuildsRight(BuilderOf(catalog), group)
  {
    forall lines, next | Checked(group.rows, lines)
      ensures EscapesRight(BuilderOf(catalog)(group, lines, next), group, lines)
    {
      BuildOutcome(group, catalog, lines, next);
    }
  }

  ghost predicate SomeEscapes(groups: seq<Group>, lines: set<nat>)
    requires forall i | 0 <= i < |groups| :: groups[i].rows != []
  {
    exists i :: 0 <= i < |groups| && Escapes(groups[i], lines)
  }

  /** Lines of other rows with errors change nothing. */
  lemma {:induction false} MoreLines(rows: seq<RowValues>, lines: set<nat>, more: set<nat>)
    requires more !! LinesIn(rows)
    ensures SomeInherits(rows, lines + more) <==> SomeInherits(rows, lines)
    ensures Checked(rows, lines) ==> Checked(rows, lines + more)
  {
    forall i | 0 <= i < |rows| ensures rows[i].line !in more {
      assert rows[i].line in LinesIn(rows);
    }
  }

  function LinesOfGroups(groups: seq<Group>): set<nat> {
    if groups == [] then {} else LinesOfGroups(groups[..|groups| - 1]) + LinesIn(groups[|groups| - 1].rows)
  }

  lemma {:induction false} LinesApart(groups: seq<Group>, rows: seq<RowValues>)
    requires forall i | 0 <= i < |groups| :: LinesIn(groups[i].rows) !! LinesIn(rows)
    ensures LinesOfGroups(groups) !! LinesIn(rows)
  {
    if groups == [] {
    } else {
      LinesApart(groups[..|groups| - 1], rows);
    }
  }

  lemma {:induction false} SomeMoreEscapes(groups: seq<Group>, lines: set<nat>)
    requires groups != [] && forall i | 0 <= i < |groups| :: groups[i].rows != []
    ensures var n := |groups| - 1;
            SomeEscapes(groups, lines) <==> SomeEscapes(groups[..n], lines) || Escapes(groups[n], lines)
  {
    var before := groups[..|groups| - 1];
    if i :| 0 <= i < |before| && Escapes(before[i], lines) {
      assert groups[i] == before[i];
    }
    if i :| 0 <= i < |groups| && Escapes(groups[i], lines) {
      if i < |before| {
        assert before[i] == groups[i];
      }
    }
  }

  /**
   * An error escapes exactly when the data of some product has no errors and a row of it does not either but inherits a
   * name.
   */
  lemma {:induction false} GroupsOutcome(groups: seq<Group>, build: Builder, lines: set<nat>, next: Id)
    requires GroupsChecked(groups, lines) && forall i | 0 <= i < |groups| :: BuildsRight(build, groups[i])
    ensures AllEscapeRight(WithGroups(groups, build, lines, next), groups, lines)
  {
    if groups == [] {
    } else {
      var before, group := groups[..|groups| - 1], groups[|groups| - 1];
      assert groups == before + [group];
      FewerChecked(before, group, lines);
      GroupsOutcome(before, build, lines, next);
      NextOutcome(before, group, build, lines, WithGroups(before, build, lines, next));
    }
  }

  /** What building all the products says of them. */
  ghost predicate AllEscapeRight(b: Built, groups: seq<Group>, lines: set<nat>)
    requires forall i | 0 <= i < |groups| :: groups[i].rows != []
  {
    && (b.escaped.Some? <==> SomeEscapes(groups, lines)) && b.escaped in {None, Some(InvalidOptions)}
    && LinesOf(b.errors) <= LinesOfGroups(groups)
  }

  lemma {:induction false} FewerChecked(before: seq<Group>, group: Group, lines: set<nat>)
    requires GroupsChecked(before + [group], lines)
    ensures GroupsChecked(before, lines) && DataFits(group) && Checked(group.rows, lines)
    ensures LinesOfGroups(before) !! LinesIn(group.rows)
  {
    var groups := before + [group];
    assert groups[|before|] == group;
    assert forall i | 0 <= i < |before| :: groups[i] == before[i];
    forall i | 0 <= i < |before| ensures LinesIn(before[i].rows) !! LinesIn(group.rows) {
      assert LinesIn(groups[i].rows) !! LinesIn(groups[|before|].rows);
    }
    LinesApart(before, group.rows);
  }

  lemma {:induction false} NextOutcome(before: seq<Group>, group: Group, build: Builder, lines: set<nat>, b: Built)
    requires (forall i | 0 <= i < |before| :: before[i].rows != []) && group.rows != []
    requires Checked(group.rows, lines) && BuildsRight(build, group)
    requires LinesOfGroups(before) !! LinesIn(group.rows)
    requires AllEscapeRight(b, before, lines)
    ensures AllEscapeRight(WithGroup(b, group, build, lines), before + [group], lines)
  {
    assert (before + [group])[..|before|] == before;
    SomeMoreEscapes(before + [group], lines);
    MoreLines(group.rows, lines, LinesOf(b.errors));
    if b.escaped.None? {
      var one := build(group, lines + LinesOf(b.errors), b.next);
      assert EscapesRight(one, group, lines + LinesOf(b.errors));
      LinesOfBoth(b.errors, one.errors);
    }
  }

  // ---- The file and its products ----

  lemma {:induction false} GroupsAreChecked(rows: seq<Row>, lines: set<nat>)
    requires FileRead(rows) && ValuesChecked(AllValues(rows), lines)
    ensures GroupsChecked(Grouped(AllValues(rows)), lines)
  {
    var values := AllValues(rows);
    var groups := Grouped(values);
    GroupedIsExact(values);
    forall i | 0 <= i < |groups| ensures DataFits(groups[i]) && Checked(groups[i].rows, lines) {
      RowsOfChecked(values, groups[i].slug, lines);
      assert groups[i].rows[0] in groups[i].rows;
      var _ := ValueOfRow(rows, groups[i].rows[0]);
    }
    forall i, j | 0 <= i < j < |groups| ensures LinesIn(groups[i].rows) !! LinesIn(groups[j].rows) {
      assert SlugsOf(groups)[i] != SlugsOf(groups)[j];
      LinesOfOtherSlug(values, groups[i].slug, groups[j].slug);
    }
  }

  lemma {:induction false} LinesOfOtherSlug(values: seq<RowValues>, a: string, b: string)
    requires LinesAscend(values) && a != b
    ensures LinesIn(RowsOf(values, a)) !! LinesIn(RowsOf(values, b))
  {
    var x, y := RowsOf(values, a), RowsOf(values, b);
    forall i, j | 0 <= i < |x| && 0 <= j < |y| ensures x[i].line != y[j].line {
      assert x[i] in x && y[j] in y;
      var k :| 0 <= k < |values| && values[k] == x[i];
      var m :| 0 <= m < |values| && values[m] == y[j];
      assert k != m;
    }
  }

  // ---- The import ----

  datatype Failure = FileErrors(errors: seq<RowError>) | EscapedError(error: ProductError)

  /** The errors of the file before any product is built. */
  function FileErrorsOf(rows: seq<Row>, catalog: Catalog): seq<RowError> {
    var values := AllValues(rows);
    var groups := Grouped(values);
    AllRowErrors(rows) + ProductErrors(values) + Repeated(values) +
    (TakenSlugs(groups, catalog) + TakenCodes(values, catalog)) +
    AllBrandErrors(groups, catalog) + AllCategoryErrors(groups, catalog)
  }

  function BuiltOf(rows: seq<Row>, catalog: Catalog, next: Id): Built {
    WithGroups(Grouped(AllValues(rows)), BuilderOf(catalog), LinesOf(FileErrorsOf(rows, catalog)), next)
  }

  /** Every check before the products are built. */
  method Check(rows: seq<Row>, catalog: Catalog, errors: ImportRowErrors) returns (groups: seq<Group>)
    requires errors.Valid() && errors.errors == []
    modifies errors
    ensures errors.Valid() && errors.errors == FileErrorsOf(rows, catalog) && groups == Grouped(AllValues(rows))
  {
    var values := ParseRows(rows, errors);
    ghost var a := errors.errors;
    forall i | 0 <= i < |values| ensures values[i].line == values[i].cells.line {
      var _ := ValueOfRow(rows, values[i]);
    }
    groups := ProductsOf(values, errors);
    ghost var b := errors.errors;
    RejectRepeated(values, errors);
    ghost var c := errors.errors;
    RejectTaken(groups, values, catalog, errors);
    ghost var d := errors.errors;
    BrandsOf(groups, catalog, errors);
    ghost var e := errors.errors;
    CategoriesOf(groups, catalog, errors);
    SumOf(rows, catalog, a, b, c, d, e, errors.errors);
  }

  lemma {:induction false} SumOf(rows: seq<Row>, catalog: Catalog, a: seq<RowError>, b: seq<RowError>,
                                 c: seq<RowError>, d: seq<RowError>, e: seq<RowError>, f: seq<RowError>)
    requires var values := AllValues(rows);
             var groups := Grouped(values);
             && a == [] + AllRowErrors(rows) && b == a + ProductErrors(values) && c == b + Repeated(values)
             && d == c + (TakenSlugs(groups, catalog) + TakenCodes(values, catalog))
             && e == d + AllBrandErrors(groups, catalog) && f == e + AllCategoryErrors(groups, catalog)
    ensures f == FileErrorsOf(rows, catalog)
  {
    assert a == AllRowErrors(rows);
  }

  lemma {:induction false} NextGroup(groups: seq<Group>, build: Builder, lines: set<nat>, next: Id, i: nat)
    requires i < |groups|
    ensures WithGroups(groups[..i + 1], build, lines, next) ==
              WithGroup(WithGroups(groups[..i], build, lines, next), groups[i], build, lines)
  {
    assert groups[..i + 1][..i] == groups[..i];
  }

  lemma {:induction false} EscapedEnds(groups: seq<Group>, build: Builder, lines: set<nat>, next: Id, i: nat)
    requires i <= |groups| && WithGroups(groups[..i], build, lines, next).escaped.Some?
    ensures WithGroups(groups, build, lines, next).escaped == WithGroups(groups[..i], build, lines, next).escaped
    decreases |groups| - i
  {
    if i < |groups| {
      NextGroup(groups, build, lines, next, i);
      EscapedEnds(groups, build, lines, next, i + 1);
    } else {
      assert groups[..i] == groups;
    }
  }

  /** Builds every product with the aggregate; an error that escapes ends the import. */
  method BuildAll(groups: seq<Group>, catalog: Catalog, errors: ImportRowErrors, next: Id, ghost build: Builder)
    returns (created: seq<ProductSnapshot>, escaped: Option<ProductError>)
    requires errors.Valid() && (forall i | 0 <= i < |groups| :: groups[i].rows != []) && build == BuilderOf(catalog)
    modifies errors
    ensures errors.Valid()
    ensures var b := WithGroups(groups, build, LinesOf(old(errors.errors)), next);
            && escaped == b.escaped
            && (escaped.None? ==> created == b.created && errors.errors == old(errors.errors) + b.errors)
  {
    ghost var before, lines := errors.errors, LinesOf(errors.errors);
    ghost var b := Built([], [], None, next);
    var after := next;
    created, escaped := [], None;
    for i := 0 to |groups|
      invariant errors.Valid() && b == WithGroups(groups[..i], build, lines, next)
      invariant created == b.created && errors.errors == before + b.errors && after == b.next
      invariant escaped == None == b.escaped
    {
      NextGroup(groups, build, lines, next, i);
      LinesOfBoth(before, b.errors);
      ghost var one;
      var product;
      one, product, escaped, after := Build(groups[i], catalog, errors, after);
      Regrouped(before, b.errors, one.errors);
      b := Built(b.created + one.created, b.errors + one.errors, one.escaped, one.next);
      if escaped.Some? {
        EscapedEnds(groups, build, lines, next, i + 1);
        return;
      }
      if product.Some? { created := created + [product.value]; }
    }
    assert groups[..|groups|] == groups;
  }

  /** Nothing is imported with any error: the first ones by line are the answer, unless an error escaped. */
  ghost predicate Answers(rows: seq<Row>, catalog: Catalog, next: Id, r: Result<seq<ProductSnapshot>, Failure>) {
    var built := BuiltOf(rows, catalog, next);
    var errors := FileErrorsOf(rows, catalog) + built.errors;
    match built.escaped
    case Some(e) => r == Err(EscapedError(e))
    case None =>
      && (errors == [] ==> r == Ok(built.created))
      && (errors != [] ==>
            && r.Err? && r.error.FileErrors? && r.error.errors <= SortByLine(errors)
            && |r.error.errors| == if |errors| <= MAX_IMPORT_ERRORS then |errors| else MAX_IMPORT_ERRORS)
  }

  /** The import of the rows: all of them, or none with the errors to answer. */
  method Execute(rows: seq<Row>, catalog: Catalog, next: Id) returns (r: Result<seq<ProductSnapshot>, Failure>)
    ensures Answers(rows, catalog, next, r)
    ensures FileRead(rows) && r.Ok? ==>
      && OnePerSlug(rows, catalog, r.value) && VariantsOfRows(rows, catalog, r.value) && CodesAreNew(rows, catalog)
      && SaysTheFile(rows, catalog, r.value)
  {
    var errors := new ImportRowErrors();
    var groups := Check(rows, catalog, errors);
    var created, escaped := BuildAll(groups, catalog, errors, next, BuilderOf(catalog));
    if escaped.Some? { return Err(EscapedError(escaped.value)); }
    var failed := errors.ThrowIfAny();
    if failed.Err? { return Err(FileErrors(failed.error)); }
    r := Ok(created);
    if FileRead(rows) {
      EmptySum(FileErrorsOf(rows, catalog), BuiltOf(rows, catalog, next).errors);
      ImportsTheFile(rows, catalog, next);
    }
  }

  /** From the text of a file to its products: one complaint about the file, or what the import of its rows answers. */
  method ImportText(text: string, catalog: Catalog, next: Id)
    returns (r: Result<Result<seq<ProductSnapshot>, Failure>, ProductFile.FileError>)
    ensures match ProductFile.FileOf(text)
            case Err(e) => r == Err(e)
            case Ok(rows) =>
              && r.Ok? && Answers(rows, catalog, next, r.value)
              && (r.value.Ok? ==>
                    && OnePerSlug(rows, catalog, r.value.value) && VariantsOfRows(rows, catalog, r.value.value)
                    && CodesAreNew(rows, catalog) && SaysTheFile(rows, catalog, r.value.value))
  {
    var rows := ProductFile.ReadProductFile(text);
    if rows.Err? { return Err(rows.error); }
    ProductFile.FileIsRead(text);
    var imported := Execute(rows.value, catalog, next);
    r := Ok(imported);
  }

  /**
   * A domain error escapes the import exactly when, of some product whose data has no errors, a row without errors has
   * an option named `constructor`, as something every object has: `validOptions` takes it for repeated.
   */
  lemma {:induction false} WhenAnErrorEscapes(rows: seq<Row>, catalog: Catalog, next: Id)
    requires FileRead(rows)
    ensures BuiltOf(rows, catalog, next).escaped.Some?
       <==> SomeEscapes(Grouped(AllValues(rows)), LinesOf(FileErrorsOf(rows, catalog)))
    ensures BuiltOf(rows, catalog, next).escaped in {None, Some(InvalidOptions)}
  {
    var lines := LinesOf(FileErrorsOf(rows, catalog));
    FileLines(rows, catalog);
    ChecksHold(rows, lines);
    GroupsAreChecked(rows, lines);
    var groups := Grouped(AllValues(rows));
    forall i | 0 <= i < |groups| ensures BuildsRight(BuilderOf(catalog), groups[i]) {
      BuilderIsRight(groups[i], catalog);
    }
    GroupsOutcome(groups, BuilderOf(catalog), lines, next);
  }

  lemma {:induction false} FileLines(rows: seq<Row>, catalog: Catalog)
    ensures LinesOf(AllRowErrors(rows)) <= LinesOf(FileErrorsOf(rows, catalog))
    ensures LinesOf(Repeated(AllValues(rows))) <= LinesOf(FileErrorsOf(rows, catalog))
  {
    var values := AllValues(rows);
    var groups := Grouped(values);
    var a, b, c, d := AllRowErrors(rows), ProductErrors(values), Repeated(values),
        TakenSlugs(groups, catalog) + TakenCodes(values, catalog);
    var e, f := AllBrandErrors(groups, catalog), AllCategoryErrors(groups, catalog);
    LinesOfBoth(a, b);
    LinesOfBoth(a + b, c);
    LinesOfBoth(a + b + c, d);
    LinesOfBoth(a + b + c + d, e);
    LinesOfBoth(a + b + c + d + e, f);
  }

  // ---- A file without errors ----

  lemma {:induction false} EmptySum<T>(a: seq<T>, b: seq<T>)
    requires a + b == []
    ensures a == [] && b == []
  {
    assert |a + b| == |a| + |b|;
  }

  predicate IsOk(row: Row, value: RowValues) { row.wellFormed && RowErrors(row) == [] && value == ValuesOf(row) }

  predicate AllOk(rows: seq<Row>, values: seq<RowValues>) {
    |values| == |rows| && forall i | 0 <= i < |rows| :: IsOk(rows[i], values[i])
  }

  lemma {:induction false} NoneCollected(rows: seq<Row>, errorsOf: Row -> seq<RowError>, i: nat)
    requires Collected(rows, errorsOf) == [] && i < |rows|
    ensures errorsOf(rows[i]) == []
  {
    EmptySum(Collected(rows[..|rows| - 1], errorsOf), errorsOf(rows[|rows| - 1]));
    if i < |rows| - 1 {
      NoneCollected(rows[..|rows| - 1], errorsOf, i);
    }
  }

  lemma {:induction false} AllKept(rows: seq<Row>, valuesOf: Row -> RowValues)
    requires forall i | 0 <= i < |rows| :: rows[i].wellFormed
    ensures |Kept(rows, valuesOf)| == |rows|
    ensures forall i | 0 <= i < |rows| :: Kept(rows, valuesOf)[i] == valuesOf(rows[i])
  {
    if rows == [] {
    } else {
      AllKept(rows[..|rows| - 1], valuesOf);
    }
  }

  lemma {:induction false} NoRowErrors(rows: seq<Row>)
    requires AllRowErrors(rows) == []
    ensures AllOk(rows, AllValues(rows))
  {
    forall i | 0 <= i < |rows| ensures rows[i].wellFormed && RowErrors(rows[i]) == [] {
      NoneCollected(rows, RowErrors, i);
    }
    AllKept(rows, ValuesOf);
  }

  lemma {:induction false} NoRepeatsInFile(values: seq<RowValues>)
    requires Repeated(values) == []
    ensures forall i, j | 0 <= i < j < |values| :: Apart(values[i], values[j])
  {
    forall i, j | 0 <= i < j < |values| ensures Apart(values[i], values[j]) {
      if !Apart(values[i], values[j]) {
        RepeatHasError(values, i, j);
      }
    }
  }

  /** No code of the file is in the catalog. */
  predicate NotTaken(row: RowValues, catalog: Catalog) {
    && (row.sku.Some? ==> row.sku.value !in catalog.skus)
    && (row.gtin.Given? ==> GtinKey(row.gtin.value) !in catalog.gtinKeys)
  }

  lemma {:induction false} NoneTaken(values: seq<RowValues>, catalog: Catalog)
    requires TakenCodes(values, catalog) == []
    ensures forall i | 0 <= i < |values| :: NotTaken(values[i], catalog)
  {
    if values == [] {
    } else {
      var before, last := values[..|values| - 1], values[|values| - 1];
      NoneTaken(before, catalog);
      assert TakenOf(last, catalog) == [];
      forall i | 0 <= i < |values| ensures NotTaken(values[i], catalog) {
        assert i < |before| ==> values[i] == before[i];
      }
    }
  }

  /** What the catalog and the first row ask of a product. */
  predicate Usable(group: Group, catalog: Catalog)
    requires group.rows != []
  {
    && group.slug !in catalog.slugs
    && BrandErrors(group.rows[0], catalog) == [] && CategoryErrors(group.rows[0], catalog) == []
  }

  lemma {:induction false} LastIsUsable(before: seq<Group>, last: Group, catalog: Catalog)
    requires last.rows != [] && forall i | 0 <= i < |before| :: before[i].rows != []
    requires TakenSlugs(before + [last], catalog) == []
    requires AllBrandErrors(before + [last], catalog) == [] && AllCategoryErrors(before + [last], catalog) == []
    ensures TakenSlugs(before, catalog) == [] && AllBrandErrors(before, catalog) == []
    ensures AllCategoryErrors(before, catalog) == []
    ensures Usable(last, catalog)
  {
    assert (before + [last])[..|before|] == before;
    EmptySum(TakenSlugs(before, catalog), ErrorIf(last.slug in catalog.slugs, last.rows[0].line, "slug", "taken"));
    EmptySum(AllBrandErrors(before, catalog), BrandErrors(last.rows[0], catalog));
    EmptySum(AllCategoryErrors(before, catalog), CategoryErrors(last.rows[0], catalog));
  }

  lemma {:induction false} AllUsable(groups: seq<Group>, catalog: Catalog)
    requires forall i | 0 <= i < |groups| :: groups[i].rows != []
    requires TakenSlugs(groups, catalog) == [] && AllBrandErrors(groups, catalog) == []
    requires AllCategoryErrors(groups, catalog) == []
    ensures forall i | 0 <= i < |groups| :: Usable(groups[i], catalog)
  {
    if groups == [] {
    } else {
      var before, last := groups[..|groups| - 1], groups[|groups| - 1];
      assert groups == before + [last];
      LastIsUsable(before, last, catalog);
      AllUsable(before, catalog);
      forall i | 0 <= i < |groups| ensures Usable(groups[i], catalog) {
        assert i < |before| ==> groups[i] == before[i];
      }
    }
  }

  predicate HasTitle(group: Group) { group.rows != [] && group.rows[0].cells.title != "" }

  predicate AllHaveTitles(groups: seq<Group>) { forall i | 0 <= i < |groups| :: HasTitle(groups[i]) }

  lemma {:induction false} NextHasTitle(groups: seq<Group>, row: RowValues)
    requires AllHaveTitles(groups) && (forall i | 0 <= i < |groups| :: groups[i].rows != [])
    requires ProductErrorsOf(groups, row) == []
    ensures AllHaveTitles(WithRow(groups, row))
  {
    if row.slug.Some? {
      match IndexOfSlug(groups, row.slug.value)
      case None =>
        assert row.cells.title != "";
        assert HasTitle(Group(row.slug.value, [row]));
      case Some(i) =>
        assert HasTitle(groups[i]);
        assert (groups[i].rows + [row])[0] == groups[i].rows[0];
    }
  }

  lemma {:induction false} FirstRowsHaveTitles(values: seq<RowValues>)
    requires ProductErrors(values) == []
    ensures AllHaveTitles(Grouped(values))
  {
    if values == [] {
    } else {
      var before, row := values[..|values| - 1], values[|values| - 1];
      EmptySum(ProductErrors(before), ProductErrorsOf(Grouped(before), row));
      FirstRowsHaveTitles(before);
      NextHasTitle(Grouped(before), row);
    }
  }

  /** The product of a group: its slug, a draft that keeps the rules, and a variant per row. */
  ghost predicate IsProductOf(p: ProductSnapshot, group: Group) {
    p.slug == group.slug && NewDraft(p) && VariantPerRow(p.variants, group.rows)
  }

  /** Its brand and categories are those of its first row, all of them known and active. */
  predicate RefersAsWritten(p: ProductSnapshot, group: Group, catalog: Catalog)
    requires group.rows != []
  {
    var first := group.rows[0];
    && (p.brandId.Some? <==> first.brand != "")
    && (first.brand != "" ==> first.brand in catalog.brands && catalog.brands[first.brand] == (p.brandId.value, true))
    && first.categories.Some? && AllKnown(first.categories.value, catalog) && AllActive(first.categories.value, catalog)
    && p.categoryIds == Unique(IdsOf(first.categories.value, catalog))
  }

  /** The rows are the values of rows read without errors. */
  predicate AreGood(rows: seq<RowValues>) {
    forall i | 0 <= i < |rows| ::
      AsRead(rows[i].cells) && RowErrors(rows[i].cells) == [] && rows[i] == ValuesOf(rows[i].cells)
  }

  /** Nothing of the product has errors. */
  ghost predicate IsReady(group: Group, catalog: Catalog) {
    && DataFits(group) && HasData(group.rows[0]) && Checked(group.rows, {}) && Usable(group, catalog)
    && AreGood(group.rows)
  }

  /** The product says what the cells of its first row do, and each variant what those of its own row do. */
  ghost predicate SaysItsCells(p: ProductSnapshot, cells: seq<Row>, catalog: Catalog) {
    && cells != [] && |p.variants| == |cells|
    && SaysTheTexts(p, cells[0]) && SaysTheReferences(p, cells[0], catalog)
    && forall i | 0 <= i < |cells| :: SaysTheRow(p.variants[i], cells[i])
  }

  function CellsOf(rows: seq<RowValues>): (cells: seq<Row>)
    ensures |cells| == |rows| && forall i | 0 <= i < |rows| :: cells[i] == rows[i].cells
  {
    seq(|rows|, i requires 0 <= i < |rows| => rows[i].cells)
  }

  /** What a product is to its group. */
  type Relation = (ProductSnapshot, Group) -> bool

  ghost predicate IsWritten(p: ProductSnapshot, group: Group, catalog: Catalog) {
    && group.rows != [] && IsProductOf(p, group) && RefersAsWritten(p, group, catalog)
    && SaysItsCells(p, CellsOf(group.rows), catalog)
  }

  /** A product built without errors is what its group says. */
  predicate IsBuilt(one: Built, group: Group, fits: Relation) {
    one.errors == [] && one.escaped == None ==> |one.created| == 1 && fits(one.created[0], group)
  }

  lemma {:induction false} OneBuilt(group: Group, catalog: Catalog, next: Id)
    requires IsReady(group, catalog)
    requires BuildOne(group, catalog, {}, next).errors == [] && BuildOne(group, catalog, {}, next).escaped == None
    ensures var one := BuildOne(group, catalog, {}, next);
            |one.created| == 1 && IsWritten(one.created[0], group, catalog)
  {
    OneIsProduct(group, catalog, next);
    BuiltSaysItsCells(BuildOne(group, catalog, {}, next).created[0], group, catalog, next);
  }

  lemma {:induction false} OneIsProduct(group: Group, catalog: Catalog, next: Id)
    requires IsReady(group, catalog)
    requires BuildOne(group, catalog, {}, next).errors == [] && BuildOne(group, catalog, {}, next).escaped == None
    ensures |BuildOne(group, catalog, {}, next).created| == 1 && DraftOf(group, catalog, next).Ok?
    ensures var p := BuildOne(group, catalog, {}, next).created[0];
      && IsProductOf(p, group) && RefersAsWritten(p, group, catalog)
      && p == DraftOf(group, catalog, next).value.(variants := p.variants)
  {
    DraftIsNew(group, catalog, next);
    var start := Building(DraftOf(group, catalog, next).value, [], None, next + 1);
    AllAdded(start, group.rows, {});
  }

  lemma {:induction false} BuiltSaysItsCells(p: ProductSnapshot, group: Group, catalog: Catalog, id: Id)
    requires IsReady(group, catalog) && VariantPerRow(p.variants, group.rows)
    requires DraftOf(group, catalog, id).Ok? && p == DraftOf(group, catalog, id).value.(variants := p.variants)
    ensures SaysItsCells(p, CellsOf(group.rows), catalog)
  {
    ProductSaysItsRow(p, group, group.rows[0].cells, catalog, id);
    forall i | 0 <= i < |group.rows| ensures SaysTheRow(p.variants[i], group.rows[i].cells) {
      assert IsVariantOf(p.variants[i], group.rows[i]);
      VariantSaysItsRow(group.rows[i].cells, p.variants[i]);
    }
  }

  /** Whatever the ID it begins with, the product of a group is built as it says. */
  ghost predicate BuildsIt(build: Builder, group: Group, fits: Relation) {
    forall next :: IsBuilt(build(group, {}, next), group, fits)
  }

  lemma {:induction false} BuilderBuildsIt(group: Group, catalog: Catalog, build: Builder, fits: Relation)
    requires IsReady(group, catalog) && build == BuilderOf(catalog)
    requires forall p: ProductSnapshot :: fits(p, group) == IsWritten(p, group, catalog)
    ensures BuildsIt(build, group, fits)
  {
    forall next ensures IsBuilt(build(group, {}, next), group, fits) {
      var one := BuildOne(group, catalog, {}, next);
      if one.errors == [] && one.escaped == None {
        OneBuilt(group, catalog, next);
      }
    }
  }

  /** Each product is what its group says. */
  predicate Fit(created: seq<ProductSnapshot>, groups: seq<Group>, fits: Relation) {
    |created| == |groups| && forall i | 0 <= i < |groups| :: fits(created[i], groups[i])
  }

  lemma {:induction false} AllBuilt(groups: seq<Group>, build: Builder, fits: Relation, next: Id)
    requires forall i | 0 <= i < |groups| :: BuildsIt(build, groups[i], fits)
    requires WithGroups(groups, build, {}, next).errors == [] && WithGroups(groups, build, {}, next).escaped == None
    ensures Fit(WithGroups(groups, build, {}, next).created, groups, fits)
  {
    if groups == [] {
    } else {
      var n := |groups| - 1;
      var group, b := groups[n], WithGroups(groups[..n], build, {}, next);
      EmptySum(b.errors, build(group, {} + LinesOf(b.errors), b.next).errors);
      AllBuilt(groups[..n], build, fits, next);
      assert {} + LinesOf(b.errors) == {};
      assert IsBuilt(build(group, {}, b.next), group, fits);
    }
  }

  /** The products of the groups, as they are written. */
  ghost predicate AreProductsOf(created: seq<ProductSnapshot>, groups: seq<Group>, catalog: Catalog) {
    |created| == |groups| && forall i | 0 <= i < |groups| :: IsWritten(created[i], groups[i], catalog)
  }

  lemma {:induction false} AllWritten(groups: seq<Group>, catalog: Catalog, next: Id)
    requires forall i | 0 <= i < |groups| :: IsReady(groups[i], catalog)
    requires WithGroups(groups, BuilderOf(catalog), {}, next).errors == []
    requires WithGroups(groups, BuilderOf(catalog), {}, next).escaped == None
    ensures AreProductsOf(WithGroups(groups, BuilderOf(catalog), {}, next).created, groups, catalog)
  {
    var build: Builder, fits: Relation := BuilderOf(catalog), (p, group) => IsWritten(p, group, catalog);
    forall i | 0 <= i < |groups| ensures BuildsIt(build, groups[i], fits) {
      assert IsReady(groups[i], catalog);
      BuilderBuildsIt(groups[i], catalog, build, fits);
    }
    AllBuilt(groups, build, fits, next);
  }

  function VariantsIn(products: seq<ProductSnapshot>): nat {
    if products == [] then 0 else VariantsIn(products[..|products| - 1]) + |products[|products| - 1].variants|
  }

  lemma {:induction false} VariantsAddUp(products: seq<ProductSnapshot>, groups: seq<Group>)
    requires |products| == |groups| && forall i | 0 <= i < |groups| :: |products[i].variants| == |groups[i].rows|
    ensures VariantsIn(products) == RowsIn(groups)
  {
    if products == [] {
    } else {
      VariantsAddUp(products[..|products| - 1], groups[..|groups| - 1]);
    }
  }

  lemma {:induction false} AllHaveSlugs(values: seq<RowValues>)
    requires forall i | 0 <= i < |values| :: values[i].slug.Some?
    ensures |SlugList(values)| == |values|
    ensures forall i | 0 <= i < |values| :: SlugList(values)[i] == values[i].slug.value
  {
    if values == [] {
    } else {
      AllHaveSlugs(values[..|values| - 1]);
    }
  }

  function SlugsInFile(rows: seq<Row>): seq<string> { seq(|rows|, i requires 0 <= i < |rows| => rows[i].slug) }

  /** One product per slug, in the order of first appearance, and none of the catalog. */
  predicate OnePerSlug(rows: seq<Row>, catalog: Catalog, created: seq<ProductSnapshot>) {
    && |created| == |Unique(SlugsInFile(rows))|
    && forall k | 0 <= k < |created| ::
         created[k].slug == Unique(SlugsInFile(rows))[k] && created[k].slug !in catalog.slugs
  }

  /** Each product keeps the rules of the aggregate, and has a variant per row of its slug, in the order of the file. */
  ghost predicate VariantsOfRows(rows: seq<Row>, catalog: Catalog, created: seq<ProductSnapshot>) {
    && AllOk(rows, AllValues(rows)) && VariantsIn(created) == |rows|
    && forall k | 0 <= k < |created| ::
         IsProductOf(created[k], Group(created[k].slug, RowsOf(AllValues(rows), created[k].slug)))
  }

  /** No SKU or GTIN is twice in the file or in the catalog. */
  predicate CodesAreNew(rows: seq<Row>, catalog: Catalog) {
    var values := AllValues(rows);
    && (forall i, j | 0 <= i < j < |values| :: Apart(values[i], values[j]))
    && forall i | 0 <= i < |values| :: Ready(values[i]) && NotTaken(values[i], catalog)
  }

  lemma {:induction false} WithoutErrors(rows: seq<Row>, catalog: Catalog)
    requires FileRead(rows) && FileErrorsOf(rows, catalog) == []
    ensures var values := AllValues(rows);
            var groups := Grouped(values);
            && AllRowErrors(rows) == [] && ProductErrors(values) == [] && Repeated(values) == []
            && TakenSlugs(groups, catalog) == [] && TakenCodes(values, catalog) == []
            && AllBrandErrors(groups, catalog) == [] && AllCategoryErrors(groups, catalog) == []
  {
  }

  lemma {:induction false} FirstHasData(rows: seq<Row>, first: RowValues)
    requires FileRead(rows) && AllRowErrors(rows) == [] && first in AllValues(rows) && first.cells.title != ""
    ensures HasData(first)
  {
    var row := ValueOfRow(rows, first);
    var i :| 0 <= i < |rows| && rows[i] == row;
    NoneCollected(rows, RowErrors, i);
    ReadyWithoutErrors(row);
  }

  lemma {:induction false} GroupsHaveData(rows: seq<Row>)
    requires FileRead(rows) && AllRowErrors(rows) == [] && ProductErrors(AllValues(rows)) == []
    ensures forall i | 0 <= i < |Grouped(AllValues(rows))| :: HasData(Grouped(AllValues(rows))[i].rows[0])
  {
    var values := AllValues(rows);
    var groups := Grouped(values);
    FirstRowsHaveTitles(values);
    GroupedIsExact(values);
    forall i | 0 <= i < |groups| ensures HasData(groups[i].rows[0]) {
      assert HasTitle(groups[i]);
      assert groups[i].rows[0] in groups[i].rows;
      FirstHasData(rows, groups[i].rows[0]);
    }
  }

  lemma {:induction false} CodesOfFileAreNew(rows: seq<Row>, catalog: Catalog)
    requires FileRead(rows) && FileErrorsOf(rows, catalog) == []
    ensures CodesAreNew(rows, catalog)
  {
    var values := AllValues(rows);
    WithoutErrors(rows, catalog);
    NoRepeatsInFile(values);
    NoneTaken(values, catalog);
    NoRowErrors(rows);
    forall i | 0 <= i < |values| ensures Ready(values[i]) {
      assert IsOk(rows[i], values[i]);
      ReadyWithoutErrors(rows[i]);
    }
  }

  lemma {:induction false} RowsAreGood(rows: seq<Row>, some: seq<RowValues>)
    requires FileRead(rows) && AllRowErrors(rows) == [] && forall r | r in some :: r in AllValues(rows)
    ensures AreGood(some)
  {
    forall i | 0 <= i < |some|
      ensures AsRead(some[i].cells) && RowErrors(some[i].cells) == [] && some[i] == ValuesOf(some[i].cells)
    {
      assert some[i] in some;
      var row := ValueOfRow(rows, some[i]);
      var k :| 0 <= k < |rows| && rows[k] == row;
      NoneCollected(rows, RowErrors, k);
    }
  }

  /** The rows of a slug, in the order of the file. */
  function OwnRows(rows: seq<Row>, slug: string): seq<Row> {
    if rows == [] then []
    else
      var last := rows[|rows| - 1];
      OwnRows(rows[..|rows| - 1], slug) + if last.slug == slug then [last] else []
  }

  lemma {:induction false} OwnRowsAreCells(rows: seq<Row>, slug: string)
    requires (forall i | 0 <= i < |rows| :: AsRead(rows[i])) && AllRowErrors(rows) == []
    ensures CellsOf(RowsOf(AllValues(rows), slug)) == OwnRows(rows, slug)
  {
    if rows == [] {
    } else {
      var before, last := rows[..|rows| - 1], rows[|rows| - 1];
      EmptySum(AllRowErrors(before), RowErrors(last));
      OwnRowsAreCells(before, slug);
      ReadyWithoutErrors(last);
      assert AllValues(rows) == AllValues(before) + [ValuesOf(last)];
      CellsOfMore(AllValues(before), ValuesOf(last), slug);
    }
  }

  lemma {:induction false} CellsOfMore(values: seq<RowValues>, last: RowValues, slug: string)
    ensures CellsOf(RowsOf(values + [last], slug)) ==
              CellsOf(RowsOf(values, slug)) + if last.slug == Some(slug) then [last.cells] else []
  {
    NextSlug(values, last);
  }

  /** Each product says what the cells of its rows say, and each of its variants what its row does. */
  ghost predicate SaysTheFile(rows: seq<Row>, catalog: Catalog, created: seq<ProductSnapshot>) {
    forall k | 0 <= k < |created| :: SaysItsCells(created[k], OwnRows(rows, created[k].slug), catalog)
  }

  lemma {:induction false} FileIsSaid(rows: seq<Row>, catalog: Catalog, next: Id)
    requires FileRead(rows) && FileErrorsOf(rows, catalog) == []
    requires BuiltOf(rows, catalog, next).errors == [] && BuiltOf(rows, catalog, next).escaped == None
    ensures SaysTheFile(rows, catalog, BuiltOf(rows, catalog, next).created)
  {
    var groups, created := Grouped(AllValues(rows)), BuiltOf(rows, catalog, next).created;
    BuildsTheFile(rows, catalog, next);
    WithoutErrors(rows, catalog);
    GroupedIsExact(AllValues(rows));
    forall k | 0 <= k < |created| ensures SaysItsCells(created[k], OwnRows(rows, created[k].slug), catalog) {
      assert IsWritten(created[k], groups[k], catalog);
      OwnRowsAreCells(rows, created[k].slug);
    }
  }

  lemma {:induction false} GroupsAreGood(rows: seq<Row>)
    requires FileRead(rows) && AllRowErrors(rows) == []
    ensures forall i | 0 <= i < |Grouped(AllValues(rows))| :: AreGood(Grouped(AllValues(rows))[i].rows)
  {
    var groups := Grouped(AllValues(rows));
    GroupedIsExact(AllValues(rows));
    forall i | 0 <= i < |groups| ensures AreGood(groups[i].rows) {
      RowsAreGood(rows, groups[i].rows);
    }
  }

  lemma {:induction false} GroupsAreReady(rows: seq<Row>, catalog: Catalog)
    requires FileRead(rows) && FileErrorsOf(rows, catalog) == []
    ensures var groups := Grouped(AllValues(rows));
            forall i | 0 <= i < |groups| :: Usable(groups[i], catalog) && IsReady(groups[i], catalog)
  {
    WithoutErrors(rows, catalog);
    AllUsable(Grouped(AllValues(rows)), catalog);
    GroupsHaveData(rows);
    GroupsAreGood(rows);
    assert LinesOf(FileErrorsOf(rows, catalog)) == {};
    ChecksHold(rows, {});
    GroupsAreChecked(rows, {});
  }

  lemma {:induction false} BuiltWithoutErrors(rows: seq<Row>, catalog: Catalog, next: Id)
    requires FileErrorsOf(rows, catalog) == []
    ensures BuiltOf(rows, catalog, next) == WithGroups(Grouped(AllValues(rows)), BuilderOf(catalog), {}, next)
  {
    assert LinesOf(FileErrorsOf(rows, catalog)) == {};
  }

  /** Without errors, each product of the file is built as its rows say. */
  lemma {:induction false} BuildsTheFile(rows: seq<Row>, catalog: Catalog, next: Id)
    requires FileRead(rows) && FileErrorsOf(rows, catalog) == []
    requires BuiltOf(rows, catalog, next).errors == [] && BuiltOf(rows, catalog, next).escaped == None
    ensures var groups, created := Grouped(AllValues(rows)), BuiltOf(rows, catalog, next).created;
            AreProductsOf(created, groups, catalog) && forall i | 0 <= i < |groups| :: Usable(groups[i], catalog)
  {
    GroupsAreReady(rows, catalog);
    BuiltWithoutErrors(rows, catalog, next);
    AllWritten(Grouped(AllValues(rows)), catalog, next);
  }

  lemma {:induction false} OnePerSlugOfFile(rows: seq<Row>, catalog: Catalog, next: Id)
    requires FileRead(rows) && FileErrorsOf(rows, catalog) == []
    requires BuiltOf(rows, catalog, next).errors == [] && BuiltOf(rows, catalog, next).escaped == None
    ensures OnePerSlug(rows, catalog, BuiltOf(rows, catalog, next).created)
  {
    var groups, created := Grouped(AllValues(rows)), BuiltOf(rows, catalog, next).created;
    BuildsTheFile(rows, catalog, next);
    WithoutErrors(rows, catalog);
    GroupedIsExact(AllValues(rows));
    SlugsAreOfFile(rows);
    forall k | 0 <= k < |created|
      ensures created[k].slug == Unique(SlugsInFile(rows))[k] && created[k].slug !in catalog.slugs
    {
      assert SlugsOf(groups)[k] == groups[k].slug;
      assert IsWritten(created[k], groups[k], catalog) && Usable(groups[k], catalog);
    }
  }

  lemma {:induction false} VariantsOfFile(rows: seq<Row>, catalog: Catalog, next: Id)
    requires FileRead(rows) && FileErrorsOf(rows, catalog) == []
    requires BuiltOf(rows, catalog, next).errors == [] && BuiltOf(rows, catalog, next).escaped == None
    ensures VariantsOfRows(rows, catalog, BuiltOf(rows, catalog, next).created)
  {
    var groups, created := Grouped(AllValues(rows)), BuiltOf(rows, catalog, next).created;
    BuildsTheFile(rows, catalog, next);
    WithoutErrors(rows, catalog);
    NoRowErrors(rows);
    GroupedIsExact(AllValues(rows));
    RowsCounted(rows);
    forall k | 0 <= k < |created|
      ensures |created[k].variants| == |groups[k].rows|
      ensures IsProductOf(created[k], Group(created[k].slug, RowsOf(AllValues(rows), created[k].slug)))
    {
      assert IsWritten(created[k], groups[k], catalog);
    }
    VariantsAddUp(created, groups);
  }

  lemma {:induction false} RowsCounted(rows: seq<Row>)
    requires FileRead(rows) && AllRowErrors(rows) == []
    ensures RowsIn(Grouped(AllValues(rows))) == |rows|
  {
    SlugsAreOfFile(rows);
    RowsAddUp(AllValues(rows));
  }

  /**
   * An import without errors creates exactly what its file says: one product per slug with a variant per row, all of
   * them within the rules of the aggregate, with codes that are new in the file and in the catalog.
   */
  lemma {:induction false} ImportsTheFile(rows: seq<Row>, catalog: Catalog, next: Id)
    requires FileRead(rows) && FileErrorsOf(rows, catalog) == []
    requires BuiltOf(rows, catalog, next).errors == [] && BuiltOf(rows, catalog, next).escaped == None
    ensures OnePerSlug(rows, catalog, BuiltOf(rows, catalog, next).created)
    ensures VariantsOfRows(rows, catalog, BuiltOf(rows, catalog, next).created)
    ensures CodesAreNew(rows, catalog)
    ensures SaysTheFile(rows, catalog, BuiltOf(rows, catalog, next).created)
  {
    FileIsSaid(rows, catalog, next);
    OnePerSlugOfFile(rows, catalog, next);
    VariantsOfFile(rows, catalog, next);
    CodesOfFileAreNew(rows, catalog);
  }

  lemma {:induction false} SlugsAreOfFile(rows: seq<Row>)
    requires FileRead(rows) && AllRowErrors(rows) == []
    ensures SlugList(AllValues(rows)) == SlugsInFile(rows)
  {
    NoRowErrors(rows);
    var values := AllValues(rows);
    forall i | 0 <= i < |values| ensures values[i].slug == Some(rows[i].slug) {
      assert IsOk(rows[i], values[i]);
      ReadyWithoutErrors(rows[i]);
    }
    AllHaveSlugs(values);
  }

  // ---- An import that an error escapes ----

  /** `slug,title,sku,option:constructor` and `gorra,Gorra,G-1,roja`. */
  const CAP := Row(2, true, "gorra", "Gorra", "", "", "", "G-1", "", "", "", "", "", "", [("constructor", "roja")])

  const NO_CATALOG := Catalog({}, {}, {}, map[], map[])

  lemma {:induction false} CapIsRead()
    ensures FileRead([CAP])
  {
    var name := "constructor";
    assert Lower(name) == name;
    assert CAP.options[0] == (name, "roja");
  }

  lemma {:induction false} CapOptions()
    ensures Filled(CAP.options) == CAP.options && GoodOptions(CAP)
  {
    var cells := CAP.options;
    assert cells[0].1 == "roja" && cells[1..] == [];
    assert Filled(cells) == cells;
  }

  lemma {:induction false} CapHasNoErrors()
    ensures RowErrors(CAP) == []
  {
    CapCategories();
    assert Lower("") == "";
    CapOptions();
    NoErrorsExactly(CAP);
  }

  lemma {:induction false} CapValues() returns (v: RowValues)
    ensures v == ValuesOf(CAP) && AllValues([CAP]) == [v] && AllRowErrors([CAP]) == []
    ensures v.slug == Some("gorra") && v.line == 2 && v.options == Some(CAP.options) && HasData(v)
  {
    CapIsRead();
    CapHasNoErrors();
    ReadyWithoutErrors(CAP);
    CapOptions();
    v := ValuesOf(CAP);
    OneRow(CAP);
  }

  lemma {:induction false} OneRow(row: Row)
    requires row.wellFormed
    ensures AllValues([row]) == [ValuesOf(row)] && AllRowErrors([row]) == RowErrors(row)
  {
    assert [row][..0] == [];
    assert AllValues([row][..0]) == [] && Collected([row][..0], RowErrors) == [];
  }

  lemma {:induction false} CapEscapes(v: RowValues)
    requires HasData(v) && v.options == Some(CAP.options)
    ensures SomeEscapes([Group("gorra", [v])], {})
  {
    var group := Group("gorra", [v]);
    assert v.options.value[0].0 == "constructor";
    assert Inherits(group.rows[0]);
    assert SomeInherits(group.rows, {});
    assert Escapes([group][0], {});
  }

  /** The file above has no errors, and the import ends with an error that is none of its own. */
  lemma {:induction false} AnInheritedNameEscapes(next: Id)
    ensures FileRead([CAP]) && FileErrorsOf([CAP], NO_CATALOG) == []
    ensures BuiltOf([CAP], NO_CATALOG, next).escaped == Some(InvalidOptions)
  {
    CapIsRead();
    var v := CapValues();
    CapHasNoFileErrors(v);
    CapEscapes(v);
    WhenAnErrorEscapes([CAP], NO_CATALOG, next);
  }

  lemma {:induction false} CapIsOneGroup(v: RowValues)
    requires v.slug == Some("gorra") && v.cells.title == "Gorra"
    ensures Grouped([v]) == [Group("gorra", [v])] && ProductErrors([v]) == [] && Repeated([v]) == []
  {
    assert [v][..0] == [];
    assert SkusOf([]) == {} && KeysOf([]) == {};
  }

  lemma {:induction false} CapIsNotTaken(v: RowValues)
    requires v.brand == "" && v.categories == Some([])
    ensures TakenSlugs([Group("gorra", [v])], NO_CATALOG) == [] && TakenCodes([v], NO_CATALOG) == []
    ensures AllBrandErrors([Group("gorra", [v])], NO_CATALOG) == []
    ensures AllCategoryErrors([Group("gorra", [v])], NO_CATALOG) == []
  {
    assert [v][..0] == [] && [Group("gorra", [v])][..0] == [];
  }

  lemma {:induction false} CapHasNoFileErrors(v: RowValues)
    requires v == ValuesOf(CAP) && AllValues([CAP]) == [v] && AllRowErrors([CAP]) == [] && v.slug == Some("gorra")
    requires v.categories.Some?
    ensures Grouped([v]) == [Group("gorra", [v])] && FileErrorsOf([CAP], NO_CATALOG) == []
    ensures LinesOf(FileErrorsOf([CAP], NO_CATALOG)) == {}
  {
    CapCategories();
    assert v.brand == Lower("") == "";
    CapIsOneGroup(v);
    CapIsNotTaken(v);
  }

  lemma {:induction false} CapCategories()
    ensures CategorySlugsFrom("") == []
  {
    assert Split("") == [""];
    assert [""][1..] == [] && Trim("") == "";
    assert Slugs([""]) == [];
  }
}
