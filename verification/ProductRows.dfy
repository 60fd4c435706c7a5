/** The rows of a product file: their cells, the errors of each row, and the values of one without errors. */
module ProductRows {
  import opened Collections
  import opened FileImport
  import opened Products
  import opened Variants
  import opened Wrappers

  /** The cell of an option: its name in lowercase, and '' when the variant has not it. */
  type OptionCell = (string, string)

  /** What the reader hands over of one line: every cell as text. */
  datatype Row = Row(
    line: nat, wellFormed: bool, slug: string, title: string, description: string, brand: string, categories: string,
    sku: string, gtin: string, weightGrams: string, length: string, width: string, height: string, storeOnly: string,
    options: seq<OptionCell>)

  /**
   * A name the reader gives an option. It fills a plain object by assignment, so a column named `__proto__` leaves
   * nothing there (src/platform/files/csv-file.ts:99-104).
   */
  predicate OptionColumn(name: string) { NameFits(name) && Trimmed(name) && Lower(name) == name && name != "__proto__" }

  /** What the reader of the file promises: trimmed cells, and names of options in lowercase, of a length, once each. */
  predicate AsRead(row: Row) {
    && Trimmed(row.title) && Trimmed(row.sku)
    && (forall i | 0 <= i < |row.options| :: OptionColumn(row.options[i].0) && Trimmed(row.options[i].1))
    && forall i, j | 0 <= i < j < |row.options| :: row.options[i].0 != row.options[j].0
  }

  predicate RowsAscend(rows: seq<Row>) { forall i, j | 0 <= i < j < |rows| :: rows[i].line < rows[j].line }

  /** A file as its reader gives it: each row as read, with a line after the lines of the rows before. */
  predicate FileRead(rows: seq<Row>) { RowsAscend(rows) && forall i | 0 <= i < |rows| :: AsRead(rows[i]) }

  /** A cell that may be empty. */
  datatype Cell<T> = Invalid | Empty | Given(value: T)

  datatype RowValues = RowValues(
    line: nat, slug: Option<string>, title: Option<string>, description: Option<string>, brand: string,
    categories: Option<seq<string>>, storeOnly: Option<bool>, sku: Option<string>, gtin: Cell<string>,
    weightGrams: Cell<int>, length: Cell<int>, width: Cell<int>, height: Cell<int>,
    options: Option<seq<OptionCell>>, cells: Row)

  // ---- Cells ----

  function Decimal(digits: string): int {
    if digits == "" then 0 else Decimal(digits[..|digits| - 1]) * 10 + DigitOf(digits[|digits| - 1])
  }

  lemma {:induction false} UpToSixDigits(digits: string)
    requires Digits(digits) && |digits| <= 6
    ensures 0 <= Decimal(digits)
    ensures |digits| == 0 ==> Decimal(digits) == 0
    ensures |digits| <= 1 ==> Decimal(digits) <= 9
    ensures |digits| <= 2 ==> Decimal(digits) <= 99
    ensures |digits| <= 3 ==> Decimal(digits) <= 999
    ensures |digits| <= 4 ==> Decimal(digits) <= 9999
    ensures |digits| <= 5 ==> Decimal(digits) <= 99999
    ensures Decimal(digits) <= 999999
  {
    if digits == "" {
    } else {
      UpToSixDigits(digits[..|digits| - 1]);
      assert 0 <= DigitOf(digits[|digits| - 1]) <= 9;
    }
  }

  /** Whole grams above 0. */
  function GramsFrom(text: string): Option<int> {
    if 1 <= |text| <= 10 && Digits(text) && 1 <= Decimal(text) <= MAX_WEIGHT_GRAMS then Some(Decimal(text)) else None
  }

  /** Up to six digits, and perhaps a point and one more. */
  predicate CentimetersPattern(text: string) {
    || (1 <= |text| <= 6 && Digits(text))
    || (3 <= |text| <= 8 && Digits(text[..|text| - 2]) && text[|text| - 2] == '.' && Digit(text[|text| - 1]))
  }

  function Tenths(text: string): int
    requires CentimetersPattern(text)
  {
    if Digits(text) then Decimal(text) * 10 else Decimal(text[..|text| - 2]) * 10 + DigitOf(text[|text| - 1])
  }

  /** Tenths of a centimeter, above 0. */
  function CentimetersFrom(text: string): Option<int> {
    if CentimetersPattern(text) && Tenths(text) > 0 then Some(Tenths(text)) else None
  }

  lemma {:induction false} CentimetersFit(text: string)
    ensures SizeFits(CentimetersFrom(text))
  {
    if CentimetersPattern(text) {
      if Digits(text) && |text| <= 6 {
        UpToSixDigits(text);
      } else {
        assert text[|text| - 2] == '.' && !Digit('.');
        UpToSixDigits(text[..|text| - 2]);
      }
    }
  }

  function Measure(text: string, parse: string -> Option<int>): Cell<int> {
    if text == "" then Empty else if parse(text).Some? then Given(parse(text).value) else Invalid
  }

  function GtinCell(text: string): Cell<string> {
    if text == "" then Empty else if ValidGtin(text).Ok? then Given(text) else Invalid
  }

  function StoreOnlyOf(text: string): Option<bool> {
    var value := Lower(text);
    if value == "" || value == "false" then Some(false) else if value == "true" then Some(true) else None
  }

  /** The parts between bars. */
  function Split(text: string): (parts: seq<string>)
    ensures parts != []
  {
    if text == "" then [""]
    else
      var rest := Split(text[1..]);
      if text[0] == '|' then [""] + rest else [[text[0]] + rest[0]] + rest[1..]
  }

  function Slugs(parts: seq<string>): seq<string> {
    if parts == [] then []
    else (if Trim(parts[0]) == "" then [] else [Lower(Trim(parts[0]))]) + Slugs(parts[1..])
  }

  function CategorySlugsFrom(text: string): seq<string> { Unique(Slugs(Split(text))) }

  function Filled(cells: seq<OptionCell>): seq<OptionCell> {
    if cells == [] then [] else (if cells[0].1 == "" then [] else [cells[0]]) + Filled(cells[1..])
  }

  // ---- The errors of a row, in the order they are found ----

  function ErrorIf(bad: bool, line: nat, column: string, code: string): seq<RowError> {
    if bad then [RowError(line, Some(column), code)] else []
  }

  function RequiredOr(text: string, bad: bool, line: nat, column: string, code: string): seq<RowError> {
    if text == "" then [RowError(line, Some(column), "isNotEmpty")] else ErrorIf(bad, line, column, code)
  }

  function GtinErrors(row: Row): seq<RowError> {
    if row.gtin == "" then []
    else if !GtinPattern(row.gtin) then [RowError(row.line, Some("gtin"), "matches")]
    else ErrorIf(ValidGtin(row.gtin).Err?, row.line, "gtin", "gtinCheckDigit")
  }

  function LongValues(line: nat, cells: seq<OptionCell>): seq<RowError> {
    if cells == [] then []
    else LongValues(line, cells[..|cells| - 1]) +
         ErrorIf(|cells[|cells| - 1].1| > MAX_OPTION_VALUE_LENGTH, line, "option:" + cells[|cells| - 1].0, "maxLength")
  }

  function OptionErrors(row: Row): seq<RowError> {
    LongValues(row.line, Filled(row.options)) +
    ErrorIf(|Filled(row.options)| > MAX_OPTIONS, row.line, "options", "options")
  }

  function TextErrors(row: Row): seq<RowError> {
    RequiredOr(row.slug, !SlugFits(row.slug), row.line, "slug", "slug") +
    ErrorIf(|row.title| > MAX_TITLE_LENGTH, row.line, "title", "maxLength") +
    ErrorIf(|row.description| > MAX_DESCRIPTION_LENGTH, row.line, "description", "maxLength") +
    ErrorIf(|CategorySlugsFrom(row.categories)| > MAX_CATEGORIES_PER_PRODUCT, row.line, "categories", "arrayMaxSize")
  }

  function CellErrors(row: Row): seq<RowError> {
    TextErrors(row) + RequiredOr(row.sku, !SkuPattern(row.sku), row.line, "sku", "matches")
  }

  function StoreErrors(row: Row): seq<RowError> {
    ErrorIf(StoreOnlyOf(row.storeOnly).None?, row.line, "storeOnly", "isBoolean") + GtinErrors(row)
  }

  function MeasureErrors(row: Row): seq<RowError> {
    ErrorIf(Measure(row.weightGrams, GramsFrom).Invalid?, row.line, "weightGrams", "grams") +
    ErrorIf(Measure(row.length, CentimetersFrom).Invalid?, row.line, "lengthCm", "centimeters") +
    ErrorIf(Measure(row.width, CentimetersFrom).Invalid?, row.line, "widthCm", "centimeters") +
    ErrorIf(Measure(row.height, CentimetersFrom).Invalid?, row.line, "heightCm", "centimeters")
  }

  function RowErrors(row: Row): seq<RowError> {
    if !row.wellFormed then [RowError(row.line, None, "columnCount")]
    else CellErrors(row) + StoreErrors(row) + MeasureErrors(row) + OptionErrors(row)
  }

  /** A cell whose text may be bad: its value, or nothing. */
  function Unless<T>(bad: bool, value: T): Option<T> { if bad then None else Some(value) }

  /** The values of a well-formed row, each one missing when its cell has an error. */
  function ValuesOf(row: Row): RowValues {
    RowValues(
      row.line, Unless(!SlugFits(row.slug), row.slug), Unless(|row.title| > MAX_TITLE_LENGTH, row.title),
      Unless(|row.description| > MAX_DESCRIPTION_LENGTH, row.description), Lower(row.brand),
      Unless(|CategorySlugsFrom(row.categories)| > MAX_CATEGORIES_PER_PRODUCT, CategorySlugsFrom(row.categories)),
      StoreOnlyOf(row.storeOnly), Unless(!SkuPattern(row.sku), Upper(row.sku)), GtinCell(row.gtin),
      Measure(row.weightGrams, GramsFrom), Measure(row.length, CentimetersFrom), Measure(row.width, CentimetersFrom),
      Measure(row.height, CentimetersFrom),
      Unless(|Filled(row.options)| > MAX_OPTIONS, Filled(row.options)), row)
  }

  lemma {:induction false} InTurn<T>(before: seq<T>, a: seq<T>, b: seq<T>, c: seq<T>, d: seq<T>)
    ensures before + a + b + c + d == before + (a + b + c + d)
  {
  }

  method Fail(errors: ImportRowErrors, bad: bool, line: nat, column: string, code: string)
    requires errors.Valid()
    modifies errors
    ensures errors.Valid() && errors.errors == old(errors.errors) + ErrorIf(bad, line, column, code)
  {
    if bad { errors.Add(line, Some(column), code); }
  }

  method FailRequired(errors: ImportRowErrors, text: string, bad: bool, line: nat, column: string, code: string)
    requires errors.Valid()
    modifies errors
    ensures errors.Valid() && errors.errors == old(errors.errors) + RequiredOr(text, bad, line, column, code)
  {
    if text == "" { errors.Add(line, Some(column), "isNotEmpty"); } else { Fail(errors, bad, line, column, code); }
  }

  method CheckCells(row: Row, errors: ImportRowErrors)
    requires errors.Valid()
    modifies errors
    ensures errors.Valid() && errors.errors == old(errors.errors) + CellErrors(row)
  {
    CheckTexts(row, errors);
    FailRequired(errors, row.sku, !SkuPattern(row.sku), row.line, "sku", "matches");
    Regrouped(old(errors.errors), TextErrors(row),
        RequiredOr(row.sku, !SkuPattern(row.sku), row.line, "sku", "matches"));
  }

  method CheckTexts(row: Row, errors: ImportRowErrors)
    requires errors.Valid()
    modifies errors
    ensures errors.Valid() && errors.errors == old(errors.errors) + TextErrors(row)
  {
    var slug, long := !SlugFits(row.slug), |row.title| > MAX_TITLE_LENGTH;
    var tooLong, many := |row.description| > MAX_DESCRIPTION_LENGTH,
        |CategorySlugsFrom(row.categories)| > MAX_CATEGORIES_PER_PRODUCT;
    FailRequired(errors, row.slug, slug, row.line, "slug", "slug");
    Fail(errors, long, row.line, "title", "maxLength");
    Fail(errors, tooLong, row.line, "description", "maxLength");
    Fail(errors, many, row.line, "categories", "arrayMaxSize");
    InTurn(old(errors.errors), RequiredOr(row.slug, slug, row.line, "slug", "slug"),
        ErrorIf(long, row.line, "title", "maxLength"),
           ErrorIf(tooLong, row.line, "description", "maxLength"),
           ErrorIf(many, row.line, "categories", "arrayMaxSize"));
  }

  method CheckStore(row: Row, errors: ImportRowErrors)
    requires errors.Valid()
    modifies errors
    ensures errors.Valid() && errors.errors == old(errors.errors) + StoreErrors(row)
  {
    Fail(errors, StoreOnlyOf(row.storeOnly).None?, row.line, "storeOnly", "isBoolean");
    if row.gtin != "" {
      if !GtinPattern(row.gtin) {
        errors.Add(row.line, Some("gtin"), "matches");
      } else {
        Fail(errors, ValidGtin(row.gtin).Err?, row.line, "gtin", "gtinCheckDigit");
      }
    }
  }

  method CheckMeasures(row: Row, errors: ImportRowErrors)
    requires errors.Valid()
    modifies errors
    ensures errors.Valid() && errors.errors == old(errors.errors) + MeasureErrors(row)
  {
    Fail(errors, Measure(row.weightGrams, GramsFrom).Invalid?, row.line, "weightGrams", "grams");
    Fail(errors, Measure(row.length, CentimetersFrom).Invalid?, row.line, "lengthCm", "centimeters");
    Fail(errors, Measure(row.width, CentimetersFrom).Invalid?, row.line, "widthCm", "centimeters");
    Fail(errors, Measure(row.height, CentimetersFrom).Invalid?, row.line, "heightCm", "centimeters");
  }

  method CheckOptions(row: Row, errors: ImportRowErrors)
    requires errors.Valid()
    modifies errors
    ensures errors.Valid() && errors.errors == old(errors.errors) + OptionErrors(row)
  {
    var options := Filled(row.options);
    for i := 0 to |options|
      invariant errors.Valid() && errors.errors == old(errors.errors) + LongValues(row.line, options[..i])
    {
      assert options[..i + 1][..i] == options[..i];
      Fail(errors, |options[i].1| > MAX_OPTION_VALUE_LENGTH, row.line, "option:" + options[i].0, "maxLength");
    }
    assert options[..|options|] == options;
    Fail(errors, |options| > MAX_OPTIONS, row.line, "options", "options");
  }

  /** Adds the errors of the row; its values are worth something only when it is well formed. */
  method ParseRow(row: Row, errors: ImportRowErrors) returns (r: Option<RowValues>)
    requires errors.Valid()
    modifies errors
    ensures errors.Valid() && errors.errors == old(errors.errors) + RowErrors(row)
    ensures r == if row.wellFormed then Some(ValuesOf(row)) else None
  {
    if !row.wellFormed {
      errors.Add(row.line, None, "columnCount");
      return None;
    }
    CheckCells(row, errors);
    CheckStore(row, errors);
    CheckMeasures(row, errors);
    CheckOptions(row, errors);
    InTurn(old(errors.errors), CellErrors(row), StoreErrors(row), MeasureErrors(row), OptionErrors(row));
    r := Some(ValuesOf(row));
  }
}
