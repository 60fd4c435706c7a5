/** What a row of a product file says, read from its cells: its errors, its variant and its product. */
module RowCells {
  import opened ImportBuild
  import opened ImportExecution
  import opened ImportProducts
  import opened ProductRows
  import opened Products
  import opened Variants
  import opened Wrappers

  // ---- Numbers ----

  function DigitChar(digit: nat): char
    requires digit <= 9
  {
    ['0', '1', '2', '3', '4', '5', '6', '7', '8', '9'][digit]
  }

  /** A number in decimal. */
  function Printed(n: nat): (text: string)
    ensures text != "" && Digits(text)
  {
    (if n < 10 then "" else Printed(n / 10)) + [DigitChar(n % 10)]
  }

  /** A number printed in decimal is read back. */
  lemma {:induction false} ReadsWhatWasPrinted(n: nat)
    ensures Decimal(Printed(n)) == n
  {
    var last := [DigitChar(n % 10)];
    DigitIsRead(n % 10);
    if n < 10 {
      assert Printed(n) == last && last[..0] == "";
    } else {
      ReadsWhatWasPrinted(n / 10);
      assert Printed(n)[..|Printed(n)| - 1] == Printed(n / 10);
    }
  }

  /** A weight is read exactly when it is a number of grams, in at most ten digits, that fits. */
  lemma {:induction false} ReadsGrams(n: nat)
    requires |Printed(n)| <= 10
    ensures GramsFrom(Printed(n)) == if 1 <= n <= 2147483647 then Some(n) else None
  {
    ReadsWhatWasPrinted(n);
  }

  /** A size is read with one decimal or none, in tenths. */
  lemma {:induction false} ReadsCentimeters(n: nat, tenth: nat)
    requires |Printed(n)| <= 6 && tenth <= 9
    ensures CentimetersFrom(Printed(n)) == if n > 0 then Some(10 * n) else None
    ensures CentimetersFrom(Printed(n) + ['.', DigitChar(tenth)]) ==
              if n + tenth > 0 then Some(10 * n + tenth) else None
  {
    ReadsWhatWasPrinted(n);
    DigitIsRead(tenth);
    WithoutTenth(Printed(n));
    WithTenth(Printed(n), DigitChar(tenth));
  }

  lemma {:induction false} DigitIsRead(digit: nat)
    requires digit <= 9
    ensures Digit(DigitChar(digit)) && DigitOf(DigitChar(digit)) == digit
  {
  }

  lemma {:induction false} WithoutTenth(whole: string)
    requires 1 <= |whole| <= 6 && Digits(whole) && Decimal(whole) >= 0
    ensures CentimetersFrom(whole) == if Decimal(whole) > 0 then Some(10 * Decimal(whole)) else None
  {
  }

  lemma {:induction false} WithTenth(whole: string, tenth: char)
    requires 1 <= |whole| <= 6 && Digits(whole) && Digit(tenth)
    ensures var tenths := 10 * Decimal(whole) + DigitOf(tenth);
            CentimetersFrom(whole + ['.', tenth]) == if tenths > 0 then Some(tenths) else None
  {
    var text, n := whole + ['.', tenth], |whole|;
    assert |text| == n + 2 && text[n] == '.' && text[n + 1] == tenth && text[..n] == whole;
    assert !Digits(text);
  }

  // ---- Categories ----

  /** What stands between two bars, or between a bar and an end of the text. */
  predicate BetweenBars(text: string, i: nat, j: nat) {
    && i <= j <= |text| && (forall k | i <= k < j :: text[k] != '|')
    && (i == 0 || text[i - 1] == '|') && (j == |text| || text[j] == '|')
  }

  ghost predicate IsPart(text: string, part: string) {
    exists i: nat, j: nat :: BetweenBars(text, i, j) && text[i..j] == part
  }

  /** The part that begins the text. */
  lemma {:induction false} FirstPart(text: string) returns (j: nat)
    ensures BetweenBars(text, 0, j) && Split(text)[0] == text[..j]
    ensures j < |text| ==> Split(text)[1..] == Split(text[j + 1..])
    ensures j == |text| ==> |Split(text)| == 1
  {
    if text == "" {
      j := 0;
    } else if text[0] == '|' {
      j := 0;
      assert Split(text) == [""] + Split(text[1..]);
    } else {
      var rest := text[1..];
      var k := FirstPart(rest);
      j := k + 1;
      assert text[..j] == [text[0]] + rest[..k] && text[j..] == rest[k..];
      assert text[0..j] == text[..j];
      assert j < |text| ==> rest[k + 1..] == text[j + 1..];
    }
  }

  /** Splitting gives exactly the parts between bars. */
  lemma {:induction false} SplitIsExact(text: string, part: string)
    ensures part in Split(text) <==> IsPart(text, part)
    decreases |text|
  {
    var j := FirstPart(text);
    var parts := Split(text);
    assert parts == [parts[0]] + parts[1..];
    assert BetweenBars(text, 0, j) && text[0..j] == parts[0];
    if j < |text| {
      SplitIsExact(text[j + 1..], part);
      LaterParts(text, j, part);
    } else {
      OnlyPart(text, part);
    }
  }

  lemma {:induction false} OnlyPart(text: string, part: string)
    requires '|' !in text
    ensures IsPart(text, part) <==> part == text
  {
    assert BetweenBars(text, 0, |text|) && text[0..|text|] == text;
  }

  lemma {:induction false} LaterParts(text: string, bar: nat, part: string)
    requires BetweenBars(text, 0, bar) && bar < |text|
    ensures IsPart(text, part) <==> part == text[..bar] || IsPart(text[bar + 1..], part)
  {
    var rest := text[bar + 1..];
    if IsPart(rest, part) {
      var i: nat, j: nat :| BetweenBars(rest, i, j) && rest[i..j] == part;
      SamePlace(text, bar, i, j);
    }
    if IsPart(text, part) && part != text[..bar] {
      var i: nat, j: nat :| BetweenBars(text, i, j) && text[i..j] == part;
      BeyondBar(text, bar, i, j);
      SamePlace(text, bar, i - bar - 1, j - bar - 1);
    }
    assert text[0..bar] == text[..bar];
  }

  lemma {:induction false} SamePlace(text: string, bar: nat, i: nat, j: nat)
    requires bar < |text| && text[bar] == '|' && i <= j <= |text| - bar - 1
    ensures var rest := text[bar + 1..];
            && rest[i..j] == text[bar + 1 + i..bar + 1 + j]
            && (BetweenBars(rest, i, j) <==> BetweenBars(text, bar + 1 + i, bar + 1 + j))
  {
    var rest := text[bar + 1..];
    assert forall k | 0 <= k < |rest| :: rest[k] == text[bar + 1 + k];
    if BetweenBars(rest, i, j) {
      forall k | bar + 1 + i <= k < bar + 1 + j ensures text[k] != '|' {
        assert rest[k - bar - 1] != '|';
      }
    }
  }

  lemma {:induction false} BeyondBar(text: string, bar: nat, i: nat, j: nat)
    requires BetweenBars(text, 0, bar) && bar < |text| && BetweenBars(text, i, j) && text[i..j] != text[..bar]
    ensures i > bar
  {
  }

  /** The slugs of the categories are those of the parts, trimmed and in lowercase, without blanks. */
  lemma {:induction false} CategorySlugsAreExact(text: string, slug: string)
    ensures slug in CategorySlugsFrom(text) <==>
              exists part :: IsPart(text, part) && Trim(part) != "" && Lower(Trim(part)) == slug
    ensures NoRepeats(CategorySlugsFrom(text))
  {
    UniqueHasNoRepeats(Slugs(Split(text)));
    SlugsAreExact(Split(text), slug);
    forall part ensures part in Split(text) <==> IsPart(text, part) {
      SplitIsExact(text, part);
    }
  }

  lemma {:induction false} SlugsAreExact(parts: seq<string>, slug: string)
    ensures slug in Slugs(parts) <==> exists part :: part in parts && Trim(part) != "" && Lower(Trim(part)) == slug
  {
    if parts == [] {
    } else {
      SlugsAreExact(parts[1..], slug);
      assert parts == [parts[0]] + parts[1..];
    }
  }

  // ---- A row without errors ----

  /** The codes of the row: a SKU of 1 to 64 characters, and no GTIN or one with its check digit. */
  predicate GoodCodes(row: Row) {
    && SkuPattern(row.sku)
    && (row.gtin == ""
        || (|row.gtin| in {8, 12, 13, 14} && Digits(row.gtin) && WeightedSum(row.gtin, 0) % 10 == 0))
  }

  predicate GoodTexts(row: Row) {
    && SlugPattern(row.slug) && |row.slug| <= 200 && |row.title| <= 200 && |row.description| <= 10000
    && |CategorySlugsFrom(row.categories)| <= 10
    && Lower(row.storeOnly) in {"", "false", "true"}
  }

  predicate GoodMeasures(row: Row) {
    && (row.weightGrams == "" || GramsFrom(row.weightGrams).Some?)
    && (row.length == "" || CentimetersFrom(row.length).Some?)
    && (row.width == "" || CentimetersFrom(row.width).Some?)
    && (row.height == "" || CentimetersFrom(row.height).Some?)
  }

  /** Three options at most that have a value, none longer than 50 characters. */
  predicate GoodOptions(row: Row) {
    |Filled(row.options)| <= 3 && forall cell | cell in row.options :: |cell.1| <= 50
  }

  predicate GoodRow(row: Row) {
    row.wellFormed && GoodTexts(row) && GoodCodes(row) && GoodMeasures(row) && GoodOptions(row)
  }

  lemma {:induction false} TextsAreGood(row: Row)
    ensures CellErrors(row) == [] && StoreOnlyOf(row.storeOnly).Some? <==> GoodTexts(row) && SkuPattern(row.sku)
  {
  }

  lemma {:induction false} GtinIsGood(row: Row)
    ensures GtinErrors(row) == [] && SkuPattern(row.sku) <==> GoodCodes(row)
  {
    if row.gtin != "" && GtinPattern(row.gtin) {
      CheckDigitMakesTens(row.gtin);
    }
  }

  lemma {:induction false} MeasuresAreGood(row: Row)
    ensures MeasureErrors(row) == [] <==> GoodMeasures(row)
  {
  }

  lemma {:induction false} LongValuesExactly(line: nat, cells: seq<OptionCell>)
    ensures LongValues(line, cells) == [] <==> forall cell | cell in cells :: |cell.1| <= 50
  {
    if cells == [] {
    } else {
      var front, last := cells[..|cells| - 1], cells[|cells| - 1];
      LongValuesExactly(line, front);
      assert cells == front + [last];
    }
  }

  lemma {:induction false} OptionsAreGood(row: Row)
    ensures OptionErrors(row) == [] <==> GoodOptions(row)
  {
    LongValuesExactly(row.line, Filled(row.options));
    forall cell ensures cell in Filled(row.options) <==> cell in row.options && cell.1 != "" {
      FilledAreAmong(row.options, cell);
    }
  }

  /** A row has no error exactly when it has as many cells as the header and each of them is good. */
  lemma {:induction false} NoErrorsExactly(row: Row)
    ensures RowErrors(row) == [] <==> GoodRow(row)
  {
    TextsAreGood(row);
    GtinIsGood(row);
    MeasuresAreGood(row);
    OptionsAreGood(row);
  }

  // ---- Its variant ----

  /** A measure of the variant: none for an empty cell. */
  predicate Measures(measure: Option<int>, cell: string, read: Option<int>) {
    measure == if cell == "" then None else read
  }

  /** The variant is on sale, with the SKU in uppercase and what the other cells say. */
  ghost predicate SaysTheRow(v: Variant, row: Row) {
    && v.active && v.sku == Upper(row.sku)
    && v.gtin == (if row.gtin == "" then None else Some(row.gtin))
    && (forall name, value :: name in v.options && v.options[name] == value <==>
          value != "" && (name, value) in row.options)
    && Measures(v.dimensions.weightGrams, row.weightGrams, GramsFrom(row.weightGrams))
    && Measures(v.dimensions.length, row.length, CentimetersFrom(row.length))
    && Measures(v.dimensions.width, row.width, CentimetersFrom(row.width))
    && Measures(v.dimensions.height, row.height, CentimetersFrom(row.height))
  }

  lemma {:induction false} NextOption(front: seq<OptionCell>, last: OptionCell)
    requires OptionColumn(last.0) && Trimmed(last.1)
    ensures OptionsIn(RawOptions(front + [last])) == OptionsIn(RawOptions(front))[last.0 := last.1]
  {
    var raw := RawOptions(front + [last]);
    assert raw[..|front|] == RawOptions(front) && raw[|front|] == RawOption(last.0, Some(last.1));
    TrimmedStays(last.0);
    TrimmedStays(last.1);
  }

  lemma {:induction false} OptionsSayTheCells(cells: seq<OptionCell>, name: string, value: string)
    requires Columns(cells)
    ensures var options := OptionsIn(RawOptions(cells));
            name in options && options[name] == value <==> (name, value) in cells
  {
    if cells == [] {
    } else {
      var front, last := cells[..|cells| - 1], cells[|cells| - 1];
      assert cells == front + [last];
      OptionsSayTheCells(front, name, value);
      NextOption(front, last);
      assert forall i | 0 <= i < |front| :: front[i].0 != last.0;
    }
  }

  /** The variant of a row without errors says what its cells do. */
  lemma {:induction false} VariantSaysItsRow(row: Row, v: Variant)
    requires AsRead(row) && RowErrors(row) == [] && IsVariantOf(v, ValuesOf(row))
    ensures SaysTheRow(v, row)
  {
    NoErrorsExactly(row);
    OptionsAreFilled(row);
    ValuesOfCells(row, ValuesOf(row));
  }

  /** The values of a good row, one by one. */
  lemma {:induction false} ValuesOfCells(row: Row, values: RowValues)
    requires GoodRow(row) && values == ValuesOf(row)
    ensures values.sku == Some(Upper(row.sku)) && values.options == Some(Filled(row.options))
    ensures OrNone(values.gtin) == if row.gtin == "" then None else Some(row.gtin)
    ensures Measures(OrNone(values.weightGrams), row.weightGrams, GramsFrom(row.weightGrams))
    ensures Measures(OrNone(values.length), row.length, CentimetersFrom(row.length))
    ensures Measures(OrNone(values.width), row.width, CentimetersFrom(row.width))
    ensures Measures(OrNone(values.height), row.height, CentimetersFrom(row.height))
  {
    GtinIsGood(row);
  }

  lemma {:induction false} OptionsAreFilled(row: Row)
    requires AsRead(row)
    ensures var options := OptionsIn(RawOptions(Filled(row.options)));
      forall name, value :: name in options && options[name] == value <==> value != "" && (name, value) in row.options
  {
    FilledHolds(row.options);
    forall name, value
      ensures var options := OptionsIn(RawOptions(Filled(row.options)));
        name in options && options[name] == value <==> value != "" && (name, value) in row.options
    {
      OptionsSayTheCells(Filled(row.options), name, value);
      FilledAreAmong(row.options, (name, value));
    }
  }

  // ---- Its product ----

  /** The title, the description unless it is blank, and whether it is for the store only, as the cells say. */
  predicate SaysTheTexts(p: ProductSnapshot, row: Row) {
    && p.title == Trim(row.title)
    && p.description == (if Trim(row.description) == "" then None else Some(row.description))
    && (p.storeOnly <==> Lower(row.storeOnly) == "true")
  }

  /** The brand and the categories are the active ones that the cells name, whatever their case. */
  ghost predicate SaysTheReferences(p: ProductSnapshot, row: Row, catalog: Catalog) {
    && (if row.brand == "" then p.brandId == None
        else Lower(row.brand) in catalog.brands && catalog.brands[Lower(row.brand)].1
             && p.brandId == Some(catalog.brands[Lower(row.brand)].0))
    && NoRepeats(p.categoryIds)
    && (forall slug | slug in CategorySlugsFrom(row.categories) ::
          slug in catalog.categories && catalog.categories[slug].1)
    && (forall id :: id in p.categoryIds <==>
          exists slug :: slug in CategorySlugsFrom(row.categories) && slug in catalog.categories
                         && catalog.categories[slug].0 == id)
  }

  lemma {:induction false} IdsAreOfSlugs(slugs: seq<string>, catalog: Catalog, id: Id)
    ensures id in IdsOf(slugs, catalog) <==>
              exists slug :: slug in slugs && slug in catalog.categories && catalog.categories[slug].0 == id
  {
    if slugs == [] {
    } else {
      IdsAreOfSlugs(slugs[1..], catalog, id);
      assert slugs == [slugs[0]] + slugs[1..];
    }
  }

  /** The product of some rows says what the cells of the first one do. */
  lemma {:induction false} ProductSaysItsRow(p: ProductSnapshot, group: Group, row: Row, catalog: Catalog, id: Id)
    requires AsRead(row) && group.rows != [] && group.rows[0] == ValuesOf(row) && HasData(group.rows[0])
    requires DraftOf(group, catalog, id).Ok? && p == DraftOf(group, catalog, id).value.(variants := p.variants)
    requires BrandErrors(group.rows[0], catalog) == [] && CategoryErrors(group.rows[0], catalog) == []
    ensures SaysTheTexts(p, row) && SaysTheReferences(p, row, catalog)
  {
    var slugs := CategorySlugsFrom(row.categories);
    forall id ensures id in p.categoryIds <==>
      exists slug :: slug in slugs && slug in catalog.categories && catalog.categories[slug].0 == id
    {
      IdsAreOfSlugs(slugs, catalog, id);
    }
    UniqueHasNoRepeats(IdsOf(slugs, catalog));
    forall slug | slug in slugs ensures slug in catalog.categories && catalog.categories[slug].1 {
    }
  }
}
