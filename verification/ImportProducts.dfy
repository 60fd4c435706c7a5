/** The bulk import of products: the rows of a slug are one product, checked against the file and the catalog first. */
module ImportProducts {
  import opened Collections
  import opened FileImport
  import opened ProductRows
  import opened Products
  import opened Variants
  import opened Wrappers

  /** A slug with its rows as they come; what the product itself says is taken from the first. */
  datatype Group = Group(slug: string, rows: seq<RowValues>)

  /** What the catalog already has: brands and categories by slug, each with its ID and whether it is active. */
  datatype Catalog = Catalog(slugs: set<string>, skus: set<string>, gtinKeys: set<string>,
                             brands: map<string, (Id, bool)>, categories: map<string, (Id, bool)>)

  // ---- The values of the rows ----

  /** The values of the rows with as many cells as the header. */
  function Kept(rows: seq<Row>, valuesOf: Row -> RowValues): seq<RowValues> {
    if rows == [] then []
    else Kept(rows[..|rows| - 1], valuesOf) + if rows[|rows| - 1].wellFormed then [valuesOf(rows[|rows| - 1])] else []
  }

  function AllValues(rows: seq<Row>): seq<RowValues> { Kept(rows, ValuesOf) }

  /** The errors of each row, one after the other. */
  function Collected(rows: seq<Row>, errorsOf: Row -> seq<RowError>): seq<RowError> {
    if rows == [] then [] else Collected(rows[..|rows| - 1], errorsOf) + errorsOf(rows[|rows| - 1])
  }

  function AllRowErrors(rows: seq<Row>): seq<RowError> { Collected(rows, RowErrors) }

  lemma {:induction false} NextRow(rows: seq<Row>, i: nat)
    requires i < |rows|
    ensures AllRowErrors(rows[..i + 1]) == AllRowErrors(rows[..i]) + RowErrors(rows[i])
    ensures AllValues(rows[..i + 1]) == AllValues(rows[..i]) + if rows[i].wellFormed then [ValuesOf(rows[i])] else []
  {
    assert rows[..i + 1][..i] == rows[..i];
  }

  method ParseRows(rows: seq<Row>, errors: ImportRowErrors) returns (values: seq<RowValues>)
    requires errors.Valid()
    modifies errors
    ensures errors.Valid() && errors.errors == old(errors.errors) + AllRowErrors(rows)
    ensures values == AllValues(rows)
  {
    values := [];
    for i := 0 to |rows|
      invariant errors.Valid() && errors.errors == old(errors.errors) + AllRowErrors(rows[..i])
      invariant values == AllValues(rows[..i])
    {
      NextRow(rows, i);
      Regrouped(old(errors.errors), AllRowErrors(rows[..i]), RowErrors(rows[i]));
      var parsed := ParseRow(rows[i], errors);
      if parsed.Some? { values := values + [parsed.value]; }
    }
    assert rows[..|rows|] == rows;
  }

  // ---- The products of the file ----

  function IndexOfSlug(groups: seq<Group>, slug: string): (r: Option<nat>)
    ensures r.Some? ==> r.value < |groups| && groups[r.value].slug == slug
    ensures r.None? ==> forall i | 0 <= i < |groups| :: groups[i].slug != slug
  {
    if groups == [] then None
    else if groups[|groups| - 1].slug == slug then Some(|groups| - 1)
    else IndexOfSlug(groups[..|groups| - 1], slug)
  }

  function WithRow(groups: seq<Group>, row: RowValues): seq<Group> {
    if row.slug.None? then groups
    else
      match IndexOfSlug(groups, row.slug.value)
      case None => groups + [Group(row.slug.value, [row])]
      case Some(i) => groups[i := groups[i].(rows := groups[i].rows + [row])]
  }

  function Grouped(values: seq<RowValues>): (groups: seq<Group>)
    ensures forall i | 0 <= i < |groups| :: groups[i].rows != []
  {
    if values == [] then [] else WithRow(Grouped(values[..|values| - 1]), values[|values| - 1])
  }

  /** Case does not matter, and an empty cell means no. */
  predicate SameStoreOnly(a: Row, b: Row) {
    var first, second := if a.storeOnly == "" then "false" else Lower(a.storeOnly),
                         if b.storeOnly == "" then "false" else Lower(b.storeOnly);
    first == second
  }

  predicate SameCategories(a: Row, b: Row) {
    (set s | s in CategorySlugsFrom(a.categories)) == set s | s in CategorySlugsFrom(b.categories)
  }

  function Differs(column: string, line: nat, differs: bool): seq<RowError> {
    ErrorIf(differs, line, column, "differsFromProduct")
  }

  /** A row after the first leaves each product column empty or repeats it. */
  function ColumnErrors(row: Row, first: Row): seq<RowError> {
    Differs("title", row.line, row.title != "" && row.title != first.title) +
    Differs("description", row.line, row.description != "" && row.description != first.description) +
    Differs("brand", row.line, row.brand != "" && Lower(row.brand) != Lower(first.brand)) +
    Differs("categories", row.line, row.categories != "" && !SameCategories(row, first)) +
    Differs("storeOnly", row.line, row.storeOnly != "" && !SameStoreOnly(row, first))
  }

  function ProductErrorsOf(groups: seq<Group>, row: RowValues): seq<RowError>
    requires forall i | 0 <= i < |groups| :: groups[i].rows != []
  {
    if row.slug.None? then []
    else
      match IndexOfSlug(groups, row.slug.value)
      case None => ErrorIf(row.cells.title == "", row.line, "title", "isNotEmpty")
      case Some(i) => ColumnErrors(row.cells, groups[i].rows[0].cells)
  }

  function ProductErrors(values: seq<RowValues>): seq<RowError> {
    if values == [] then []
    else
      ProductErrors(values[..|values| - 1]) + ProductErrorsOf(Grouped(values[..|values| - 1]), values[|values| - 1])
  }

  method CheckColumns(row: Row, first: Row, errors: ImportRowErrors)
    requires errors.Valid()
    modifies errors
    ensures errors.Valid() && errors.errors == old(errors.errors) + ColumnErrors(row, first)
  {
    var line, code := row.line, "differsFromProduct";
    Fail(errors, row.title != "" && row.title != first.title, line, "title", code);
    Fail(errors, row.description != "" && row.description != first.description, line, "description", code);
    Fail(errors, row.brand != "" && Lower(row.brand) != Lower(first.brand), line, "brand", code);
    Fail(errors, row.categories != "" && !SameCategories(row, first), line, "categories", code);
    Fail(errors, row.storeOnly != "" && !SameStoreOnly(row, first), line, "storeOnly", code);
    FiveInTurn(
      old(errors.errors), Differs("title", line, row.title != "" && row.title != first.title),
      Differs("description", line, row.description != "" && row.description != first.description),
      Differs("brand", line, row.brand != "" && Lower(row.brand) != Lower(first.brand)),
      Differs("categories", line, row.categories != "" && !SameCategories(row, first)),
      Differs("storeOnly", line, row.storeOnly != "" && !SameStoreOnly(row, first)));
  }

  lemma {:induction false} FiveInTurn<T>(before: seq<T>, a: seq<T>, b: seq<T>, c: seq<T>, d: seq<T>, e: seq<T>)
    ensures before + a + b + c + d + e == before + (a + b + c + d + e)
  {
    InTurn(before, a, b, c, d);
    Regrouped(before, a + b + c + d, e);
  }

  /** One more row: the first of its product, or compared with it. */
  method AddRow(products: seq<Group>, row: RowValues, errors: ImportRowErrors) returns (r: seq<Group>)
    requires errors.Valid() && row.line == row.cells.line && forall i | 0 <= i < |products| :: products[i].rows != []
    modifies errors
    ensures errors.Valid() && errors.errors == old(errors.errors) + ProductErrorsOf(products, row)
    ensures r == WithRow(products, row)
  {
    if row.slug.None? { return products; }
    var at := IndexOfSlug(products, row.slug.value);
    if at.None? {
      r := products + [Group(row.slug.value, [row])];
      Fail(errors, row.cells.title == "", row.line, "title", "isNotEmpty");
    } else {
      var product := products[at.value];
      r := products[at.value := product.(rows := product.rows + [row])];
      CheckColumns(row.cells, product.rows[0].cells, errors);
    }
  }

  lemma {:induction false} NextGroups(values: seq<RowValues>, i: nat)
    requires i < |values|
    ensures Grouped(values[..i + 1]) == WithRow(Grouped(values[..i]), values[i])
    ensures ProductErrors(values[..i + 1]) ==
              ProductErrors(values[..i]) + ProductErrorsOf(Grouped(values[..i]), values[i])
  {
    assert values[..i + 1][..i] == values[..i];
  }

  /** Groups the rows by slug and compares each with the first of its group. */
  method ProductsOf(values: seq<RowValues>, errors: ImportRowErrors) returns (products: seq<Group>)
    requires errors.Valid() && forall i | 0 <= i < |values| :: values[i].line == values[i].cells.line
    modifies errors
    ensures errors.Valid() && errors.errors == old(errors.errors) + ProductErrors(values)
    ensures products == Grouped(values)
  {
    products := [];
    for i := 0 to |values|
      invariant errors.Valid() && errors.errors == old(errors.errors) + ProductErrors(values[..i])
      invariant products == Grouped(values[..i])
    {
      NextGroups(values, i);
      Regrouped(old(errors.errors), ProductErrors(values[..i]), ProductErrorsOf(products, values[i]));
      products := AddRow(products, values[i], errors);
    }
    assert values[..|values|] == values;
  }

  // ---- Repeats in the file ----

  function SkusOf(values: seq<RowValues>): set<string> {
    set i | 0 <= i < |values| && values[i].sku.Some? :: values[i].sku.value
  }

  function KeysOf(values: seq<RowValues>): set<string> {
    set i | 0 <= i < |values| && values[i].gtin.Given? :: GtinKey(values[i].gtin.value)
  }

  /** A SKU or a GTIN that an earlier row has. */
  function RepeatedOf(before: seq<RowValues>, row: RowValues): seq<RowError> {
    ErrorIf(row.sku.Some? && row.sku.value in SkusOf(before), row.line, "sku", "repeated") +
    ErrorIf(row.gtin.Given? && GtinKey(row.gtin.value) in KeysOf(before), row.line, "gtin", "repeated")
  }

  function Repeated(values: seq<RowValues>): seq<RowError> {
    if values == [] then []
    else Repeated(values[..|values| - 1]) + RepeatedOf(values[..|values| - 1], values[|values| - 1])
  }

  lemma {:induction false} NextSkusAndKeys(before: seq<RowValues>, row: RowValues)
    ensures SkusOf(before + [row]) == SkusOf(before) + if row.sku.Some? then {row.sku.value} else {}
    ensures KeysOf(before + [row]) == KeysOf(before) + if row.gtin.Given? then {GtinKey(row.gtin.value)} else {}
  {
    var after := before + [row];
    forall i | 0 <= i < |before| ensures after[i] == before[i] {
    }
    assert after[|before|] == row;
    forall s | s in SkusOf(before) ensures s in SkusOf(after) {
      var i :| 0 <= i < |before| && before[i].sku == Some(s);
      assert after[i].sku == Some(s);
    }
    forall k | k in KeysOf(before) ensures k in KeysOf(after) {
      var i :| 0 <= i < |before| && before[i].gtin.Given? && GtinKey(before[i].gtin.value) == k;
      assert after[i].gtin.Given? && GtinKey(after[i].gtin.value) == k;
    }
  }

  lemma {:induction false} NextRepeated(values: seq<RowValues>, i: nat)
    requires i < |values|
    ensures Repeated(values[..i + 1]) == Repeated(values[..i]) + RepeatedOf(values[..i], values[i])
    ensures SkusOf(values[..i + 1]) == SkusOf(values[..i]) + if values[i].sku.Some? then {values[i].sku.value} else {}
    ensures KeysOf(values[..i + 1]) ==
              KeysOf(values[..i]) + if values[i].gtin.Given? then {GtinKey(values[i].gtin.value)} else {}
  {
    assert values[..i + 1][..i] == values[..i] && values[..i + 1] == values[..i] + [values[i]];
    NextSkusAndKeys(values[..i], values[i]);
  }

  method RejectRow(row: RowValues, skus: set<string>, keys: set<string>, ghost before: seq<RowValues>,
                   errors: ImportRowErrors)
    requires errors.Valid() && skus == SkusOf(before) && keys == KeysOf(before)
    modifies errors
    ensures errors.Valid() && errors.errors == old(errors.errors) + RepeatedOf(before, row)
  {
    if row.sku.Some? {
      Fail(errors, row.sku.value in skus, row.line, "sku", "repeated");
    }
    if row.gtin.Given? {
      Fail(errors, GtinKey(row.gtin.value) in keys, row.line, "gtin", "repeated");
    }
  }

  method RejectRepeated(values: seq<RowValues>, errors: ImportRowErrors)
    requires errors.Valid()
    modifies errors
    ensures errors.Valid() && errors.errors == old(errors.errors) + Repeated(values)
  {
    var skus: set<string>, keys: set<string> := {}, {};
    for i := 0 to |values|
      invariant errors.Valid() && errors.errors == old(errors.errors) + Repeated(values[..i])
      invariant skus == SkusOf(values[..i]) && keys == KeysOf(values[..i])
    {
      NextRepeated(values, i);
      Regrouped(old(errors.errors), Repeated(values[..i]), RepeatedOf(values[..i], values[i]));
      RejectRow(values[i], skus, keys, values[..i], errors);
      var row := values[i];
      if row.sku.Some? { skus := skus + {row.sku.value}; }
      if row.gtin.Given? { keys := keys + {GtinKey(row.gtin.value)}; }
    }
    assert values[..|values|] == values;
  }

  // ---- What the catalog has ----

  function TakenSlugs(groups: seq<Group>, catalog: Catalog): seq<RowError>
    requires forall i | 0 <= i < |groups| :: groups[i].rows != []
  {
    if groups == [] then []
    else
      var last := groups[|groups| - 1];
      TakenSlugs(groups[..|groups| - 1], catalog) +
      ErrorIf(last.slug in catalog.slugs, last.rows[0].line, "slug", "taken")
  }

  function TakenOf(row: RowValues, catalog: Catalog): seq<RowError> {
    ErrorIf(row.sku.Some? && row.sku.value in catalog.skus, row.line, "sku", "taken") +
    ErrorIf(row.gtin.Given? && GtinKey(row.gtin.value) in catalog.gtinKeys, row.line, "gtin", "taken")
  }

  function TakenCodes(values: seq<RowValues>, catalog: Catalog): seq<RowError> {
    if values == [] then []
    else TakenCodes(values[..|values| - 1], catalog) + TakenOf(values[|values| - 1], catalog)
  }

  method RejectTakenSlugs(groups: seq<Group>, catalog: Catalog, errors: ImportRowErrors)
    requires errors.Valid() && forall i | 0 <= i < |groups| :: groups[i].rows != []
    modifies errors
    ensures errors.Valid() && errors.errors == old(errors.errors) + TakenSlugs(groups, catalog)
  {
    for i := 0 to |groups|
      invariant errors.Valid() && errors.errors == old(errors.errors) + TakenSlugs(groups[..i], catalog)
    {
      assert groups[..i + 1][..i] == groups[..i];
      Fail(errors, groups[i].slug in catalog.slugs, groups[i].rows[0].line, "slug", "taken");
    }
    assert groups[..|groups|] == groups;
  }

  method RejectTakenCodes(values: seq<RowValues>, catalog: Catalog, errors: ImportRowErrors)
    requires errors.Valid()
    modifies errors
    ensures errors.Valid() && errors.errors == old(errors.errors) + TakenCodes(values, catalog)
  {
    for i := 0 to |values|
      invariant errors.Valid() && errors.errors == old(errors.errors) + TakenCodes(values[..i], catalog)
    {
      assert values[..i + 1][..i] == values[..i];
      var row := values[i];
      Fail(errors, row.sku.Some? && row.sku.value in catalog.skus, row.line, "sku", "taken");
      Fail(errors, row.gtin.Given? && GtinKey(row.gtin.value) in catalog.gtinKeys, row.line, "gtin", "taken");
    }
    assert values[..|values|] == values;
  }

  /** The slugs, and then the SKUs and the GTINs, that the catalog already has. */
  method RejectTaken(groups: seq<Group>, values: seq<RowValues>, catalog: Catalog, errors: ImportRowErrors)
    requires errors.Valid() && forall i | 0 <= i < |groups| :: groups[i].rows != []
    modifies errors
    ensures errors.Valid()
    ensures errors.errors == old(errors.errors) + (TakenSlugs(groups, catalog) + TakenCodes(values, catalog))
  {
    RejectTakenSlugs(groups, catalog, errors);
    RejectTakenCodes(values, catalog, errors);
    Regrouped(old(errors.errors), TakenSlugs(groups, catalog), TakenCodes(values, catalog));
  }

  function BrandOf(row: RowValues, catalog: Catalog): Option<Id> {
    if row.brand != "" && row.brand in catalog.brands && catalog.brands[row.brand].1
    then Some(catalog.brands[row.brand].0)
    else None
  }

  function BrandErrors(row: RowValues, catalog: Catalog): seq<RowError> {
    if row.brand == "" then []
    else if row.brand !in catalog.brands then [RowError(row.line, Some("brand"), "unknownBrand")]
    else ErrorIf(!catalog.brands[row.brand].1, row.line, "brand", "inactiveBrand")
  }

  predicate AllKnown(slugs: seq<string>, catalog: Catalog) {
    forall i | 0 <= i < |slugs| :: slugs[i] in catalog.categories
  }

  predicate AllActive(slugs: seq<string>, catalog: Catalog) {
    forall i | 0 <= i < |slugs| :: slugs[i] in catalog.categories ==> catalog.categories[slugs[i]].1
  }

  function CategoryErrors(row: RowValues, catalog: Catalog): seq<RowError> {
    if row.categories.None? then []
    else if !AllKnown(row.categories.value, catalog) then [RowError(row.line, Some("categories"), "unknownCategories")]
    else ErrorIf(!AllActive(row.categories.value, catalog), row.line, "categories", "inactiveCategories")
  }

  function IdsOf(slugs: seq<string>, catalog: Catalog): (ids: seq<Id>)
    ensures |ids| <= |slugs|
  {
    if slugs == [] then []
    else (if slugs[0] in catalog.categories then [catalog.categories[slugs[0]].0] else []) + IdsOf(slugs[1..], catalog)
  }

  /** The errors of the brands, in the first row of each product. */
  function AllBrandErrors(groups: seq<Group>, catalog: Catalog): seq<RowError>
    requires forall i | 0 <= i < |groups| :: groups[i].rows != []
  {
    if groups == [] then []
    else AllBrandErrors(groups[..|groups| - 1], catalog) + BrandErrors(groups[|groups| - 1].rows[0], catalog)
  }

  function AllCategoryErrors(groups: seq<Group>, catalog: Catalog): seq<RowError>
    requires forall i | 0 <= i < |groups| :: groups[i].rows != []
  {
    if groups == [] then []
    else AllCategoryErrors(groups[..|groups| - 1], catalog) + CategoryErrors(groups[|groups| - 1].rows[0], catalog)
  }

  method BrandsOf(groups: seq<Group>, catalog: Catalog, errors: ImportRowErrors)
    requires errors.Valid() && forall i | 0 <= i < |groups| :: groups[i].rows != []
    modifies errors
    ensures errors.Valid() && errors.errors == old(errors.errors) + AllBrandErrors(groups, catalog)
  {
    for i := 0 to |groups|
      invariant errors.Valid() && errors.errors == old(errors.errors) + AllBrandErrors(groups[..i], catalog)
    {
      assert groups[..i + 1][..i] == groups[..i];
      var first := groups[i].rows[0];
      if first.brand != "" {
        if first.brand !in catalog.brands {
          errors.Add(first.line, Some("brand"), "unknownBrand");
        } else {
          Fail(errors, !catalog.brands[first.brand].1, first.line, "brand", "inactiveBrand");
        }
      }
    }
    assert groups[..|groups|] == groups;
  }

  method CategoriesOf(groups: seq<Group>, catalog: Catalog, errors: ImportRowErrors)
    requires errors.Valid() && forall i | 0 <= i < |groups| :: groups[i].rows != []
    modifies errors
    ensures errors.Valid() && errors.errors == old(errors.errors) + AllCategoryErrors(groups, catalog)
  {
    for i := 0 to |groups|
      invariant errors.Valid() && errors.errors == old(errors.errors) + AllCategoryErrors(groups[..i], catalog)
    {
      assert groups[..i + 1][..i] == groups[..i];
      var first := groups[i].rows[0];
      if first.categories.Some? {
        if !AllKnown(first.categories.value, catalog) {
          errors.Add(first.line, Some("categories"), "unknownCategories");
        } else {
          Fail(errors, !AllActive(first.categories.value, catalog), first.line, "categories", "inactiveCategories");
        }
      }
    }
    assert groups[..|groups|] == groups;
  }
}
