/** Exactly which files of products are imported, said of the cells of their rows. */
module ImportAccepts {
  import opened FileImport
  import opened ImportBuild
  import opened ImportedProducts
  import opened ImportExecution
  import opened ImportProducts
  import ProductChanges
  import opened ProductRows
  import opened Products
  import opened RowCells
  import opened Variants
  import opened Wrappers

  // ---- A file without errors before its products are built ----

  /** No row before has its slug. */
  predicate IsFirst(rows: seq<Row>, f: nat)
    requires f < |rows|
  {
    forall k | 0 <= k < f :: rows[k].slug != rows[f].slug
  }

  /** A later row of a product leaves each of its columns empty or says the same as the first one. */
  ghost predicate Repeats(row: Row, first: Row) {
    && row.title in {"", first.title} && row.description in {"", first.description}
    && (row.brand == "" || Lower(row.brand) == Lower(first.brand))
    && (row.categories == ""
        || forall slug :: slug in CategorySlugsFrom(row.categories) <==> slug in CategorySlugsFrom(first.categories))
    && (row.storeOnly == "" || (Lower(row.storeOnly) == "true" <==> Lower(first.storeOnly) == "true"))
  }

  ghost predicate Consistent(rows: seq<Row>) {
    forall f, i | 0 <= f <= i < |rows| && rows[f].slug == rows[i].slug && IsFirst(rows, f) ::
      if f == i then rows[f].title != "" else Repeats(rows[i], rows[f])
  }

  /** A SKU is one whatever its case, and a GTIN whatever its kind. */
  predicate SameCode(a: Row, b: Row) {
    Upper(a.sku) == Upper(b.sku) || (a.gtin != "" && b.gtin != "" && GtinKey(a.gtin) == GtinKey(b.gtin))
  }

  predicate NewCodes(rows: seq<Row>, catalog: Catalog) {
    && (forall i, j | 0 <= i < j < |rows| :: !SameCode(rows[i], rows[j]))
    && forall i | 0 <= i < |rows| ::
         && rows[i].slug !in catalog.slugs && Upper(rows[i].sku) !in catalog.skus
         && (rows[i].gtin != "" ==> GtinKey(rows[i].gtin) !in catalog.gtinKeys)
  }

  /** The brand and the categories of a product are in the catalog and active. */
  predicate IsUsable(row: Row, catalog: Catalog) {
    && (row.brand == "" || (Lower(row.brand) in catalog.brands && catalog.brands[Lower(row.brand)].1))
    && forall slug | slug in CategorySlugsFrom(row.categories) ::
         slug in catalog.categories && catalog.categories[slug].1
  }

  predicate KnownReferences(rows: seq<Row>, catalog: Catalog) {
    forall f | 0 <= f < |rows| && IsFirst(rows, f) :: IsUsable(rows[f], catalog)
  }

  // ---- The errors of each pass ----

  lemma {:induction false} NothingCollected(rows: seq<Row>, errorsOf: Row -> seq<RowError>)
    ensures Collected(rows, errorsOf) == [] <==> forall i | 0 <= i < |rows| :: errorsOf(rows[i]) == []
  {
    if rows == [] {
    } else {
      var before, last := rows[..|rows| - 1], rows[|rows| - 1];
      NothingCollected(before, errorsOf);
      assert rows == before + [last];
      if Collected(rows, errorsOf) == [] {
        EmptySum(Collected(before, errorsOf), errorsOf(last));
      }
    }
  }

  lemma {:induction false} AllRowsAreGood(rows: seq<Row>)
    ensures AllRowErrors(rows) == [] <==> forall i | 0 <= i < |rows| :: GoodRow(rows[i])
  {
    NothingCollected(rows, RowErrors);
    forall i | 0 <= i < |rows| ensures RowErrors(rows[i]) == [] <==> GoodRow(rows[i]) {
      NoErrorsExactly(rows[i]);
    }
  }

  /** The values of rows without errors are one per row. */
  lemma {:induction false} ValuesOfGood(rows: seq<Row>)
    requires forall i | 0 <= i < |rows| :: GoodRow(rows[i])
    ensures |AllValues(rows)| == |rows|
    ensures forall i | 0 <= i < |rows| :: IsGoodValue(AllValues(rows)[i], rows[i])
  {
    AllRowsAreGood(rows);
    NoRowErrors(rows);
    forall i | 0 <= i < |rows| ensures IsGoodValue(AllValues(rows)[i], rows[i]) {
      assert IsOk(rows[i], AllValues(rows)[i]);
      GoodValue(rows[i]);
    }
  }

  predicate IsGoodValue(v: RowValues, row: Row) {
    && v == ValuesOf(row) && v.cells == row && v.slug == Some(row.slug) && v.sku == Some(Upper(row.sku))
    && v.gtin == (if row.gtin == "" then Empty else Given(row.gtin))
    && v.categories == Some(CategorySlugsFrom(row.categories)) && v.brand == Lower(row.brand)
  }

  lemma {:induction false} GoodValue(row: Row)
    requires GoodRow(row)
    ensures IsGoodValue(ValuesOf(row), row)
  {
    GtinIsGood(row);
  }

  lemma {:induction false} RepeatsExactly(row: Row, first: Row)
    requires GoodTexts(row) && GoodTexts(first)
    ensures ColumnErrors(row, first) == [] <==> Repeats(row, first)
  {
    SameCategoriesExactly(row, first);
    StoreOnlyExactly(row, first);
    var sameCategories, sameStoreOnly := SameCategories(row, first), SameStoreOnly(row, first);
    NoneDiffers(row, first, sameCategories, sameStoreOnly);
  }

  lemma {:induction false} NoneDiffers(row: Row, first: Row, sameCategories: bool, sameStoreOnly: bool)
    requires sameCategories == SameCategories(row, first) && sameStoreOnly == SameStoreOnly(row, first)
    ensures ColumnErrors(row, first) == [] <==>
              && (row.title == "" || row.title == first.title)
              && (row.description == "" || row.description == first.description)
              && (row.brand == "" || Lower(row.brand) == Lower(first.brand))
              && (row.categories == "" || sameCategories) && (row.storeOnly == "" || sameStoreOnly)
  {
  }

  lemma {:induction false} SameCategoriesExactly(row: Row, first: Row)
    ensures SameCategories(row, first) <==>
      forall slug :: slug in CategorySlugsFrom(row.categories) <==> slug in CategorySlugsFrom(first.categories)
  {
    var a := set s | s in CategorySlugsFrom(row.categories);
    var b := set s | s in CategorySlugsFrom(first.categories);
    if a == b {
      forall slug ensures slug in CategorySlugsFrom(row.categories) <==> slug in CategorySlugsFrom(first.categories) {
        assert slug in a <==> slug in b;
      }
    }
  }

  lemma {:induction false} StoreOnlyExactly(row: Row, first: Row)
    requires GoodTexts(row) && GoodTexts(first)
    ensures row.storeOnly == ""
         || (SameStoreOnly(row, first) <==> (Lower(row.storeOnly) == "true" <==> Lower(first.storeOnly) == "true"))
  {
    LowerKeepsLength(row.storeOnly);
    LowerKeepsLength(first.storeOnly);
  }

  lemma {:induction false} LowerKeepsLength(s: string)
    ensures |Lower(s)| == |s| && (Lower(s) == "" <==> s == "")
  {
  }

  lemma {:induction false} RepeatedExactly(values: seq<RowValues>)
    ensures Repeated(values) == [] <==> AllApart(values)
  {
    if values == [] {
    } else {
      var before, last := values[..|values| - 1], values[|values| - 1];
      RepeatedExactly(before);
      RepeatedOfExactly(before, last);
      AllApartMore(before, last);
      assert values == before + [last];
      if Repeated(values) == [] {
        EmptySum(Repeated(before), RepeatedOf(before, last));
      }
    }
  }

  predicate AllApart(values: seq<RowValues>) { forall i, j | 0 <= i < j < |values| :: Apart(values[i], values[j]) }

  lemma {:induction false} AllApartMore(before: seq<RowValues>, last: RowValues)
    ensures AllApart(before + [last]) <==> AllApart(before) && forall i | 0 <= i < |before| :: Apart(before[i], last)
  {
    var values := before + [last];
    assert forall i | 0 <= i < |before| :: values[i] == before[i];
    if AllApart(values) {
      forall i | 0 <= i < |before| ensures Apart(before[i], last) {
        assert Apart(values[i], values[|before|]);
      }
      forall i, j | 0 <= i < j < |before| ensures Apart(before[i], before[j]) {
        assert Apart(values[i], values[j]);
      }
    }
  }

  lemma {:induction false} RepeatedOfExactly(before: seq<RowValues>, row: RowValues)
    ensures RepeatedOf(before, row) == [] <==> forall i | 0 <= i < |before| :: Apart(before[i], row)
  {
    if RepeatedOf(before, row) != [] {
      if row.sku.Some? && row.sku.value in SkusOf(before) {
        var i :| 0 <= i < |before| && before[i].sku == Some(row.sku.value);
        assert !Apart(before[i], row);
      } else {
        var i :| 0 <= i < |before| && before[i].gtin.Given? && GtinKey(before[i].gtin.value) == GtinKey(row.gtin.value);
        assert !Apart(before[i], row);
      }
    } else {
      forall i | 0 <= i < |before| ensures Apart(before[i], row) {
        if before[i].sku.Some? {
          assert before[i].sku.value in SkusOf(before);
        }
        if before[i].gtin.Given? {
          assert GtinKey(before[i].gtin.value) in KeysOf(before);
        }
      }
    }
  }

  lemma {:induction false} TakenCodesExactly(values: seq<RowValues>, catalog: Catalog)
    ensures TakenCodes(values, catalog) == [] <==> forall i | 0 <= i < |values| :: NotTaken(values[i], catalog)
  {
    if values == [] {
    } else {
      var before, last := values[..|values| - 1], values[|values| - 1];
      TakenCodesExactly(before, catalog);
      assert values == before + [last];
      assert TakenOf(last, catalog) == [] <==> NotTaken(last, catalog);
      if TakenCodes(values, catalog) == [] {
        EmptySum(TakenCodes(before, catalog), TakenOf(last, catalog));
      }
    }
  }

  /** The three passes over the products find nothing. */
  predicate NoComplaint(groups: seq<Group>, catalog: Catalog)
    requires forall i | 0 <= i < |groups| :: groups[i].rows != []
  {
    TakenSlugs(groups, catalog) == [] && AllBrandErrors(groups, catalog) == []
    && AllCategoryErrors(groups, catalog) == []
  }

  ghost predicate AllGroupsUsable(groups: seq<Group>, catalog: Catalog)
    requires forall g | 0 <= g < |groups| :: groups[g].rows != []
  {
    forall g | 0 <= g < |groups| :: Usable(groups[g], catalog)
  }

  /** They do exactly when each product is usable. */
  lemma {:induction false} UsableExactly(groups: seq<Group>, catalog: Catalog)
    requires forall i | 0 <= i < |groups| :: groups[i].rows != []
    ensures NoComplaint(groups, catalog) <==> AllGroupsUsable(groups, catalog)
  {
    if groups == [] {
    } else {
      var before, last := groups[..|groups| - 1], groups[|groups| - 1];
      assert groups == before + [last];
      UsableExactly(before, catalog);
      LastUsable(before, last, catalog);
      AllUsableMore(before, last, catalog);
    }
  }

  lemma {:induction false} AllUsableMore(before: seq<Group>, last: Group, catalog: Catalog)
    requires (forall i | 0 <= i < |before| :: before[i].rows != []) && last.rows != []
    ensures AllGroupsUsable(before + [last], catalog) <==> AllGroupsUsable(before, catalog) && Usable(last, catalog)
  {
    var groups := before + [last];
    assert groups[|before|] == last;
    assert forall i | 0 <= i < |before| :: groups[i] == before[i];
  }

  lemma {:induction false} LastUsable(before: seq<Group>, last: Group, catalog: Catalog)
    requires (forall i | 0 <= i < |before| :: before[i].rows != []) && last.rows != []
    ensures NoComplaint(before + [last], catalog) <==> NoComplaint(before, catalog) && Usable(last, catalog)
  {
    var groups := before + [last];
    assert groups[..|before|] == before && groups[|before|] == last;
    if NoComplaint(groups, catalog) {
      LastIsUsable(before, last, catalog);
    }
  }

  // ---- The first row of each product ----

  /** The rows of a slug begin with the first one that has it. */
  lemma {:induction false} FirstOfSlug(values: seq<RowValues>, slug: string) returns (f: nat)
    requires RowsOf(values, slug) != []
    ensures f < |values| && RowsOf(values, slug)[0] == values[f] && values[f].slug == Some(slug)
    ensures forall k | 0 <= k < f :: values[k].slug != Some(slug)
  {
    var before, last := values[..|values| - 1], values[|values| - 1];
    assert values == before + [last];
    NextSlug(before, last);
    if RowsOf(before, slug) != [] {
      f := FirstOfSlug(before, slug);
    } else {
      f := |values| - 1;
      NoneAmong(before, slug);
    }
  }

  lemma {:induction false} NoneAmong(values: seq<RowValues>, slug: string)
    requires RowsOf(values, slug) == []
    ensures forall k | 0 <= k < |values| :: values[k].slug != Some(slug)
  {
    forall k | 0 <= k < |values| ensures values[k].slug != Some(slug) {
      assert values[k] in values && values[k] !in RowsOf(values, slug);
    }
  }

  /** What the pass over the products finds in one row. */
  ghost predicate Passes(rows: seq<Row>, i: nat)
    requires i < |rows|
  {
    forall f | 0 <= f <= i && rows[f].slug == rows[i].slug && IsFirst(rows, f) ::
      if f == i then rows[f].title != "" else Repeats(rows[i], rows[f])
  }

  lemma {:induction false} ConsistentExactly(rows: seq<Row>)
    ensures Consistent(rows) <==> forall i | 0 <= i < |rows| :: Passes(rows, i)
  {
    if forall i | 0 <= i < |rows| :: Passes(rows, i) {
      forall f, i | 0 <= f <= i < |rows| && rows[f].slug == rows[i].slug && IsFirst(rows, f)
        ensures if f == i then rows[f].title != "" else Repeats(rows[i], rows[f])
      {
        assert Passes(rows, i);
      }
    }
  }

  /** The values are those of the rows. */
  predicate AreValues(values: seq<RowValues>, rows: seq<Row>) {
    |values| == |rows| && forall i | 0 <= i < |rows| :: GoodRow(rows[i]) && IsGoodValue(values[i], rows[i])
  }

  lemma {:induction false} PassesExactly(rows: seq<Row>, values: seq<RowValues>, i: nat)
    requires AreValues(values, rows) && i < |rows|
    ensures Agrees(values, i) <==> Passes(rows, i)
  {
    GroupedIsExact(values[..i]);
    ComparedExactly(rows, values, i, Grouped(values[..i]));
  }

  /** The pass over the products has no error of the row. */
  predicate Agrees(values: seq<RowValues>, i: nat)
    requires i < |values|
  {
    ProductErrorsOf(Grouped(values[..i]), values[i]) == []
  }

  lemma {:induction false} ComparedExactly(rows: seq<Row>, values: seq<RowValues>, i: nat, groups: seq<Group>)
    requires AreValues(values, rows) && i < |rows| && Exact(groups, values[..i])
    requires forall g | 0 <= g < |groups| :: groups[g].rows != []
    ensures ProductErrorsOf(groups, values[i]) == [] <==> Passes(rows, i)
  {
    var slug := rows[i].slug;
    match IndexOfSlug(groups, slug)
    case None =>
      NoRowsYet(groups, values[..i], slug);
      NoneBefore(rows, values, i);
    case Some(g) =>
      var f := FirstBefore(rows, values, i);
      RepeatsExactly(rows[i], rows[f]);
      OneFirst(rows, f, i);
  }

  lemma {:induction false} FirstBefore(rows: seq<Row>, values: seq<RowValues>, i: nat) returns (f: nat)
    requires AreValues(values, rows) && i < |rows| && RowsOf(values[..i], rows[i].slug) != []
    ensures f < i && rows[f].slug == rows[i].slug && RowsOf(values[..i], rows[i].slug)[0] == values[f]
    ensures values[f].cells == rows[f] && forall k | 0 <= k < f :: rows[k].slug != rows[i].slug
  {
    f := FirstOfSlug(values[..i], rows[i].slug);
    assert IsGoodValue(values[f], rows[f]);
    forall k | 0 <= k < f ensures rows[k].slug != rows[i].slug {
      assert values[..i][k] == values[k] && IsGoodValue(values[k], rows[k]);
    }
  }

  lemma {:induction false} NoneBefore(rows: seq<Row>, values: seq<RowValues>, i: nat)
    requires AreValues(values, rows) && i < |rows| && RowsOf(values[..i], rows[i].slug) == []
    ensures IsFirst(rows, i) && (Passes(rows, i) <==> rows[i].title != "")
  {
    forall k | 0 <= k < i ensures rows[k].slug != rows[i].slug {
      assert values[..i][k] in values[..i] && IsGoodValue(values[k], rows[k]);
      assert values[k] !in RowsOf(values[..i], rows[i].slug);
    }
  }

  lemma {:induction false} OneFirst(rows: seq<Row>, f: nat, i: nat)
    requires f < i < |rows| && rows[f].slug == rows[i].slug
    requires forall k | 0 <= k < f :: rows[k].slug != rows[i].slug
    ensures IsFirst(rows, f) && (Passes(rows, i) <==> Repeats(rows[i], rows[f]))
  {
    if Repeats(rows[i], rows[f]) {
      forall g | 0 <= g <= i && rows[g].slug == rows[i].slug && IsFirst(rows, g)
        ensures if g == i then rows[g].title != "" else Repeats(rows[i], rows[g])
      {
        assert g == f;
      }
    }
  }

  lemma {:induction false} LastAgrees(values: seq<RowValues>)
    requires values != []
    ensures ProductErrors(values) == [] <==>
              ProductErrors(values[..|values| - 1]) == [] && Agrees(values, |values| - 1)
  {
    var front, last := values[..|values| - 1], values[|values| - 1];
    var before, more := ProductErrors(front), ProductErrorsOf(Grouped(front), last);
    if before + more == [] {
      EmptySum(before, more);
    }
  }

  lemma {:induction false} PassesBefore(rows: seq<Row>, n: nat, i: nat)
    requires i < n <= |rows|
    ensures Passes(rows[..n], i) <==> Passes(rows, i)
  {
    var front := rows[..n];
    forall f | 0 <= f <= i ensures IsFirst(front, f) <==> IsFirst(rows, f) {
    }
  }

  lemma {:induction false} AllPass(rows: seq<Row>, values: seq<RowValues>)
    requires AreValues(values, rows)
    ensures ProductErrors(values) == [] <==> forall i | 0 <= i < |rows| :: Passes(rows, i)
  {
    if rows == [] {
    } else {
      var n := |rows| - 1;
      AllPass(rows[..n], values[..n]);
      LastAgrees(values);
      PassesExactly(rows, values, n);
      OneMorePasses(rows);
    }
  }

  lemma {:induction false} OneMorePasses(rows: seq<Row>)
    requires rows != []
    ensures var n := |rows| - 1;
            (forall i | 0 <= i < |rows| :: Passes(rows, i)) <==>
              (forall i | 0 <= i < n :: Passes(rows[..n], i)) && Passes(rows, n)
  {
    var n := |rows| - 1;
    forall i | 0 <= i < n ensures Passes(rows[..n], i) <==> Passes(rows, i) {
      PassesBefore(rows, n, i);
    }
  }

  lemma {:induction false} ProductErrorsExactly(rows: seq<Row>, values: seq<RowValues>)
    requires AreValues(values, rows)
    ensures ProductErrors(values) == [] <==> Consistent(rows)
  {
    AllPass(rows, values);
    ConsistentExactly(rows);
  }

  // ---- The file ----

  /** Every row is good, the rows of a product agree, the codes are new, and brands and categories can be used. */
  ghost predicate Checks(rows: seq<Row>, catalog: Catalog) {
    && (forall i | 0 <= i < |rows| :: GoodRow(rows[i]))
    && Consistent(rows) && NewCodes(rows, catalog) && KnownReferences(rows, catalog)
  }

  /** The products can be used when their first rows can, and their slugs are new. */
  ghost predicate FirstsUsable(rows: seq<Row>, catalog: Catalog) {
    forall f | 0 <= f < |rows| && IsFirst(rows, f) :: rows[f].slug !in catalog.slugs && IsUsable(rows[f], catalog)
  }

  lemma {:induction false} OneUsable(group: Group, row: Row, catalog: Catalog)
    requires group.rows != [] && IsGoodValue(group.rows[0], row) && group.slug == row.slug
    ensures Usable(group, catalog) <==> row.slug !in catalog.slugs && IsUsable(row, catalog)
  {
    LowerKeepsLength(row.brand);
    var slugs := CategorySlugsFrom(row.categories);
    if IsUsable(row, catalog) {
      forall i | 0 <= i < |slugs| ensures slugs[i] in catalog.categories && catalog.categories[slugs[i]].1 {
        assert slugs[i] in slugs;
      }
    }
  }

  /** Each group begins with the first row of its slug, and each first row begins a group. */
  lemma {:induction false} GroupOfFirst(rows: seq<Row>, values: seq<RowValues>, groups: seq<Group>, g: nat)
    returns (f: nat)
    requires AreValues(values, rows) && Exact(groups, values) && g < |groups| && groups[g].rows != []
    ensures f < |rows| && IsFirst(rows, f) && groups[g].slug == rows[f].slug && groups[g].rows[0] == values[f]
  {
    f := FirstOfSlug(values, groups[g].slug);
    assert IsGoodValue(values[f], rows[f]);
    forall k | 0 <= k < f ensures rows[k].slug != rows[f].slug {
      assert IsGoodValue(values[k], rows[k]);
    }
  }

  lemma {:induction false} FirstBegins(values: seq<RowValues>, slug: string, f: nat)
    requires f < |values| && values[f].slug == Some(slug) && forall k | 0 <= k < f :: values[k].slug != Some(slug)
    ensures RowsOf(values, slug) != [] && RowsOf(values, slug)[0] == values[f]
  {
    assert values[f] in RowsOf(values, slug);
    var _ := FirstOfSlug(values, slug);
  }

  lemma {:induction false} FirstOfGroup(rows: seq<Row>, values: seq<RowValues>, groups: seq<Group>, f: nat)
    returns (g: nat)
    requires AreValues(values, rows) && Exact(groups, values) && f < |rows| && IsFirst(rows, f)
    ensures g < |groups| && groups[g].slug == rows[f].slug && groups[g].rows != [] && groups[g].rows[0] == values[f]
  {
    var slug := rows[f].slug;
    assert IsGoodValue(values[f], rows[f]);
    SlugIsListed(values, values[f]);
    assert slug in SlugsOf(groups);
    g :| 0 <= g < |groups| && SlugsOf(groups)[g] == slug;
    forall k | 0 <= k < f ensures values[k].slug != Some(slug) {
      assert IsGoodValue(values[k], rows[k]);
    }
    FirstBegins(values, slug, f);
  }

  lemma {:induction false} FirstsUsableExactly(rows: seq<Row>, values: seq<RowValues>, groups: seq<Group>,
                                               catalog: Catalog)
    requires AreValues(values, rows) && Exact(groups, values) && forall g | 0 <= g < |groups| :: groups[g].rows != []
    ensures AllGroupsUsable(groups, catalog) <==> FirstsUsable(rows, catalog)
  {
    if FirstsUsable(rows, catalog) {
      forall g | 0 <= g < |groups| ensures Usable(groups[g], catalog) {
        var f := GroupOfFirst(rows, values, groups, g);
        assert IsGoodValue(values[f], rows[f]);
        OneUsable(groups[g], rows[f], catalog);
      }
    }
    if AllGroupsUsable(groups, catalog) {
      forall f | 0 <= f < |rows| && IsFirst(rows, f)
        ensures rows[f].slug !in catalog.slugs && IsUsable(rows[f], catalog)
      {
        var g := FirstOfGroup(rows, values, groups, f);
        assert IsGoodValue(values[f], rows[f]);
        OneUsable(groups[g], rows[f], catalog);
      }
    }
  }

  /** No code of the file is twice in it or in the catalog. */
  lemma {:induction false} NewCodesExactly(rows: seq<Row>, values: seq<RowValues>, catalog: Catalog)
    requires AreValues(values, rows)
    ensures NewCodes(rows, catalog) <==>
              && AllApart(values) && (forall i | 0 <= i < |values| :: NotTaken(values[i], catalog))
              && forall i | 0 <= i < |rows| :: rows[i].slug !in catalog.slugs
  {
    forall i, j | 0 <= i < j < |rows| ensures Apart(values[i], values[j]) <==> !SameCode(rows[i], rows[j]) {
      assert IsGoodValue(values[i], rows[i]) && IsGoodValue(values[j], rows[j]);
    }
    forall i | 0 <= i < |rows|
      ensures NotTaken(values[i], catalog) <==>
                && Upper(rows[i].sku) !in catalog.skus
                && (rows[i].gtin != "" ==> GtinKey(rows[i].gtin) !in catalog.gtinKeys)
    {
      assert IsGoodValue(values[i], rows[i]);
    }
  }

  /** When the first row of each slug may be used, all slugs are new. */
  lemma {:induction false} SlugsAreNew(rows: seq<Row>, catalog: Catalog)
    ensures FirstsUsable(rows, catalog) <==>
              KnownReferences(rows, catalog) && forall i | 0 <= i < |rows| :: rows[i].slug !in catalog.slugs
  {
    if FirstsUsable(rows, catalog) {
      forall i | 0 <= i < |rows| ensures rows[i].slug !in catalog.slugs {
        var _ := FirstWithSlug(rows, i);
      }
    }
  }

  lemma {:induction false} FirstWithSlug(rows: seq<Row>, i: nat) returns (f: nat)
    requires i < |rows|
    ensures f <= i && rows[f].slug == rows[i].slug && IsFirst(rows, f)
  {
    if IsFirst(rows, i) {
      f := i;
    } else {
      var k :| 0 <= k < i && rows[k].slug == rows[i].slug;
      f := FirstWithSlug(rows, k);
    }
  }

  /** The passes before the building find no error exactly in a file that meets the checks. */
  lemma {:induction false} ChecksExactly(rows: seq<Row>, catalog: Catalog)
    ensures FileErrorsOf(rows, catalog) == [] <==> Checks(rows, catalog)
  {
    AllRowsAreGood(rows);
    NoFileErrors(rows, catalog);
    if AllRowErrors(rows) == [] {
      var values := AllValues(rows);
      ValuesOfGood(rows);
      PassesFindNothing(rows, values, Grouped(values), catalog);
    }
  }

  lemma {:induction false} NoFileErrors(rows: seq<Row>, catalog: Catalog)
    ensures var values := AllValues(rows);
      var groups := Grouped(values);
      FileErrorsOf(rows, catalog) == [] <==>
        && AllRowErrors(rows) == [] && ProductErrors(values) == [] && Repeated(values) == []
        && TakenSlugs(groups, catalog) == [] && TakenCodes(values, catalog) == []
        && AllBrandErrors(groups, catalog) == [] && AllCategoryErrors(groups, catalog) == []
  {
  }

  lemma {:induction false} PassesFindNothing(rows: seq<Row>, values: seq<RowValues>, groups: seq<Group>,
                                             catalog: Catalog)
    requires AreValues(values, rows) && groups == Grouped(values)
    ensures && ProductErrors(values) == [] && Repeated(values) == []
            && TakenSlugs(groups, catalog) == [] && TakenCodes(values, catalog) == []
            && AllBrandErrors(groups, catalog) == [] && AllCategoryErrors(groups, catalog) == []
       <==> Consistent(rows) && NewCodes(rows, catalog) && KnownReferences(rows, catalog)
  {
    ProductErrorsExactly(rows, values);
    RepeatedExactly(values);
    TakenCodesExactly(values, catalog);
    UsableExactly(groups, catalog);
    GroupedIsExact(values);
    FirstsUsableExactly(rows, values, groups, catalog);
    SlugsAreNew(rows, catalog);
    NewCodesExactly(rows, values, catalog);
  }

  // ---- The products of a file that meets the checks ----

  /** Two variants of one product: the same options, with some other value, and none with the name every object has. */
  predicate OptionsAgree(a: Row, b: Row) {
    && (set c | c in a.options && c.1 != "" :: c.0) == (set c | c in b.options && c.1 != "" :: c.0)
    && (set c | c in a.options && c.1 != "") != (set c | c in b.options && c.1 != "")
  }

  predicate NoInherited(row: Row) { forall c | c in row.options :: c.0 == "constructor" ==> c.1 == "" }

  /** The rows of one product. */
  predicate RowsAgree(cells: seq<Row>) {
    && (forall i | 0 <= i < |cells| :: NoInherited(cells[i]))
    && forall i, j | 0 <= i < j < |cells| :: OptionsAgree(cells[i], cells[j])
  }

  predicate VariantsAgree(rows: seq<Row>) {
    && (forall i | 0 <= i < |rows| :: NoInherited(rows[i]))
    && forall i, j | 0 <= i < j < |rows| && rows[i].slug == rows[j].slug :: OptionsAgree(rows[i], rows[j])
  }

  /** The options a row gives its variant. */
  function OptionsOf(row: Row): Options { OptionsIn(RawOptions(Filled(row.options))) }

  function CellsGiven(row: Row): set<OptionCell> { set c | c in row.options && c.1 != "" }

  function Entries(options: Options): set<OptionCell> { set name | name in options :: (name, options[name]) }

  lemma {:induction false} OptionsAreGiven(row: Row)
    requires AsRead(row)
    ensures Entries(OptionsOf(row)) == CellsGiven(row)
  {
    FilledHolds(row.options);
    forall c ensures c in Entries(OptionsOf(row)) <==> c in CellsGiven(row) {
      OptionsSayTheCells(Filled(row.options), c.0, c.1);
      FilledAreAmong(row.options, c);
    }
  }

  lemma {:induction false} NamesAreGiven(row: Row)
    requires AsRead(row)
    ensures OptionsOf(row).Keys == set c | c in row.options && c.1 != "" :: c.0
  {
    OptionsAreGiven(row);
    forall name | name in OptionsOf(row) ensures exists c :: c in CellsGiven(row) && c.0 == name {
      assert (name, OptionsOf(row)[name]) in Entries(OptionsOf(row));
    }
    forall c | c in CellsGiven(row) ensures c.0 in OptionsOf(row) {
      assert c in Entries(OptionsOf(row));
    }
  }

  lemma {:induction false} SameEntries(a: Options, b: Options)
    ensures a == b <==> Entries(a) == Entries(b)
  {
    if Entries(a) == Entries(b) {
      forall name | name in a ensures name in b && b[name] == a[name] {
        assert (name, a[name]) in Entries(b);
      }
      forall name | name in b ensures name in a {
        assert (name, b[name]) in Entries(a);
      }
    }
  }

  /** Two rows agree exactly when their variants have the same option names and other values. */
  lemma {:induction false} AgreeExactly(a: Row, b: Row)
    requires AsRead(a) && AsRead(b)
    ensures OptionsAgree(a, b) <==> OptionsOf(a).Keys == OptionsOf(b).Keys && OptionsOf(a) != OptionsOf(b)
  {
    NamesAreGiven(a);
    NamesAreGiven(b);
    OptionsAreGiven(a);
    OptionsAreGiven(b);
    SameEntries(OptionsOf(a), OptionsOf(b));
  }

  lemma {:induction false} InheritsExactly(row: Row)
    requires AsRead(row) && GoodRow(row)
    ensures OptionsFit(RawOptions(Filled(row.options))) <==> NoInherited(row)
  {
    NoErrorsExactly(row);
    OptionsAreReady(row);
    ReadyOptions(Filled(row.options));
    var cells := Filled(row.options);
    if NoInherited(row) {
      forall i | 0 <= i < |cells| ensures cells[i].0 != "constructor" {
        FilledAreAmong(row.options, cells[i]);
        assert cells[i] in cells;
      }
    } else {
      var c :| c in row.options && c.0 == "constructor" && c.1 != "";
      FilledAreAmong(row.options, c);
      var i :| 0 <= i < |cells| && cells[i] == c;
    }
  }

  // ---- Building a product ----

  /** Nothing was complained of, and nothing escaped. */
  predicate Clean(b: Building) { b.errors == [] && b.escaped == None }

  /** A variant and that of one more row have the same option names, and other values. */
  predicate FitsOne(v: Variant, row: RowValues)
    requires Ready(row)
  {
    v.options.Keys == VariantOf(row, 0).options.Keys && v.options != VariantOf(row, 0).options
  }

  ghost predicate FitsNext(variants: seq<Variant>, row: RowValues)
    requires Ready(row)
  {
    forall v | v in variants :: FitsOne(v, row)
  }

  lemma {:induction false} AddsWhenItFits(was: Building, before: seq<RowValues>, row: RowValues)
    requires NewDraft(was.product) && VariantPerRow(was.product.variants, before) && Ready(row)
    requires forall i | 0 <= i < |before| :: Apart(before[i], row)
    ensures Added(was.product, NewVariantOf(row, was.next)).Ok? <==>
              OptionsFit(RawOptions(row.options.value)) && FitsNext(was.product.variants, row)
  {
    var v := NewVariantOf(row, was.next);
    ProductChanges.AddsExactly(was.product, v);
    ProductChanges.CodeFitsExactly(v.gtin);
    forall w | w in was.product.variants
      ensures w.active && w.sku != Upper(v.sku) && !ProductChanges.SameArticle(w.gtin, v.gtin)
    {
      var i :| 0 <= i < |was.product.variants| && was.product.variants[i] == w;
      assert IsVariantOf(was.product.variants[i], before[i]) && Apart(before[i], row);
    }
  }

  /** The options of the values are those of the cells. */
  predicate HasItsOptions(row: RowValues) { AsRead(row.cells) && row.options == Some(Filled(row.cells.options)) }

  lemma {:induction false} OneFits(v: Variant, before: RowValues, row: RowValues)
    requires IsVariantOf(v, before) && HasItsOptions(before) && HasItsOptions(row) && Ready(row)
    ensures FitsOne(v, row) <==> OptionsAgree(before.cells, row.cells)
  {
    AgreeExactly(before.cells, row.cells);
  }

  /** The variants of good rows fit one more exactly when its row agrees with each of them. */
  lemma {:induction false} FitsWhenItAgrees(variants: seq<Variant>, before: seq<RowValues>, row: RowValues)
    requires VariantPerRow(variants, before) && HasItsOptions(row) && Ready(row)
    requires forall i | 0 <= i < |before| :: HasItsOptions(before[i])
    ensures FitsNext(variants, row) <==> forall i | 0 <= i < |before| :: OptionsAgree(before[i].cells, row.cells)
  {
    forall i | 0 <= i < |before| ensures FitsOne(variants[i], row) <==> OptionsAgree(before[i].cells, row.cells) {
      assert IsVariantOf(variants[i], before[i]);
      OneFits(variants[i], before[i], row);
    }
    if FitsNext(variants, row) {
      forall i | 0 <= i < |before| ensures OptionsAgree(before[i].cells, row.cells) {
        assert variants[i] in variants && FitsOne(variants[i], row);
      }
    }
  }

  lemma {:induction false} RowsAgreeMore(cells: seq<Row>, last: Row)
    ensures RowsAgree(cells + [last]) <==>
              RowsAgree(cells) && NoInherited(last) && forall i | 0 <= i < |cells| :: OptionsAgree(cells[i], last)
  {
    var more := cells + [last];
    assert forall i | 0 <= i < |cells| :: more[i] == cells[i];
    assert more[|cells|] == last;
    if RowsAgree(more) {
      forall i | 0 <= i < |cells| ensures NoInherited(cells[i]) && OptionsAgree(cells[i], last) {
        assert NoInherited(more[i]) && OptionsAgree(more[i], more[|cells|]);
      }
      forall i, j | 0 <= i < j < |cells| ensures OptionsAgree(cells[i], cells[j]) {
        assert OptionsAgree(more[i], more[j]);
      }
    }
  }

  /** What one more row leaves. */
  function AfterRow(was: Building, row: RowValues): Building {
    if was.escaped.Some? || row.line in LinesOf(was.errors) then was else AttemptRow(was, row)
  }

  /** It is clean exactly when what the rows before left is, and its variant is added. */
  lemma {:induction false} CleanWhenAdded(was: Building, row: RowValues)
    ensures Clean(AfterRow(was, row)) <==> Clean(was) && Added(was.product, NewVariantOf(row, was.next)).Ok?
  {
  }

  predicate IsBuildable(row: RowValues) { Ready(row) && HasItsOptions(row) && GoodRow(row.cells) }

  /** Rows read without errors, ready for the aggregate and apart. */
  ghost predicate Buildable(rows: seq<RowValues>) {
    Checked(rows, {}) && forall i | 0 <= i < |rows| :: IsBuildable(rows[i])
  }

  lemma {:induction false} FewerBuildable(before: seq<RowValues>, row: RowValues)
    requires Buildable(before + [row])
    ensures Buildable(before) && IsBuildable(row)
    ensures forall i | 0 <= i < |before| :: Apart(before[i], row) && IsBuildable(before[i])
  {
    var rows := before + [row];
    assert rows[|before|] == row;
    forall i | 0 <= i < |before| ensures rows[i] == before[i] && Apart(before[i], row) && IsBuildable(before[i]) {
      assert Apart(rows[i], rows[|before|]);
    }
  }

  predicate CleanIfAgreed(start: Building, rows: seq<RowValues>) {
    Clean(WithVariants(start, rows, {}, AttemptRow)) <==> RowsAgree(CellsOf(rows))
  }

  lemma {:induction false} BuildsClean(start: Building, rows: seq<RowValues>)
    requires Clean(start) && AddsAll(start.product, start, []) && Buildable(rows)
    ensures CleanIfAgreed(start, rows)
  {
    if rows == [] {
      assert CellsOf(rows) == [];
    } else {
      var before, row := rows[..|rows| - 1], rows[|rows| - 1];
      assert rows == before + [row];
      FewerBuildable(before, row);
      BuildsClean(start, before);
      BuildsCleanNext(start, before, row);
    }
  }

  lemma {:induction false} BuildsCleanNext(start: Building, before: seq<RowValues>, row: RowValues)
    requires AddsAll(start.product, start, []) && Buildable(before + [row])
    requires CleanIfAgreed(start, before)
    ensures CleanIfAgreed(start, before + [row])
  {
    var was := WithVariants(start, before, {}, AttemptRow);
    LastIsClean(start, before, row);
    NextIsClean(start, was, before, row);
    CellsAgreeMore(before, row);
  }

  lemma {:induction false} CellsAgreeMore(before: seq<RowValues>, row: RowValues)
    ensures RowsAgree(CellsOf(before + [row])) <==>
              && RowsAgree(CellsOf(before)) && NoInherited(row.cells)
              && forall i | 0 <= i < |before| :: OptionsAgree(before[i].cells, row.cells)
  {
    assert CellsOf(before + [row]) == CellsOf(before) + [row.cells];
    RowsAgreeMore(CellsOf(before), row.cells);
  }

  lemma {:induction false} LastIsClean(start: Building, before: seq<RowValues>, row: RowValues)
    ensures WithVariants(start, before + [row], {}, AttemptRow) ==
              AfterRow(WithVariants(start, before, {}, AttemptRow), row)
  {
    assert (before + [row])[..|before|] == before;
  }

  lemma {:induction false} NextIsClean(start: Building, was: Building, before: seq<RowValues>, row: RowValues)
    requires Buildable(before + [row]) && was == WithVariants(start, before, {}, AttemptRow)
    requires AddsAll(start.product, start, [])
    ensures Clean(AfterRow(was, row)) <==>
              && Clean(was) && NoInherited(row.cells)
              && forall i | 0 <= i < |before| :: OptionsAgree(before[i].cells, row.cells)
  {
    CleanWhenAdded(was, row);
    FewerBuildable(before, row);
    if Clean(was) {
      AllAdded(start, before, {});
      InheritsExactly(row.cells);
      AddsWhenItAgrees(was, before, row, NoInherited(row.cells));
    }
  }

  lemma {:induction false} AddsWhenItAgrees(was: Building, before: seq<RowValues>, row: RowValues, fits: bool)
    requires NewDraft(was.product) && VariantPerRow(was.product.variants, before)
    requires Ready(row) && HasItsOptions(row) && fits == OptionsFit(RawOptions(row.options.value))
    requires forall i | 0 <= i < |before| :: Apart(before[i], row) && HasItsOptions(before[i])
    ensures Added(was.product, NewVariantOf(row, was.next)).Ok? <==>
              fits && forall i | 0 <= i < |before| :: OptionsAgree(before[i].cells, row.cells)
  {
    AddsWhenItFits(was, before, row);
    FitsWhenItAgrees(was.product.variants, before, row);
  }

  // ---- Building all of them ----

  /** What building one product, or all of them, leaves without complaint. */
  predicate IsClean(b: Built) { b.errors == [] && b.escaped == None }

  lemma {:induction false} GroupIsBuildable(group: Group, catalog: Catalog)
    requires IsReady(group, catalog)
    ensures Buildable(group.rows)
  {
    forall i | 0 <= i < |group.rows| ensures IsBuildable(group.rows[i]) {
      NoErrorsExactly(group.rows[i].cells);
      ReadyWithoutErrors(group.rows[i].cells);
    }
  }

  lemma {:induction false} GroupBuildsClean(group: Group, catalog: Catalog, next: Id)
    requires IsReady(group, catalog)
    ensures IsClean(BuildOne(group, catalog, {}, next)) <==> RowsAgree(CellsOf(group.rows))
  {
    GroupIsBuildable(group, catalog);
    DraftIsNew(group, catalog, next);
    BuildsClean(Building(DraftOf(group, catalog, next).value, [], None, next + 1), group.rows);
  }

  /** Whatever ID it begins with, a product is built without complaint exactly when its rows agree. */
  ghost predicate BuildsWhenAgreed(build: Builder, group: Group, agreed: bool) {
    forall next :: IsClean(build(group, {}, next)) <==> agreed
  }

  lemma {:induction false} AllBuildClean(groups: seq<Group>, build: Builder, next: Id, agreed: Group -> bool)
    requires forall i | 0 <= i < |groups| :: BuildsWhenAgreed(build, groups[i], agreed(groups[i]))
    ensures IsClean(WithGroups(groups, build, {}, next)) <==> forall i | 0 <= i < |groups| :: agreed(groups[i])
  {
    if groups == [] {
    } else {
      var n := |groups| - 1;
      var b := WithGroups(groups[..n], build, {}, next);
      AllBuildClean(groups[..n], build, next, agreed);
      if IsClean(b) {
        assert {} + LinesOf(b.errors) == {};
        assert BuildsWhenAgreed(build, groups[n], agreed(groups[n]));
        assert IsClean(build(groups[n], {}, b.next)) <==> agreed(groups[n]);
      }
    }
  }

  ghost predicate GroupsAgree(groups: seq<Group>) {
    forall i | 0 <= i < |groups| :: RowsAgree(CellsOf(groups[i].rows))
  }

  lemma {:induction false} GroupsBuildClean(groups: seq<Group>, catalog: Catalog, next: Id)
    requires forall i | 0 <= i < |groups| :: IsReady(groups[i], catalog)
    ensures IsClean(WithGroups(groups, BuilderOf(catalog), {}, next)) <==> GroupsAgree(groups)
  {
    var build: Builder := BuilderOf(catalog);
    var agreed := (group: Group) => RowsAgree(CellsOf(group.rows));
    forall i | 0 <= i < |groups| ensures BuildsWhenAgreed(build, groups[i], agreed(groups[i])) {
      forall next ensures IsClean(build(groups[i], {}, next)) <==> agreed(groups[i]) {
        GroupBuildsClean(groups[i], catalog, next);
      }
    }
    AllBuildClean(groups, build, next, agreed);
  }

  /** The rows of a slug agree exactly when each two of them in the file do. */
  ghost predicate SlugAgrees(rows: seq<Row>, slug: string) {
    && (forall i | 0 <= i < |rows| && rows[i].slug == slug :: NoInherited(rows[i]))
    && forall i, j | 0 <= i < j < |rows| && rows[i].slug == slug && rows[j].slug == slug ::
         OptionsAgree(rows[i], rows[j])
  }

  lemma {:induction false} SlugAgreesMore(before: seq<Row>, last: Row, slug: string)
    ensures SlugAgrees(before + [last], slug) <==>
              && SlugAgrees(before, slug)
              && (last.slug == slug ==>
                    && NoInherited(last)
                    && forall i | 0 <= i < |before| && before[i].slug == slug :: OptionsAgree(before[i], last))
  {
    var rows := before + [last];
    assert forall i | 0 <= i < |before| :: rows[i] == before[i];
    assert rows[|before|] == last;
    if SlugAgrees(rows, slug) {
      forall i | 0 <= i < |before| && before[i].slug == slug ensures NoInherited(before[i]) {
        assert NoInherited(rows[i]);
      }
      forall i | 0 <= i < |before| && before[i].slug == slug && last.slug == slug
        ensures OptionsAgree(before[i], last)
      {
        assert OptionsAgree(rows[i], rows[|before|]);
      }
      forall i, j | 0 <= i < j < |before| && before[i].slug == slug && before[j].slug == slug
        ensures OptionsAgree(before[i], before[j])
      {
        assert OptionsAgree(rows[i], rows[j]);
      }
    }
  }

  lemma {:induction false} OwnRowsAre(rows: seq<Row>, slug: string, row: Row)
    ensures row in OwnRows(rows, slug) <==> row in rows && row.slug == slug
  {
    if rows == [] {
    } else {
      OwnRowsAre(rows[..|rows| - 1], slug, row);
      assert rows == rows[..|rows| - 1] + [rows[|rows| - 1]];
    }
  }

  lemma {:induction false} OwnRowsAgree(rows: seq<Row>, slug: string)
    ensures RowsAgree(OwnRows(rows, slug)) <==> SlugAgrees(rows, slug)
  {
    if rows == [] {
    } else {
      var before, last := rows[..|rows| - 1], rows[|rows| - 1];
      var own := OwnRows(before, slug);
      assert rows == before + [last] && own + [] == own;
      assert OwnRows(rows, slug) == if last.slug == slug then own + [last] else own;
      OwnRowsAgree(before, slug);
      SlugAgreesMore(before, last, slug);
      RowsAgreeMore(own, last);
      EachAgrees(before, own, slug, last);
    }
  }

  lemma {:induction false} EachAgrees(before: seq<Row>, own: seq<Row>, slug: string, last: Row)
    requires own == OwnRows(before, slug)
    ensures (forall i | 0 <= i < |own| :: OptionsAgree(own[i], last)) <==>
              forall i | 0 <= i < |before| && before[i].slug == slug :: OptionsAgree(before[i], last)
  {
    forall row ensures row in own <==> row in before && row.slug == slug {
      OwnRowsAre(before, slug, row);
    }
    if forall i | 0 <= i < |own| :: OptionsAgree(own[i], last) {
      forall i | 0 <= i < |before| && before[i].slug == slug ensures OptionsAgree(before[i], last) {
        assert before[i] in own;
      }
    } else {
      var i :| 0 <= i < |own| && !OptionsAgree(own[i], last);
      assert own[i] in own && own[i] in before;
    }
  }

  lemma {:induction false} GroupsAgreeExactly(rows: seq<Row>)
    requires FileRead(rows) && AllRowErrors(rows) == []
    ensures GroupsAgree(Grouped(AllValues(rows))) <==> VariantsAgree(rows)
  {
    var groups := Grouped(AllValues(rows));
    GroupedIsExact(AllValues(rows));
    forall g | 0 <= g < |groups| ensures RowsAgree(CellsOf(groups[g].rows)) <==> SlugAgrees(rows, groups[g].slug) {
      OwnRowsAreCells(rows, groups[g].slug);
      OwnRowsAgree(rows, groups[g].slug);
    }
    forall i | 0 <= i < |rows| ensures rows[i].slug in SlugsOf(groups) {
      AllRowsAreGood(rows);
      ValuesOfGood(rows);
      assert IsGoodValue(AllValues(rows)[i], rows[i]);
      SlugIsListed(AllValues(rows), AllValues(rows)[i]);
    }
    SlugsAgree(rows, groups);
  }

  lemma {:induction false} SlugsAgree(rows: seq<Row>, groups: seq<Group>)
    requires forall i | 0 <= i < |rows| :: rows[i].slug in SlugsOf(groups)
    ensures (forall g | 0 <= g < |groups| :: SlugAgrees(rows, groups[g].slug)) <==> VariantsAgree(rows)
  {
    if forall g | 0 <= g < |groups| :: SlugAgrees(rows, groups[g].slug) {
      forall i | 0 <= i < |rows| ensures SlugAgrees(rows, rows[i].slug) {
        var g :| 0 <= g < |groups| && SlugsOf(groups)[g] == rows[i].slug;
        assert SlugAgrees(rows, groups[g].slug);
      }
    }
  }

  // ---- The whole import ----

  /** What a file must say to be imported: the checks of its rows, and the rules between the variants of a product. */
  ghost predicate Accepts(rows: seq<Row>, catalog: Catalog) { Checks(rows, catalog) && VariantsAgree(rows) }

  lemma {:induction false} BuildsExactly(rows: seq<Row>, catalog: Catalog, next: Id)
    requires FileRead(rows) && FileErrorsOf(rows, catalog) == []
    ensures IsClean(BuiltOf(rows, catalog, next)) <==> VariantsAgree(rows)
  {
    WithoutErrors(rows, catalog);
    GroupsAreReady(rows, catalog);
    BuiltWithoutErrors(rows, catalog, next);
    GroupsBuildClean(Grouped(AllValues(rows)), catalog, next);
    GroupsAgreeExactly(rows);
  }

  /** A file is imported, whatever the ID it begins with, if and only if it says what it must. */
  lemma {:induction false} ImportsExactly(rows: seq<Row>, catalog: Catalog, next: Id,
                                          r: Result<seq<ProductSnapshot>, Failure>)
    requires FileRead(rows) && Answers(rows, catalog, next, r)
    ensures r.Ok? <==> Accepts(rows, catalog)
  {
    ChecksExactly(rows, catalog);
    if FileErrorsOf(rows, catalog) == [] {
      BuildsExactly(rows, catalog, next);
    }
    AnswersExactly(rows, catalog, next, r);
  }

  lemma {:induction false} AnswersExactly(rows: seq<Row>, catalog: Catalog, next: Id,
                                          r: Result<seq<ProductSnapshot>, Failure>)
    requires Answers(rows, catalog, next, r)
    ensures r.Ok? <==> FileErrorsOf(rows, catalog) == [] && IsClean(BuiltOf(rows, catalog, next))
  {
    if FileErrorsOf(rows, catalog) + BuiltOf(rows, catalog, next).errors == [] {
      EmptySum(FileErrorsOf(rows, catalog), BuiltOf(rows, catalog, next).errors);
    }
  }
}
