/**
 * Building one product of a file with the aggregate: a variant per row, the errors of its rows, and the error that
 * escapes.
 */
module ImportExecution {
  import opened FileImport
  import opened ImportBuild
  import opened ImportProducts
  import opened ProductRows
  import opened Products
  import opened Variants
  import opened Wrappers

  // ---- One product ----

  /** The data of the product has no errors. */
  predicate HasData(first: RowValues) {
    && first.title.Some? && first.title.value != "" && first.description.Some?
    && first.categories.Some? && first.storeOnly.Some?
  }

  function DraftOf(group: Group, catalog: Catalog, id: Id): Outcome
    requires group.rows != [] && HasData(group.rows[0])
  {
    var first := group.rows[0];
    Created(id, first.title.value, group.slug, Some(first.description.value), BrandOf(first, catalog),
            IdsOf(first.categories.value, catalog), first.storeOnly.value)
  }

  /** A product being built: its errors so far, an error that escaped, and the next new ID. */
  datatype Building = Building(product: ProductSnapshot, errors: seq<RowError>, escaped: Option<ProductError>, next: Id)

  /** The code of an error between variants; any other escapes. */
  function CodeOf(e: ProductError): Option<string> {
    if e == OptionNamesMismatch then Some("optionNames")
    else if e == DuplicateValue("options") then Some("repeated")
    else None
  }

  function Attempted(b: Building, row: RowValues, added: Outcome): Building {
    match added
    case Ok(product) => b.(product := product, next := b.next + 1)
    case Err(e) =>
      if CodeOf(e).Some? then
          b.(errors := b.errors + [RowError(row.line, Some("options"), CodeOf(e).value)], next := b.next + 1)
      else b.(escaped := Some(e), next := b.next + 1)
  }

  function AttemptRow(b: Building, row: RowValues): Building {
    Attempted(b, row, Added(b.product, NewVariantOf(row, b.next)))
  }

  /** What a row without errors does to the product so far. */
  type Attempt = (Building, RowValues) -> Building

  /** The variants of the rows without errors, one after the other. */
  function WithVariants(b: Building, rows: seq<RowValues>, lines: set<nat>, attempt: Attempt): Building {
    if rows == [] then b
    else
      var before, row := WithVariants(b, rows[..|rows| - 1], lines, attempt), rows[|rows| - 1];
      if before.escaped.Some? || row.line in lines || row.line in LinesOf(before.errors) then before
      else attempt(before, row)
  }

  /** The products so far, and the same of the whole file. */
  datatype Built = Built(created: seq<ProductSnapshot>, errors: seq<RowError>, escaped: Option<ProductError>, next: Id)

  function BuildOne(group: Group, catalog: Catalog, lines: set<nat>, next: Id): Built {
    if group.rows == [] || !HasData(group.rows[0]) then Built([], [], None, next)
    else
      match DraftOf(group, catalog, next)
      case Err(e) => Built([], [], Some(e), next + 1)
      case Ok(draft) =>
        var r := WithVariants(Building(draft, [], None, next + 1), group.rows, lines, AttemptRow);
        Built([r.product], r.errors, r.escaped, r.next)
  }

  /** What builds one product, given the lines with errors and the next new ID. */
  type Builder = (Group, set<nat>, Id) -> Built

  function BuilderOf(catalog: Catalog): Builder {
    (group: Group, lines: set<nat>, next: Id) => BuildOne(group, catalog, lines, next)
  }

  function WithGroup(b: Built, group: Group, build: Builder, lines: set<nat>): Built {
    if b.escaped.Some? then b
    else
      var one := build(group, lines + LinesOf(b.errors), b.next);
      Built(b.created + one.created, b.errors + one.errors, one.escaped, one.next)
  }

  function WithGroups(groups: seq<Group>, build: Builder, lines: set<nat>, next: Id): Built {
    if groups == [] then Built([], [], None, next)
    else WithGroup(WithGroups(groups[..|groups| - 1], build, lines, next), groups[|groups| - 1], build, lines)
  }

  // ---- What a row of the file adds to its product ----

  /** No SKU or GTIN in common. */
  predicate Apart(a: RowValues, b: RowValues) {
    && (a.sku.Some? ==> a.sku != b.sku)
    && !SameGtin(OrNone(a.gtin), OrNone(b.gtin))
  }

  /** The variant of a row. */
  function VariantOf(row: RowValues, id: Id): Variant
    requires Ready(row)
  {
    Variant(id, row.sku.value, OrNone(row.gtin), OptionsIn(RawOptions(row.options.value)), true, DimensionsOf(row))
  }

  predicate IsVariantOf(v: Variant, row: RowValues) { Ready(row) && v == VariantOf(row, v.id) }

  ghost predicate FromSome(v: Variant, rows: seq<RowValues>) { exists row :: row in rows && IsVariantOf(v, row) }

  lemma {:induction false} FromMore(v: Variant, rows: seq<RowValues>, row: RowValues)
    requires FromSome(v, rows) || IsVariantOf(v, row)
    ensures FromSome(v, rows + [row])
  {
    if FromSome(v, rows) {
      var r :| r in rows && IsVariantOf(v, r);
      assert r in rows + [row];
    } else {
      assert row in rows + [row];
    }
  }

  /** A draft never published. */
  predicate NewDraft(p: ProductSnapshot) { Inv(p) && p.status == Draft && p.firstPublishedAt == None }

  /** The variants have IDs already used, and each is of some of the rows. */
  ghost predicate VariantsFrom(b: Building, rows: seq<RowValues>) {
    forall i | 0 <= i < |b.product.variants| ::
      b.product.variants[i].id < b.next && FromSome(b.product.variants[i], rows)
  }

  ghost predicate BuiltFrom(b: Building, rows: seq<RowValues>) { NewDraft(b.product) && VariantsFrom(b, rows) }

  /**
   * A row that is ready and apart from the others adds its variant, breaks a rule between variants, or has an inherited
   * name.
   */
  lemma {:induction false} AttemptOutcome(b: Building, rows: seq<RowValues>, row: RowValues)
    requires BuiltFrom(b, rows) && Ready(row) && forall r | r in rows :: Apart(r, row)
    ensures var r := Added(b.product, NewVariantOf(row, b.next));
            && (Inherits(row) ==> r == Err(InvalidOptions))
            && (!Inherits(row) ==> r.Ok? || CodeOf(r.error).Some?)
  {
    ReadyOptions(row.options.value);
    forall i | 0 <= i < |b.product.variants|
      ensures b.product.variants[i].sku != row.sku.value && !SameGtin(b.product.variants[i].gtin, OrNone(row.gtin))
    {
      assert FromSome(b.product.variants[i], rows);
      var r :| r in rows && IsVariantOf(b.product.variants[i], r);
    }
  }

  /** What adding the variant of a row leaves. */
  predicate AddsVariant(p: ProductSnapshot, v: Variant, added: Outcome) {
    added.Ok? ==> NewDraft(added.value) && added.value == p.(variants := p.variants + [v])
  }

  lemma {:induction false} AddedIsVariant(b: Building, row: RowValues)
    requires NewDraft(b.product) && Ready(row)
    requires forall i | 0 <= i < |b.product.variants| :: b.product.variants[i].id < b.next
    ensures AddsVariant(b.product, VariantOf(row, b.next), Added(b.product, NewVariantOf(row, b.next)))
  {
    var v := NewVariantOf(row, b.next);
    if Added(b.product, v).Ok? {
      AddKeepsInv(b.product, v);
    }
  }

  lemma {:induction false} AttemptKeeps(b: Building, rows: seq<RowValues>, row: RowValues, added: Outcome)
    requires BuiltFrom(b, rows) && Ready(row) && AddsVariant(b.product, VariantOf(row, b.next), added)
    ensures BuiltFrom(Attempted(b, row, added), rows + [row])
  {
    var after := Attempted(b, row, added).product.variants;
    forall i | 0 <= i < |after| ensures after[i].id < b.next + 1 && FromSome(after[i], rows + [row]) {
      assert i < |b.product.variants| ==> after[i] == b.product.variants[i];
      FromMore(after[i], rows, row);
    }
  }

  /**
   * The rows of a product, as the checks of the file leave them: those without errors are ready, and apart from those
   * before.
   */
  ghost predicate Checked(rows: seq<RowValues>, lines: set<nat>) {
    && LinesAscend(rows)
    && (forall i | 0 <= i < |rows| && rows[i].line !in lines :: Ready(rows[i]))
    && forall i, j | 0 <= i < j < |rows| && rows[j].line !in lines :: Apart(rows[i], rows[j])
  }

  /** Some row without errors has an option with an inherited name. */
  ghost predicate SomeInherits(rows: seq<RowValues>, lines: set<nat>) {
    exists i :: 0 <= i < |rows| && rows[i].line !in lines && Inherits(rows[i])
  }

  function LinesIn(rows: seq<RowValues>): set<nat> { set i | 0 <= i < |rows| :: rows[i].line }

  /** What is known after the rows so far: an error escaped exactly when a row without errors has an inherited name. */
  ghost predicate Outcomes(b: Building, rows: seq<RowValues>, lines: set<nat>) {
    && BuiltFrom(b, rows) && LinesOf(b.errors) <= LinesIn(rows)
    && (b.escaped.Some? <==> SomeInherits(rows, lines)) && b.escaped in {None, Some(InvalidOptions)}
  }

  /** One more row, of which no error is known, is attempted. */
  lemma {:induction false} AttemptGoesOn(was: Building, before: seq<RowValues>, row: RowValues, lines: set<nat>,
                                         added: Outcome)
    requires Outcomes(was, before, lines) && was.escaped == None && row.line !in lines && LinesAscend(before + [row])
    requires Ready(row) && AddsVariant(was.product, VariantOf(row, was.next), added)
    requires Inherits(row) ==> added == Err(InvalidOptions)
    requires !Inherits(row) ==> added.Ok? || CodeOf(added.error).Some?
    ensures Outcomes(Attempted(was, row, added), before + [row], lines)
  {
    AttemptKeeps(was, before, row, added);
    assert (before + [row])[..|before|] == before && (before + [row])[..|before| + 1] == before + [row];
    SomeMore(before + [row], lines);
    LinesOfOneMore(was.errors, row.line);
  }

  /** One more row with errors, or after an error escaped, is left out. */
  lemma {:induction false} SkippingGoesOn(was: Building, before: seq<RowValues>, row: RowValues, lines: set<nat>)
    requires Outcomes(was, before, lines) && LinesAscend(before + [row]) && (was.escaped.Some? || row.line in lines)
    ensures Outcomes(was, before + [row], lines)
  {
    assert (before + [row])[..|before|] == before && (before + [row])[..|before| + 1] == before + [row];
    SomeMore(before + [row], lines);
  }

  lemma {:induction false} VariantsOutcome(b: Building, rows: seq<RowValues>, lines: set<nat>)
    requires BuiltFrom(b, []) && b.errors == [] && b.escaped == None && Checked(rows, lines)
    ensures Outcomes(WithVariants(b, rows, lines, AttemptRow), rows, lines)
  {
    if rows == [] {
    } else {
      var n := |rows| - 1;
      var before, row := rows[..n], rows[n];
      assert rows == before + [row];
      VariantsOutcome(b, before, lines);
      var was := WithVariants(b, before, lines, AttemptRow);
      if was.escaped.None? && row.line !in lines {
        assert row.line !in LinesOf(was.errors);
        AttemptOutcome(was, before, row);
        AddedIsVariant(was, row);
        AttemptGoesOn(was, before, row, lines, Added(was.product, NewVariantOf(row, was.next)));
      } else {
        SkippingGoesOn(was, before, row, lines);
      }
    }
  }

  lemma {:induction false} SomeMore(rows: seq<RowValues>, lines: set<nat>)
    requires rows != []
    ensures var n := |rows| - 1;
            SomeInherits(rows, lines) <==>
              SomeInherits(rows[..n], lines) || (rows[n].line !in lines && Inherits(rows[n]))
  {
    var before := rows[..|rows| - 1];
    if i :| 0 <= i < |before| && before[i].line !in lines && Inherits(before[i]) {
      assert rows[i] == before[i];
    }
    if i :| 0 <= i < |rows| && rows[i].line !in lines && Inherits(rows[i]) {
      if i < |before| {
        assert before[i] == rows[i];
      }
    }
  }

  lemma {:induction false} LinesOfOneMore(errors: seq<RowError>, line: nat)
    ensures forall column, code :: LinesOf(errors + [RowError(line, column, code)]) == LinesOf(errors) + {line}
  {
    forall column, code ensures LinesOf(errors + [RowError(line, column, code)]) == LinesOf(errors) + {line} {
      LinesOfBoth(errors, [RowError(line, column, code)]);
      LinesOfOne(RowError(line, column, code));
    }
  }

  /** Without errors, the product has a variant per row, in the order of the file. */
  predicate VariantPerRow(variants: seq<Variant>, rows: seq<RowValues>) {
    |variants| == |rows| && forall i | 0 <= i < |rows| :: IsVariantOf(variants[i], rows[i])
  }

  lemma {:induction false} LastIsAdded(was: Building, before: seq<RowValues>, row: RowValues, after: Building)
    requires BuiltFrom(was, before) && VariantPerRow(was.product.variants, before) && Ready(row)
    requires var added := Added(was.product, NewVariantOf(row, was.next));
             added.Ok? && after == Attempted(was, row, added)
    ensures BuiltFrom(after, before + [row]) && VariantPerRow(after.product.variants, before + [row])
    ensures after.product == was.product.(variants := after.product.variants)
  {
    AddedIsVariant(was, row);
    AttemptKeeps(was, before, row, Added(was.product, NewVariantOf(row, was.next)));
  }

  /** Rows with a variant each. */
  ghost predicate AddsAll(start: ProductSnapshot, after: Building, rows: seq<RowValues>) {
    && BuiltFrom(after, rows) && VariantPerRow(after.product.variants, rows)
    && after.product == start.(variants := after.product.variants)
  }

  /** What holds of the rows so far, whatever it is. */
  type Progress = (Building, seq<RowValues>) -> bool

  /** An attempt that adds no error and does not end the import goes on. */
  predicate GoesOn(was: Building, before: seq<RowValues>, row: RowValues, attempt: Attempt, holds: Progress) {
    holds(was, before) && was.errors == [] && attempt(was, row).errors == [] && attempt(was, row).escaped == None ==>
      holds(attempt(was, row), before + [row])
  }

  /** Without errors after the rows, every one of them went on. */
  lemma {:induction false} AllGoOn(b: Building, rows: seq<RowValues>, lines: set<nat>, attempt: Attempt,
                                   holds: Progress)
    requires holds(b, []) && forall i | 0 <= i < |rows| :: rows[i].line !in lines
    requires forall was, before, i | 0 <= i < |rows| :: GoesOn(was, before, rows[i], attempt, holds)
    requires forall was: Building, row: RowValues :: |was.errors| <= |attempt(was, row).errors|
    requires WithVariants(b, rows, lines, attempt).errors == [] && WithVariants(b, rows, lines, attempt).escaped == None
    ensures holds(WithVariants(b, rows, lines, attempt), rows)
  {
    if rows == [] {
    } else {
      var n := |rows| - 1;
      var was := WithVariants(b, rows[..n], lines, attempt);
      assert was.escaped == None && was.errors == [];
      forall w, before, i | 0 <= i < n ensures GoesOn(w, before, rows[..n][i], attempt, holds) {
        assert GoesOn(w, before, rows[i], attempt, holds);
      }
      AllGoOn(b, rows[..n], lines, attempt, holds);
      assert GoesOn(was, rows[..n], rows[n], attempt, holds);
      assert rows == rows[..n] + [rows[n]];
    }
  }

  lemma {:induction false} AddsAllGoesOn(start: ProductSnapshot, was: Building, before: seq<RowValues>, row: RowValues)
    requires AddsAll(start, was, before) && Ready(row)
    requires was.errors == [] && AttemptRow(was, row).errors == [] && AttemptRow(was, row).escaped == None
    ensures AddsAll(start, AttemptRow(was, row), before + [row])
  {
    assert Added(was.product, NewVariantOf(row, was.next)).Ok?;
    LastIsAdded(was, before, row, AttemptRow(was, row));
  }

  lemma {:induction false} AllAdded(b: Building, rows: seq<RowValues>, lines: set<nat>)
    requires AddsAll(b.product, b, [])
    requires forall i | 0 <= i < |rows| :: rows[i].line !in lines && Ready(rows[i])
    requires WithVariants(b, rows, lines, AttemptRow).errors == []
    requires WithVariants(b, rows, lines, AttemptRow).escaped == None
    ensures AddsAll(b.product, WithVariants(b, rows, lines, AttemptRow), rows)
  {
    var holds: Progress := (after, before) => AddsAll(b.product, after, before);
    forall was, before, i | 0 <= i < |rows| ensures GoesOn(was, before, rows[i], AttemptRow, holds) {
      if holds(was, before) && was.errors == [] && AttemptRow(was, rows[i]).errors == []
          && AttemptRow(was, rows[i]).escaped == None {
        AddsAllGoesOn(b.product, was, before, rows[i]);
      }
    }
    AllGoOn(b, rows, lines, AttemptRow, holds);
  }

  // ---- The aggregate builds what the specification says ----

  predicate IdsBelow(p: ProductSnapshot, next: Id) { forall i | 0 <= i < |p.variants| :: p.variants[i].id < next }

  lemma {:induction false} AddedIds(p: ProductSnapshot, v: NewVariant, next: Id)
    requires Added(p, v).Ok? && v.id < next && IdsBelow(p, next)
    ensures IdsBelow(Added(p, v).value, next)
  {
  }

  /** One row of a product, attempted with the aggregate. */
  method BuildRow(product: Product, row: RowValues, errors: ImportRowErrors, next: Id)
    returns (escaped: Option<ProductError>)
    requires errors.Valid() && Inv(product.state) && IdsBelow(product.state, next)
    modifies product`state, errors
    ensures errors.Valid() && Inv(product.state) && IdsBelow(product.state, next + 1)
    ensures var added := Added(old(product.state), NewVariantOf(row, next));
            var after := Attempted(Building(old(product.state), old(errors.errors), None, next), row, added);
            product.state == after.product && errors.errors == after.errors && escaped == after.escaped
  {
    var variant := NewVariantOf(row, next);
    if Added(product.state, variant).Ok? {
      AddedIds(product.state, variant, next + 1);
    }
    var added := product.AddVariant(variant);
    escaped := None;
    if added.Err? {
      var code := CodeOf(added.error);
      if code.Some? {
        errors.Add(row.line, Some("options"), code.value);
      } else {
        escaped := Some(added.error);
      }
    }
  }

  /** The same, on top of the errors of the rows before. */
  method BuildNext(product: Product, row: RowValues, errors: ImportRowErrors, next: Id, ghost b: Building,
                   ghost before: seq<RowError>)
    returns (escaped: Option<ProductError>, ghost after: Building)
    requires errors.Valid() && Inv(product.state) && IdsBelow(product.state, next)
    requires b.product == product.state && b.next == next && b.escaped == None && errors.errors == before + b.errors
    modifies product`state, errors
    ensures errors.Valid() && Inv(product.state) && IdsBelow(product.state, next + 1)
    ensures after == AttemptRow(b, row)
    ensures product.state == after.product && errors.errors == before + after.errors && escaped == after.escaped
    ensures after.next == next + 1
  {
    after := AttemptRow(b, row);
    escaped := BuildRow(product, row, errors, next);
  }

  /** The errors of other rows before these change nothing but which lines have one. */
  lemma {:induction false} LinesBefore(old_: seq<RowError>, errors: seq<RowError>, line: nat)
    ensures line in LinesOf(old_ + errors) <==> line in LinesOf(old_) || line in LinesOf(errors)
  {
    LinesOfBoth(old_, errors);
  }

  lemma {:induction false} NextVariant(b: Building, rows: seq<RowValues>, lines: set<nat>, attempt: Attempt, i: nat)
    requires i < |rows|
    ensures var before, row := WithVariants(b, rows[..i], lines, attempt), rows[i];
            WithVariants(b, rows[..i + 1], lines, attempt) ==
              if before.escaped.Some? || row.line in lines || row.line in LinesOf(before.errors) then before
              else attempt(before, row)
  {
    assert rows[..i + 1][..i] == rows[..i];
  }

  /** An error escaped: the rest of the rows is not looked at. */
  lemma {:induction false} EscapedStays(b: Building, rows: seq<RowValues>, lines: set<nat>, attempt: Attempt, i: nat)
    requires i <= |rows| && WithVariants(b, rows[..i], lines, attempt).escaped.Some?
    ensures WithVariants(b, rows, lines, attempt) == WithVariants(b, rows[..i], lines, attempt)
    decreases |rows| - i
  {
    if i < |rows| {
      NextVariant(b, rows, lines, attempt, i);
      EscapedStays(b, rows, lines, attempt, i + 1);
    } else {
      assert rows[..i] == rows;
    }
  }

  /** The variants of the rows without errors, one after the other; the first error that is not of a row ends it. */
  method BuildVariants(product: Product, rows: seq<RowValues>, errors: ImportRowErrors, next: Id)
    returns (escaped: Option<ProductError>, after: Id)
    requires errors.Valid() && Inv(product.state) && product.state.variants == []
    modifies product`state, errors
    ensures errors.Valid() && old(errors.errors) <= errors.errors
    ensures var start := Building(old(product.state), [], None, next);
            var b := WithVariants(start, rows, LinesOf(old(errors.errors)), AttemptRow);
            && product.state == b.product && errors.errors == old(errors.errors) + b.errors
            && escaped == b.escaped && after == b.next
  {
    ghost var start, before, lines := Building(product.state, [], None, next), errors.errors, LinesOf(errors.errors);
    escaped, after := None, next;
    ghost var b := start;
    for i := 0 to |rows|
      invariant errors.Valid() && Inv(product.state) && IdsBelow(product.state, after)
      invariant b == WithVariants(start, rows[..i], lines, AttemptRow)
      invariant product.state == b.product && errors.errors == before + b.errors && after == b.next
      invariant escaped == None == b.escaped
    {
      NextVariant(start, rows, lines, AttemptRow, i);
      LinesBefore(before, b.errors, rows[i].line);
      if !errors.HasAny(rows[i].line) {
        escaped, b := BuildNext(product, rows[i], errors, after, b, before);
        after := after + 1;
        if escaped.Some? {
          EscapedStays(start, rows, lines, AttemptRow, i + 1);
          return;
        }
      }
    }
    assert rows[..|rows|] == rows;
  }

  /** The product of some rows, or nothing when its data has errors. */
  method Build(group: Group, catalog: Catalog, errors: ImportRowErrors, next: Id) returns (ghost built: Built,
      created: Option<ProductSnapshot>, escaped: Option<ProductError>, after: Id)
    requires errors.Valid() && group.rows != []
    modifies errors
    ensures errors.Valid() && built == BuildOne(group, catalog, LinesOf(old(errors.errors)), next)
    ensures errors.errors == old(errors.errors) + built.errors && escaped == built.escaped && after == built.next
    ensures built.created == if created.Some? then [created.value] else []
  {
    built := BuildOne(group, catalog, LinesOf(errors.errors), next);
    var first := group.rows[0];
    if !HasData(first) { return built, None, None, next; }
    var draft := Product.Create(next, first.title.value, group.slug, Some(first.description.value),
        BrandOf(first, catalog),
                                IdsOf(first.categories.value, catalog), first.storeOnly.value);
    if draft.Err? { return built, None, Some(draft.error), next + 1; }
    escaped, after := BuildVariants(draft.value, group.rows, errors, next + 1);
    created := Some(draft.value.state);
  }
}
