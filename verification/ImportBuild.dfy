/** The rows of a file by product, and what a row without errors has ready for the aggregate. */
module ImportBuild {
  import opened ImportProducts
  import opened ProductRows
  import opened Products
  import opened Variants
  import opened Wrappers

  // ---- The rows by product ----

  function SlugList(values: seq<RowValues>): seq<string> {
    if values == [] then []
    else
      var last := values[|values| - 1];
      SlugList(values[..|values| - 1]) + if last.slug.Some? then [last.slug.value] else []
  }

  function RowsOf(values: seq<RowValues>, slug: string): (rows: seq<RowValues>)
    ensures forall r :: r in rows <==> r in values && r.slug == Some(slug)
  {
    if values == [] then []
    else
      var before, last := values[..|values| - 1], values[|values| - 1];
      assert values == before + [last];
      RowsOf(before, slug) + if last.slug == Some(slug) then [last] else []
  }

  function SlugsOf(groups: seq<Group>): (slugs: seq<string>)
    ensures |slugs| == |groups| && forall i | 0 <= i < |groups| :: slugs[i] == groups[i].slug
  {
    seq(|groups|, i requires 0 <= i < |groups| => groups[i].slug)
  }

  function RowsIn(groups: seq<Group>): nat {
    if groups == [] then 0 else RowsIn(groups[..|groups| - 1]) + |groups[|groups| - 1].rows|
  }

  /** The products so far are those of the rows so far. */
  ghost predicate Exact(groups: seq<Group>, values: seq<RowValues>) {
    && SlugsOf(groups) == Unique(SlugList(values)) && NoRepeats(SlugsOf(groups))
    && forall i | 0 <= i < |groups| :: groups[i].rows == RowsOf(values, groups[i].slug)
  }

  /** One product per slug, in the order of first appearance, with every row of its slug in the order of the file. */
  lemma {:induction false} GroupedIsExact(values: seq<RowValues>)
    ensures Exact(Grouped(values), values)
  {
    if values == [] {
    } else {
      var before, row := values[..|values| - 1], values[|values| - 1];
      assert values == before + [row];
      GroupedIsExact(before);
      UniqueHasNoRepeats(SlugList(values));
      if row.slug.None? {
        NextSlug(before, row);
        assert SlugList(values) == SlugList(before);
        assert forall slug :: RowsOf(values, slug) == RowsOf(before, slug);
      } else if IndexOfSlug(Grouped(before), row.slug.value).None? {
        NewGroupIsExact(Grouped(before), before, row);
      } else {
        OldGroupIsExact(Grouped(before), before, row, IndexOfSlug(Grouped(before), row.slug.value).value);
      }
    }
  }

  lemma {:induction false} NextSlug(before: seq<RowValues>, row: RowValues)
    ensures SlugList(before + [row]) == SlugList(before) + if row.slug.Some? then [row.slug.value] else []
    ensures forall slug ::
              RowsOf(before + [row], slug) == RowsOf(before, slug) + if row.slug == Some(slug) then [row] else []
  {
    assert (before + [row])[..|before|] == before;
  }

  lemma {:induction false} NextUnique(slugs: seq<string>, slug: string)
    ensures Unique(slugs + [slug]) == if slug in Unique(slugs) then Unique(slugs) else Unique(slugs) + [slug]
  {
    assert (slugs + [slug])[..|slugs|] == slugs;
  }

  lemma {:induction false} NoRowsYet(groups: seq<Group>, before: seq<RowValues>, slug: string)
    requires Exact(groups, before) && forall i | 0 <= i < |groups| :: groups[i].slug != slug
    ensures slug !in Unique(SlugList(before)) && RowsOf(before, slug) == []
  {
    assert slug !in SlugsOf(groups);
    if RowsOf(before, slug) != [] {
      var r := RowsOf(before, slug)[0];
      assert r in RowsOf(before, slug);
      SlugIsListed(before, r);
    }
  }

  lemma {:induction false} OneMoreSlug(groups: seq<Group>, group: Group)
    ensures SlugsOf(groups + [group]) == SlugsOf(groups) + [group.slug]
  {
  }

  lemma {:induction false} RowsWithNew(groups: seq<Group>, before: seq<RowValues>, row: RowValues, group: Group)
    requires Exact(groups, before) && group.rows == [row] && row.slug == Some(group.slug)
    requires RowsOf(before, group.slug) == []
    requires forall i | 0 <= i < |groups| :: groups[i].slug != group.slug
    ensures var after := groups + [group];
            forall i | 0 <= i < |after| :: after[i].rows == RowsOf(before + [row], after[i].slug)
  {
    NextSlug(before, row);
  }

  lemma {:induction false} NewGroupIsExact(groups: seq<Group>, before: seq<RowValues>, row: RowValues)
    requires Exact(groups, before) && row.slug.Some? && forall i | 0 <= i < |groups| :: groups[i].slug != row.slug.value
    ensures Exact(groups + [Group(row.slug.value, [row])], before + [row])
  {
    var slug, group := row.slug.value, Group(row.slug.value, [row]);
    NoRowsYet(groups, before, slug);
    RowsWithNew(groups, before, row, group);
    NextSlug(before, row);
    NextUnique(SlugList(before), slug);
    UniqueHasNoRepeats(SlugList(before + [row]));
    OneMoreSlug(groups, group);
  }

  lemma {:induction false} OldGroupIsExact(groups: seq<Group>, before: seq<RowValues>, row: RowValues, i: nat)
    requires Exact(groups, before) && i < |groups| && row.slug == Some(groups[i].slug)
    ensures Exact(groups[i := groups[i].(rows := groups[i].rows + [row])], before + [row])
  {
    var slug, after := groups[i].slug, groups[i := groups[i].(rows := groups[i].rows + [row])];
    NextSlug(before, row);
    NextUnique(SlugList(before), slug);
    assert SlugsOf(groups)[i] in SlugsOf(groups);
    assert SlugsOf(after) == SlugsOf(groups);
    RowsWithOld(groups, before, row, i, after);
  }

  lemma {:induction false} RowsWithOld(groups: seq<Group>, before: seq<RowValues>, row: RowValues, i: nat,
                                       after: seq<Group>)
    requires Exact(groups, before) && i < |groups| && row.slug == Some(groups[i].slug)
    requires after == groups[i := groups[i].(rows := groups[i].rows + [row])]
    ensures forall j | 0 <= j < |after| :: after[j].rows == RowsOf(before + [row], after[j].slug)
  {
    NextSlug(before, row);
    forall j | 0 <= j < |after| ensures after[j].rows == RowsOf(before + [row], after[j].slug) {
      assert j != i ==> SlugsOf(groups)[j] != SlugsOf(groups)[i];
    }
  }

  lemma {:induction false} SlugIsListed(values: seq<RowValues>, row: RowValues)
    requires row in values && row.slug.Some?
    ensures row.slug.value in SlugList(values)
  {
    var before, last := values[..|values| - 1], values[|values| - 1];
    assert values == before + [last];
    if row in before {
      SlugIsListed(before, row);
    }
  }

  /** Every row with a slug is in one product. */
  lemma {:induction false} RowsAddUp(values: seq<RowValues>)
    ensures RowsIn(Grouped(values)) == |SlugList(values)|
  {
    if values == [] {
    } else {
      var before, row := values[..|values| - 1], values[|values| - 1];
      RowsAddUp(before);
      if row.slug.Some? {
        var groups := Grouped(before);
        match IndexOfSlug(groups, row.slug.value)
        case None => assert (groups + [Group(row.slug.value, [row])])[..|groups|] == groups;
        case Some(i) => OneMoreRow(groups, i, row);
      }
    }
  }

  lemma {:induction false} OneMoreRow(groups: seq<Group>, i: nat, row: RowValues)
    requires i < |groups|
    ensures RowsIn(groups[i := groups[i].(rows := groups[i].rows + [row])]) == RowsIn(groups) + 1
  {
    var after := groups[i := groups[i].(rows := groups[i].rows + [row])];
    if i == |groups| - 1 {
      assert after[..|groups| - 1] == groups[..|groups| - 1];
    } else {
      OneMoreRow(groups[..|groups| - 1], i, row);
      assert after[..|groups| - 1] == groups[..|groups| - 1][i := groups[i].(rows := groups[i].rows + [row])];
    }
  }

  predicate LinesAscend(values: seq<RowValues>) {
    forall i, j | 0 <= i < j < |values| :: values[i].line < values[j].line
  }

  lemma {:induction false} RowsOfAscend(values: seq<RowValues>, slug: string)
    requires LinesAscend(values)
    ensures LinesAscend(RowsOf(values, slug))
  {
    if values == [] {
    } else {
      var before, last := values[..|values| - 1], values[|values| - 1];
      RowsOfAscend(before, slug);
      forall i | 0 <= i < |RowsOf(before, slug)| ensures RowsOf(before, slug)[i].line < last.line {
        assert RowsOf(before, slug)[i] in before;
      }
    }
  }

  // ---- A row without errors ----

  function OrNone<T>(c: Cell<T>): Option<T> { if c.Given? then Some(c.value) else None }

  function RawOptions(cells: seq<OptionCell>): (raw: seq<RawOption>)
    ensures |raw| == |cells| && forall i | 0 <= i < |cells| :: raw[i] == RawOption(cells[i].0, Some(cells[i].1))
  {
    seq(|cells|, i requires 0 <= i < |cells| => RawOption(cells[i].0, Some(cells[i].1)))
  }

  function DimensionsOf(row: RowValues): Dimensions {
    Dimensions(OrNone(row.weightGrams), OrNone(row.length), OrNone(row.width), OrNone(row.height))
  }

  function NewVariantOf(row: RowValues, id: Id): NewVariant {
    NewVariant(id, if row.sku.Some? then row.sku.value else "", OrNone(row.gtin),
               RawOptions(if row.options.Some? then row.options.value else []), DimensionsOf(row))
  }

  predicate OptionsReady(cells: seq<OptionCell>) {
    && |cells| <= MAX_OPTIONS
    && (forall i | 0 <= i < |cells| :: OptionColumn(cells[i].0) && Trimmed(cells[i].1) && ValueFits(cells[i].1))
    && forall i, j | 0 <= i < j < |cells| :: cells[i].0 != cells[j].0
  }

  /** Everything a variant needs, but for names that every object has. */
  predicate Ready(row: RowValues) {
    && row.sku.Some? && SkuPattern(row.sku.value) && Upper(row.sku.value) == row.sku.value
    && (row.gtin.Given? ==> ValidGtin(row.gtin.value).Ok?)
    && DimensionsFit(DimensionsOf(row))
    && row.options.Some? && OptionsReady(row.options.value)
  }

  /** An option has the one name an import can read that every object has. */
  predicate Inherits(row: RowValues) {
    row.options.Some? && exists i :: 0 <= i < |row.options.value| && row.options.value[i].0 == "constructor"
  }

  lemma {:induction false} TrimmedStays(s: string)
    requires Trimmed(s)
    ensures Trim(s) == s
  {
  }

  lemma {:induction false} ReadyOptions(cells: seq<OptionCell>)
    requires OptionsReady(cells)
    ensures OptionsFit(RawOptions(cells)) <==> !exists i :: 0 <= i < |cells| && cells[i].0 == "constructor"
  {
    var raw := RawOptions(cells);
    forall i | 0 <= i < |cells| ensures NameOf(raw[i]) == cells[i].0 && ValueOf(raw[i]) == cells[i].1 {
      TrimmedStays(cells[i].0);
      TrimmedStays(cells[i].1);
    }
  }

  predicate Columns(cells: seq<OptionCell>) {
    && (forall i | 0 <= i < |cells| :: OptionColumn(cells[i].0) && Trimmed(cells[i].1))
    && forall i, j | 0 <= i < j < |cells| :: cells[i].0 != cells[j].0
  }

  lemma {:induction false} FilledAreAmong(cells: seq<OptionCell>, cell: OptionCell)
    ensures cell in Filled(cells) <==> cell in cells && cell.1 != ""
  {
    if cells == [] {
    } else {
      FilledAreAmong(cells[1..], cell);
      assert cells == [cells[0]] + cells[1..];
    }
  }

  predicate AllFilled(cells: seq<OptionCell>) { forall i | 0 <= i < |cells| :: cells[i].1 != "" }

  lemma {:induction false} OneMoreColumn(first: OptionCell, cells: seq<OptionCell>)
    requires OptionColumn(first.0) && Trimmed(first.1) && first.1 != "" && Columns(cells) && AllFilled(cells)
    requires forall i | 0 <= i < |cells| :: cells[i].0 != first.0
    ensures Columns([first] + cells) && AllFilled([first] + cells)
  {
  }

  lemma {:induction false} LessFirst(cells: seq<OptionCell>)
    requires Columns(cells) && cells != []
    ensures Columns(cells[1..]) && forall c | c in cells[1..] :: c.0 != cells[0].0
  {
  }

  lemma {:induction false} FilledHolds(cells: seq<OptionCell>)
    requires Columns(cells)
    ensures Columns(Filled(cells)) && AllFilled(Filled(cells))
  {
    if cells == [] {
    } else {
      var rest := Filled(cells[1..]);
      LessFirst(cells);
      FilledHolds(cells[1..]);
      forall i | 0 <= i < |rest| ensures rest[i].0 != cells[0].0 {
        FilledAreAmong(cells[1..], rest[i]);
      }
      if cells[0].1 != "" {
        OneMoreColumn(cells[0], rest);
      } else {
        assert Filled(cells) == rest;
      }
    }
  }

  lemma {:induction false} NoLongValue(line: nat, cells: seq<OptionCell>)
    requires LongValues(line, cells) == []
    ensures forall i | 0 <= i < |cells| :: |cells[i].1| <= MAX_OPTION_VALUE_LENGTH
  {
    if cells == [] {
    } else {
      NoLongValue(line, cells[..|cells| - 1]);
    }
  }

  lemma {:induction false} OptionsAreReady(row: Row)
    requires AsRead(row) && OptionErrors(row) == []
    ensures OptionsReady(Filled(row.options))
  {
    FilledHolds(row.options);
    NoLongValue(row.line, Filled(row.options));
  }

  lemma {:induction false} MeasuresFit(row: Row)
    requires MeasureErrors(row) == []
    ensures DimensionsFit(DimensionsOf(ValuesOf(row)))
  {
    CentimetersFit(row.length);
    CentimetersFit(row.width);
    CentimetersFit(row.height);
  }

  /** A row as read without errors has a variant to add. */
  lemma {:induction false} ReadyWithoutErrors(row: Row)
    requires AsRead(row) && RowErrors(row) == []
    ensures Ready(ValuesOf(row)) && SlugFits(row.slug) && ValuesOf(row).slug == Some(row.slug)
    ensures ValuesOf(row).title.Some? && ValuesOf(row).description.Some?
    ensures ValuesOf(row).categories.Some? && ValuesOf(row).storeOnly.Some?
  {
    OptionsAreReady(row);
    MeasuresFit(row);
    UpperOnce(row.sku);
  }
}
