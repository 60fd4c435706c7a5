/** What each operation of a product changes, field by field, and exactly when it does. */
module ProductChanges {
  import opened Products
  import opened Variants
  import opened Wrappers

  predicate DescriptionIsShort(description: Option<string>) {
    description == None || Trim(description.value) == "" || |description.value| <= 10000
  }

  /** No description, or one with something but spaces. */
  predicate IsDescription(stored: Option<string>, asked: Option<string>) {
    stored == if asked == None || Trim(asked.value) == "" then None else asked
  }

  /** A field is as asked, or as it was. */
  predicate IsAsked<T(==)>(after: T, asked: Option<T>, before: T) {
    after == match asked case Some(value) => value case None => before
  }

  // ---- The product ----

  /** A product is created exactly from values that fit, as a draft without variants that has just those values. */
  lemma {:induction false} CreatesExactly(id: Id, title: string, slug: string, description: Option<string>,
                                          brandId: Option<Id>, categoryIds: seq<Id>, storeOnly: bool)
    ensures var r := Created(id, title, slug, description, brandId, categoryIds, storeOnly);
      && (r.Ok? <==> && 1 <= |Trim(title)| <= 200 && SlugPattern(slug) && |slug| <= 200
                     && DescriptionIsShort(description) && |Unique(categoryIds)| <= 10)
      && (r.Ok? ==>
            var p := r.value;
            && p.id == id && p.title == Trim(title) && p.slug == slug && IsDescription(p.description, description)
            && p.brandId == brandId && p.categoryIds == Unique(categoryIds) && p.storeOnly == storeOnly
            && p.status == Draft && p.publishedAt == p.archivedAt == p.firstPublishedAt == None && p.variants == [])
  {
  }

  /** Only the fields asked for change, and the slug of a product once published does not. */
  lemma {:induction false} EditsExactly(p: ProductSnapshot, d: Details)
    ensures var r := Edited(p, d);
      && (r.Ok? <==>
            && p.status != Archived
            && (d.title.Some? ==> 1 <= |Trim(d.title.value)| <= 200)
            && (d.slug.Some? ==> SlugPattern(d.slug.value) && |d.slug.value| <= 200)
            && (d.slug.Some? && p.firstPublishedAt.Some? ==> d.slug.value == p.slug)
            && (d.description.Some? ==> DescriptionIsShort(d.description.value))
            && (d.categoryIds.Some? ==> |Unique(d.categoryIds.value)| <= 10))
      && (r.Ok? ==> Edits(p, d, r.value))
  {
  }

  predicate Edits(p: ProductSnapshot, d: Details, q: ProductSnapshot) {
    && q.title == (if d.title.Some? then Trim(d.title.value) else p.title)
    && IsAsked(q.slug, d.slug, p.slug) && IsAsked(q.brandId, d.brandId, p.brandId)
    && (if d.description.Some? then IsDescription(q.description, d.description.value)
        else q.description == p.description)
    && q.categoryIds == (if d.categoryIds.Some? then Unique(d.categoryIds.value) else p.categoryIds)
    && q == p.(title := q.title, slug := q.slug, brandId := q.brandId, description := q.description,
               categoryIds := q.categoryIds)
  }

  /** The operations that move a product from one status to another, and where it is sold. */
  lemma {:induction false} MovesExactly(p: ProductSnapshot, storeOnly: bool, now: Time)
    ensures var sold := SoldInStore(p, storeOnly);
      && (sold.Ok? <==> p.status != Archived) && (sold.Ok? ==> sold.value == p.(storeOnly := storeOnly))
    ensures var published := PublishedAt(p, now);
      && (published.Ok? <==> p.status == Draft && exists v :: v in p.variants && v.active)
      && (published.Ok? ==>
            && published.value.status == Published && published.value.publishedAt == Some(now)
            && published.value.firstPublishedAt ==
                 (if p.firstPublishedAt == None then Some(now) else p.firstPublishedAt)
            && published.value == p.(status := Published, publishedAt := Some(now),
                                     firstPublishedAt := published.value.firstPublishedAt))
    ensures var archived := ArchivedAt(p, now);
      && (archived.Ok? <==> p.status != Archived)
      && (archived.Ok? ==> archived.value == p.(status := Archived, archivedAt := Some(now)))
    ensures var draft := Reactivated(p);
      && (draft.Ok? <==> p.status == Archived)
      && (draft.Ok? ==> draft.value == p.(status := Draft, archivedAt := None, publishedAt := None))
  {
    if v :| v in p.variants && v.active {
      var i :| 0 <= i < |p.variants| && p.variants[i] == v;
    }
  }

  // ---- Its variants ----

  predicate CodeFits(gtin: Option<string>) {
    gtin == None
    || (|gtin.value| in {8, 12, 13, 14} && Digits(gtin.value) && WeightedSum(gtin.value, 0) % 10 == 0)
  }

  /** Two codes name one article. */
  predicate SameArticle(a: Option<string>, b: Option<string>) {
    a.Some? && b.Some? && GtinKey(a.value) == GtinKey(b.value)
  }

  /** Besides the variant itself, none has the SKU, other option names, or, on sale, the options or the code. */
  predicate Fits(p: ProductSnapshot, sku: string, gtin: Option<string>, options: Options) {
    forall v | v in p.variants ::
      && v.sku != sku && v.options.Keys == options.Keys
      && (v.active ==> v.options != options && !SameArticle(v.gtin, gtin))
  }

  predicate MeasuresFit(d: Dimensions) {
    && (d.weightGrams.Some? ==> 1 <= d.weightGrams.value <= 2147483647)
    && (d.length.Some? ==> 1 <= d.length.value <= 9999999)
    && (d.width.Some? ==> 1 <= d.width.value <= 9999999)
    && (d.height.Some? ==> 1 <= d.height.value <= 9999999)
  }

  lemma {:induction false} CodeFitsExactly(gtin: Option<string>)
    ensures ValidOptionalGtin(gtin).Ok? <==> CodeFits(gtin)
  {
    if gtin.Some? && GtinPattern(gtin.value) {
      CheckDigitMakesTens(gtin.value);
    }
  }

  /** A variant is added exactly when its values fit and none of the others clashes with it; then it is the last one. */
  lemma {:induction false} AddsExactly(p: ProductSnapshot, v: NewVariant)
    ensures Added(p, v).Ok? <==>
              && p.status != Archived && SkuPattern(v.sku) && CodeFits(v.gtin) && OptionsFit(v.options)
              && MeasuresFit(v.dimensions) && Fits(p, Upper(v.sku), v.gtin, OptionsIn(v.options))
    ensures Added(p, v).Ok? ==>
              Added(p, v).value == p.(variants := p.variants + [
                Variant(v.id, Upper(v.sku), v.gtin, OptionsIn(v.options), true, v.dimensions)])
  {
    CodeFitsExactly(v.gtin);
    var sku, gtin, options := Upper(v.sku), v.gtin, OptionsIn(v.options);
    FitsExactly(p, sku, gtin, options);
  }

  lemma {:induction false} FitsExactly(p: ProductSnapshot, sku: string, gtin: Option<string>, options: Options)
    ensures Fits(p, sku, gtin, options) <==>
              && !HasSku(p, sku) && NamesAgree(p, options.Keys, None) && !CombinationTaken(p, options, None)
              && !GtinTaken(p, gtin, None)
  {
    if !Fits(p, sku, gtin, options) {
      var v :| v in p.variants && !(v.sku != sku && v.options.Keys == options.Keys
                                    && (v.active ==> v.options != options && !SameArticle(v.gtin, gtin)));
      var i :| 0 <= i < |p.variants| && p.variants[i] == v;
    } else {
      forall i | 0 <= i < |p.variants| ensures p.variants[i] in p.variants {
      }
    }
  }

  /** The one variant with this ID is at this place. */
  predicate IsAt(p: ProductSnapshot, id: Id, at: nat) {
    at < |p.variants| && forall i | 0 <= i < |p.variants| :: p.variants[i].id == id <==> i == at
  }

  lemma {:induction false} FoundAt(p: ProductSnapshot, id: Id, at: nat)
    requires IsAt(p, id, at)
    ensures IndexOf(p.variants, id) == Some(at)
  {
    assert p.variants[at].id == id;
    var found := IndexOf(p.variants, id);
    assert found.Some? && p.variants[found.value].id == id;
  }

  /** The variant as the changes ask for it. */
  predicate IsAskedFor(after: Variant, c: VariantChanges, before: Variant) {
    && after.id == before.id && after.active == before.active
    && after.sku == (if c.sku.Some? then Upper(c.sku.value) else before.sku)
    && after.options == (if c.options.Some? then OptionsIn(c.options.value) else before.options)
    && IsAsked(after.gtin, c.gtin, before.gtin)
    && IsAsked(after.dimensions.weightGrams, c.weightGrams, before.dimensions.weightGrams)
    && IsAsked(after.dimensions.length, c.length, before.dimensions.length)
    && IsAsked(after.dimensions.width, c.width, before.dimensions.width)
    && IsAsked(after.dimensions.height, c.height, before.dimensions.height)
  }

  predicate ValuesFit(c: VariantChanges) {
    && (c.sku.Some? ==> SkuPattern(c.sku.value)) && (c.gtin.Some? ==> CodeFits(c.gtin.value))
    && (c.options.Some? ==> OptionsFit(c.options.value))
  }

  /**
   * A variant may take the place of one that was there: once published its SKU and its options do not change; and what
   * changes of it, like the code of one on sale, clashes with no other.
   */
  predicate MayReplace(p: ProductSnapshot, at: nat, v: Variant)
    requires at < |p.variants|
  {
    var before := p.variants[at];
    && (p.firstPublishedAt.Some? ==> v.sku == before.sku && v.options == before.options)
    && (v.sku != before.sku ==> forall i | 0 <= i < |p.variants| :: p.variants[i].sku != v.sku)
    && (v.options != before.options ==>
          forall i | 0 <= i < |p.variants| && i != at ::
            && p.variants[i].options.Keys == v.options.Keys
            && (v.active && p.variants[i].active ==> p.variants[i].options != v.options))
    && (v.active ==>
          forall i | 0 <= i < |p.variants| && i != at && p.variants[i].active ::
            !SameArticle(p.variants[i].gtin, v.gtin))
  }

  lemma {:induction false} ReplacesExactly(p: ProductSnapshot, at: nat, v: Variant, dimensions: Dimensions)
    requires at < |p.variants| && IsAt(p, v.id, at)
    ensures Replaced(p, at, v, dimensions).Ok? <==> MayReplace(p, at, v) && MeasuresFit(dimensions)
    ensures Replaced(p, at, v, dimensions).Ok? ==>
              Replaced(p, at, v, dimensions).value == p.(variants := p.variants[at := v.(dimensions := dimensions)])
  {
  }

  /** A variant changes exactly when what is asked for fits and may take its place; and then just it, and just so. */
  lemma {:induction false} UpdatesExactly(p: ProductSnapshot, id: Id, c: VariantChanges, at: nat, v: Variant)
    requires IsAt(p, id, at) && IsAskedFor(v, c, p.variants[at])
    ensures Updated(p, id, c).Ok? <==>
              p.status != Archived && ValuesFit(c) && MayReplace(p, at, v) && MeasuresFit(v.dimensions)
    ensures Updated(p, id, c).Ok? ==> Updated(p, id, c).value == p.(variants := p.variants[at := v])
  {
    FoundAt(p, id, at);
    RequestsExactly(p.variants[at], c, v);
    var requested := Requested(p.variants[at], c);
    if requested.Ok? {
      ReplacesExactly(p, at, requested.value, v.dimensions);
    }
  }

  lemma {:induction false} RequestsExactly(before: Variant, c: VariantChanges, v: Variant)
    requires IsAskedFor(v, c, before)
    ensures Requested(before, c).Ok? <==> ValuesFit(c)
    ensures Requested(before, c).Ok? ==> Requested(before, c).value == v.(dimensions := before.dimensions)
    ensures NewDimensions(before.dimensions, c) == v.dimensions
  {
    if c.gtin.Some? {
      CodeFitsExactly(c.gtin.value);
    }
  }

  /** A variant goes out of sale when it is on sale, and back when it is not and nothing on sale clashes with it. */
  lemma {:induction false} SellsExactly(p: ProductSnapshot, id: Id, at: nat)
    requires IsAt(p, id, at)
    ensures var r := Discontinued(p, id);
      && (r.Ok? <==> p.status != Archived && p.variants[at].active)
      && (r.Ok? ==> r.value == p.(variants := p.variants[at := p.variants[at].(active := false)]))
    ensures var r, v := SoldAgain(p, id), p.variants[at];
      && (r.Ok? <==>
            && p.status != Archived && !v.active
            && forall i | 0 <= i < |p.variants| && i != at && p.variants[i].active ::
                 p.variants[i].options != v.options && !SameArticle(p.variants[i].gtin, v.gtin))
      && (r.Ok? ==> r.value == p.(variants := p.variants[at := v.(active := true)]))
  {
    FoundAt(p, id, at);
  }

  /** Nothing changes a variant that is not there, and the error says so unless the product is archived. */
  lemma {:induction false} NoSuchVariant(p: ProductSnapshot, id: Id, c: VariantChanges)
    requires forall v | v in p.variants :: v.id != id
    ensures var error := if p.status == Archived then InvalidStateTransition else NotFound;
            Updated(p, id, c) == Discontinued(p, id) == SoldAgain(p, id) == Err(error)
  {
  }

  /** The SKU and the options of a variant are locked once its product was published: the error names those asked. */
  lemma {:induction false} LocksExactly(p: ProductSnapshot, id: Id, c: VariantChanges, at: nat, v: Variant)
    requires IsAt(p, id, at) && IsAskedFor(v, c, p.variants[at])
    requires p.status != Archived && ValuesFit(c) && p.firstPublishedAt.Some?
    requires v.sku != p.variants[at].sku || v.options != p.variants[at].options
    ensures Updated(p, id, c).Err? && Updated(p, id, c).error.FieldLocked?
    ensures var fields := Updated(p, id, c).error.fields;
      && ("sku" in fields <==> v.sku != p.variants[at].sku)
      && ("options" in fields <==> v.options != p.variants[at].options)
  {
    FoundAt(p, id, at);
    if c.gtin.Some? {
      CodeFitsExactly(c.gtin.value);
    }
  }
}
