/** The product aggregate: every transition, what each keeps, and what the first publication fixes. */
module Products {
  import opened Variants
  import opened Wrappers

  const MAX_TITLE_LENGTH: nat := 200
  const MAX_DESCRIPTION_LENGTH: nat := 10000
  const MAX_CATEGORIES_PER_PRODUCT: nat := 10
  const MAX_PRODUCT_SLUG_LENGTH: nat := 200

  type Id = nat
  type Time = int

  datatype Status = Draft | Published | Archived

  datatype Variant = Variant(id: Id, sku: string, gtin: Option<string>, options: Options, active: bool,
                             dimensions: Dimensions)

  datatype ProductSnapshot = ProductSnapshot(
    id: Id, title: string, slug: string, description: Option<string>, brandId: Option<Id>, categoryIds: seq<Id>,
    status: Status, publishedAt: Option<Time>, archivedAt: Option<Time>, firstPublishedAt: Option<Time>,
    storeOnly: bool, variants: seq<Variant>)

  datatype Details = Details(title: Option<string>, slug: Option<string>, description: Option<Option<string>>,
                             brandId: Option<Option<Id>>, categoryIds: Option<seq<Id>>)

  datatype NewVariant = NewVariant(id: Id, sku: string, gtin: Option<string>, options: seq<RawOption>,
                                   dimensions: Dimensions)

  datatype VariantChanges = VariantChanges(
    sku: Option<string>, gtin: Option<Option<string>>, options: Option<seq<RawOption>>,
    weightGrams: Option<Option<int>>, length: Option<Option<int>>, width: Option<Option<int>>,
    height: Option<Option<int>>)

  datatype Event =
    | ProductStoreOnlyChanged(productId: Id, storeOnly: bool, at: Time)
    | VariantDiscontinued(productId: Id, variantId: Id, at: Time)
    | ProductPublished(productId: Id, at: Time)
    | ProductArchived(productId: Id, at: Time)

  // ---- Values of a product ----

  predicate SlugChar(c: char) { 'a' <= c <= 'z' || Digit(c) }

  /** Words of lowercase letters and digits, with one hyphen between two words. */
  predicate SlugPattern(s: string) {
    && s != "" && SlugChar(s[0]) && SlugChar(s[|s| - 1])
    && (forall i | 0 <= i < |s| :: SlugChar(s[i]) || s[i] == '-')
    && forall i | 0 < i < |s| :: s[i - 1] == '-' ==> s[i] != '-'
  }

  predicate SlugFits(s: string) { |s| <= MAX_PRODUCT_SLUG_LENGTH && SlugPattern(s) }

  predicate TitleFits(title: string) { 1 <= |Trim(title)| <= MAX_TITLE_LENGTH }

  predicate Blank(description: Option<string>) { description.None? || Trim(description.value) == "" }

  predicate DescriptionFits(description: Option<string>) {
    Blank(description) || |description.value| <= MAX_DESCRIPTION_LENGTH
  }

  /** An empty description is no description. */
  function StoredDescription(description: Option<string>): Option<string> {
    if Blank(description) then None else description
  }

  /** Each ID once, where it is first. */
  function Unique<T(==,!new)>(ids: seq<T>): (r: seq<T>)
    ensures forall id :: id in r <==> id in ids
    ensures |r| <= |ids|
  {
    if ids == [] then []
    else
      var before, last := Unique(ids[..|ids| - 1]), ids[|ids| - 1];
      assert ids == ids[..|ids| - 1] + [last];
      if last in before then before else before + [last]
  }

  predicate NoRepeats<T(==)>(s: seq<T>) { forall i, j | 0 <= i < j < |s| :: s[i] != s[j] }

  lemma {:induction false} UniqueHasNoRepeats<T(!new)>(ids: seq<T>)
    ensures NoRepeats(Unique(ids))
  {
    if ids == [] {
    } else {
      UniqueHasNoRepeats(ids[..|ids| - 1]);
    }
  }

  predicate CategoriesFit(ids: seq<Id>) { |Unique(ids)| <= MAX_CATEGORIES_PER_PRODUCT }

  // ---- The rules between variants ----

  predicate Editable(p: ProductSnapshot) { p.status != Archived }

  function IndexOf(variants: seq<Variant>, id: Id): (r: Option<nat>)
    ensures r.Some? ==> r.value < |variants| && variants[r.value].id == id
    ensures r.None? ==> forall i | 0 <= i < |variants| :: variants[i].id != id
  {
    if variants == [] then None
    else if variants[0].id == id then Some(0)
    else var rest := IndexOf(variants[1..], id); if rest.Some? then Some(rest.value + 1) else None
  }

  predicate HasSku(p: ProductSnapshot, sku: string) { exists i :: 0 <= i < |p.variants| && p.variants[i].sku == sku }

  predicate Other(v: Variant, except: Option<Id>) { except != Some(v.id) }

  /** Every other variant has these option names. */
  predicate NamesAgree(p: ProductSnapshot, names: set<string>, except: Option<Id>) {
    forall i | 0 <= i < |p.variants| && Other(p.variants[i], except) :: p.variants[i].options.Keys == names
  }

  predicate CombinationTaken(p: ProductSnapshot, options: Options, except: Option<Id>) {
    exists i :: 0 <= i < |p.variants| &&
      Other(p.variants[i], except) && p.variants[i].active && p.variants[i].options == options
  }

  predicate SameGtin(a: Option<string>, b: Option<string>) {
    a.Some? && b.Some? && GtinKey(a.value) == GtinKey(b.value)
  }

  predicate GtinTaken(p: ProductSnapshot, gtin: Option<string>, except: Option<Id>) {
    exists i :: 0 <= i < |p.variants| &&
      Other(p.variants[i], except) && p.variants[i].active && SameGtin(p.variants[i].gtin, gtin)
  }

  // ---- The invariant ----

  predicate VariantFits(v: Variant) {
    && SkuPattern(v.sku) && Upper(v.sku) == v.sku
    && (v.gtin.Some? ==> ValidGtin(v.gtin.value).Ok?)
    && |v.options| <= MAX_OPTIONS
    && (forall name | name in v.options :: NameFits(name) && name !in INHERITED && ValueFits(v.options[name]))
    && DimensionsFit(v.dimensions)
  }

  /** Two variants of one product. */
  predicate Compatible(a: Variant, b: Variant) {
    && a.id != b.id && a.sku != b.sku && a.options.Keys == b.options.Keys
    && (a.active && b.active ==> a.options != b.options && !SameGtin(a.gtin, b.gtin))
  }

  predicate VariantsFit(variants: seq<Variant>) {
    && (forall i | 0 <= i < |variants| :: VariantFits(variants[i]))
    && forall i, j | 0 <= i < |variants| && 0 <= j < |variants| && i != j :: Compatible(variants[i], variants[j])
  }

  /** The status and the three timestamps agree. */
  predicate StatusFits(p: ProductSnapshot) {
    && (p.status == Archived <==> p.archivedAt.Some?)
    && (p.status == Draft ==> p.publishedAt.None?)
    && (p.status == Published ==> p.publishedAt.Some?)
    && (p.publishedAt.Some? ==> p.firstPublishedAt.Some?)
    && (p.firstPublishedAt.Some? ==> p.variants != [])
  }

  predicate DetailsFit(p: ProductSnapshot) {
    && TitleFits(p.title) && Trim(p.title) == p.title && SlugFits(p.slug)
    && (p.description.Some? ==> !Blank(p.description) && |p.description.value| <= MAX_DESCRIPTION_LENGTH)
    && NoRepeats(p.categoryIds) && |p.categoryIds| <= MAX_CATEGORIES_PER_PRODUCT
  }

  predicate Inv(p: ProductSnapshot) { DetailsFit(p) && StatusFits(p) && VariantsFit(p.variants) }

  // ---- What each operation answers ----

  type Outcome = Result<ProductSnapshot, ProductError>

  function Created(id: Id, title: string, slug: string, description: Option<string>, brandId: Option<Id>,
                   categoryIds: seq<Id>, storeOnly: bool): Outcome
  {
    if TitleFits(title) && SlugFits(slug) && DescriptionFits(description) && CategoriesFit(categoryIds) then
      Ok(ProductSnapshot(id, Trim(title), slug, StoredDescription(description), brandId, Unique(categoryIds),
                 Draft, None, None, None, storeOnly, []))
    else Err(InvalidValue)
  }

  function Edited(p: ProductSnapshot, d: Details): Outcome {
    var slug := if d.slug.Some? then d.slug.value else p.slug;
    if !Editable(p) then Err(InvalidStateTransition)
    else if d.slug.Some? && !SlugFits(slug) then Err(InvalidValue)
    else if slug != p.slug && p.firstPublishedAt.Some? then Err(FieldLocked(["slug"]))
    else if (d.title.Some? && !TitleFits(d.title.value))
        || (d.description.Some? && !DescriptionFits(d.description.value)) ||
            (d.categoryIds.Some? && !CategoriesFit(d.categoryIds.value)) then Err(InvalidValue)
    else
      Ok(p.(title := if d.title.Some? then Trim(d.title.value) else p.title,
            slug := slug,
            description := if d.description.Some? then StoredDescription(d.description.value) else p.description,
            brandId := if d.brandId.Some? then d.brandId.value else p.brandId,
            categoryIds := if d.categoryIds.Some? then Unique(d.categoryIds.value) else p.categoryIds))
  }

  function SoldInStore(p: ProductSnapshot, storeOnly: bool): Outcome {
    if Editable(p) then Ok(p.(storeOnly := storeOnly)) else Err(InvalidStateTransition)
  }

  /** Another set of option names is a new dimension, locked once published. */
  function NamesError(p: ProductSnapshot): ProductError {
    if p.firstPublishedAt.Some? then FieldLocked(["options"]) else OptionNamesMismatch
  }

  function Added(p: ProductSnapshot, v: NewVariant): Outcome {
    var options := OptionsIn(v.options);
    if !Editable(p) then Err(InvalidStateTransition)
    else if !SkuPattern(v.sku) then Err(InvalidValue)
    else if ValidOptionalGtin(v.gtin).Err? then Err(InvalidGtin)
    else if !OptionsFit(v.options) then Err(InvalidOptions)
    else if HasSku(p, Upper(v.sku)) then Err(DuplicateValue("sku"))
    else if !NamesAgree(p, options.Keys, None) then Err(NamesError(p))
    else if CombinationTaken(p, options, None) then Err(DuplicateValue("options"))
    else if GtinTaken(p, v.gtin, None) then Err(DuplicateValue("gtin"))
    else if !DimensionsFit(v.dimensions) then Err(InvalidValue)
    else Ok(p.(variants := p.variants + [Variant(v.id, Upper(v.sku), v.gtin, options, true, v.dimensions)]))
  }

  function Pick<T>(change: Option<T>, current: T): T { if change.Some? then change.value else current }

  function NewDimensions(d: Dimensions, c: VariantChanges): Dimensions {
    Dimensions(Pick(c.weightGrams, d.weightGrams), Pick(c.length, d.length), Pick(c.width, d.width),
        Pick(c.height, d.height))
  }

  function Locked(current: Variant, sku: string, options: Options): seq<string> {
    (if sku == current.sku then [] else ["sku"]) + (if options == current.options then [] else ["options"])
  }

  /** The variant as the changes ask for it, but for its weight and sizes, when their values are valid. */
  function Requested(current: Variant, c: VariantChanges): Result<Variant, ProductError> {
    if c.sku.Some? && !SkuPattern(c.sku.value) then Err(InvalidValue)
    else if c.gtin.Some? && ValidOptionalGtin(c.gtin.value).Err? then Err(InvalidGtin)
    else if c.options.Some? && !OptionsFit(c.options.value) then Err(InvalidOptions)
    else Ok(current.(sku := if c.sku.Some? then Upper(c.sku.value) else current.sku, gtin := Pick(c.gtin, current.gtin),
                     options := if c.options.Some? then OptionsIn(c.options.value) else current.options))
  }

  function Replaced(p: ProductSnapshot, at: nat, v: Variant, dimensions: Dimensions): Outcome
    requires at < |p.variants|
  {
    var current := p.variants[at];
    var locked := Locked(current, v.sku, v.options);
    if locked != [] && p.firstPublishedAt.Some? then Err(FieldLocked(locked))
    else if v.sku != current.sku && HasSku(p, v.sku) then Err(DuplicateValue("sku"))
    else if v.options != current.options && !NamesAgree(p, v.options.Keys, Some(v.id)) then Err(NamesError(p))
    else if v.options != current.options && v.active && CombinationTaken(p, v.options, Some(v.id)) then
      Err(DuplicateValue("options"))
    else if v.active && GtinTaken(p, v.gtin, Some(v.id)) then Err(DuplicateValue("gtin"))
    else if !DimensionsFit(dimensions) then Err(InvalidValue)
    else Ok(p.(variants := p.variants[at := v.(dimensions := dimensions)]))
  }

  function Updated(p: ProductSnapshot, id: Id, c: VariantChanges): Outcome {
    if !Editable(p) then Err(InvalidStateTransition)
    else if IndexOf(p.variants, id).None? then Err(NotFound)
    else
      var at := IndexOf(p.variants, id).value;
      var requested := Requested(p.variants[at], c);
      if requested.Err? then Err(requested.error)
      else Replaced(p, at, requested.value, NewDimensions(p.variants[at].dimensions, c))
  }

  function Discontinued(p: ProductSnapshot, id: Id): Outcome {
    if !Editable(p) then Err(InvalidStateTransition)
    else if IndexOf(p.variants, id).None? then Err(NotFound)
    else
      var at := IndexOf(p.variants, id).value;
      if !p.variants[at].active then Err(InvalidStateTransition)
      else Ok(p.(variants := p.variants[at := p.variants[at].(active := false)]))
  }

  function SoldAgain(p: ProductSnapshot, id: Id): Outcome {
    if !Editable(p) then Err(InvalidStateTransition)
    else if IndexOf(p.variants, id).None? then Err(NotFound)
    else
      var at := IndexOf(p.variants, id).value;
      var variant := p.variants[at];
      if variant.active then Err(InvalidStateTransition)
      else if CombinationTaken(p, variant.options, Some(id)) then Err(DuplicateValue("options"))
      else if GtinTaken(p, variant.gtin, Some(id)) then Err(DuplicateValue("gtin"))
      else Ok(p.(variants := p.variants[at := variant.(active := true)]))
  }

  predicate HasActive(p: ProductSnapshot) { exists i :: 0 <= i < |p.variants| && p.variants[i].active }

  function PublishedAt(p: ProductSnapshot, now: Time): Outcome {
    if p.status != Draft then Err(InvalidStateTransition)
    else if !HasActive(p) then Err(NoActiveVariant)
    else Ok(p.(status := Published, publishedAt := Some(now),
               firstPublishedAt := if p.firstPublishedAt.Some? then p.firstPublishedAt else Some(now)))
  }

  function ArchivedAt(p: ProductSnapshot, now: Time): Outcome {
    if p.status == Archived then Err(InvalidStateTransition) else Ok(p.(status := Archived, archivedAt := Some(now)))
  }

  function Reactivated(p: ProductSnapshot): Outcome {
    if p.status != Archived then Err(InvalidStateTransition)
    else Ok(p.(status := Draft, archivedAt := None, publishedAt := None))
  }

  datatype Operation =
    | EditDetails(details: Details)
    | ChangeStoreOnly(storeOnly: bool, now: Time)
    | AddVariant(variant: NewVariant)
    | UpdateVariant(id: Id, changes: VariantChanges)
    | DiscontinueVariant(id: Id, now: Time)
    | ReactivateVariant(id: Id)
    | Publish(now: Time)
    | Archive(now: Time)
    | Reactivate

  function Apply(p: ProductSnapshot, op: Operation): Outcome {
    match op
    case EditDetails(details) => Edited(p, details)
    case ChangeStoreOnly(storeOnly, _) => SoldInStore(p, storeOnly)
    case AddVariant(variant) => Added(p, variant)
    case UpdateVariant(id, changes) => Updated(p, id, changes)
    case DiscontinueVariant(id, _) => Discontinued(p, id)
    case ReactivateVariant(id) => SoldAgain(p, id)
    case Publish(now) => PublishedAt(p, now)
    case Archive(now) => ArchivedAt(p, now)
    case Reactivate => Reactivated(p)
  }

  // ---- What every operation keeps ----

  /** The IDs of variants are new ones. */
  predicate FreshId(p: ProductSnapshot, op: Operation) {
    op.AddVariant? ==> forall i | 0 <= i < |p.variants| :: p.variants[i].id != op.variant.id
  }

  lemma {:induction false} ValidatedFits(raw: seq<RawOption>)
    requires OptionsFit(raw)
    ensures var options := OptionsIn(raw);
            && |options| <= |raw|
            && forall name | name in options :: NameFits(name) && name !in INHERITED && ValueFits(options[name])
  {
    if raw == [] {
    } else {
      ValidatedFits(raw[..|raw| - 1]);
    }
  }

  lemma {:induction false} UpperOnce(s: string)
    ensures Upper(Upper(s)) == Upper(s) && (SkuPattern(s) ==> SkuPattern(Upper(s)))
  {
  }

  lemma {:induction false} CreatedFits(id: Id, title: string, slug: string, description: Option<string>,
                                       brandId: Option<Id>, categoryIds: seq<Id>, storeOnly: bool)
    requires Created(id, title, slug, description, brandId, categoryIds, storeOnly).Ok?
    ensures Inv(Created(id, title, slug, description, brandId, categoryIds, storeOnly).value)
  {
    TrimsOnce(title);
    UniqueHasNoRepeats(categoryIds);
  }

  lemma {:induction false} EditKeepsInv(p: ProductSnapshot, d: Details)
    requires Inv(p) && Edited(p, d).Ok?
    ensures Inv(Edited(p, d).value)
  {
    if d.title.Some? {
      TrimsOnce(d.title.value);
    }
    if d.categoryIds.Some? {
      UniqueHasNoRepeats(d.categoryIds.value);
    }
  }

  /** A variant added that fits with the others. */
  lemma {:induction false} AddingKeepsInv(p: ProductSnapshot, v: Variant)
    requires Inv(p) && VariantFits(v) && forall i | 0 <= i < |p.variants| :: Compatible(p.variants[i], v)
    ensures Inv(p.(variants := p.variants + [v]))
  {
    var after := p.variants + [v];
    forall i, j | 0 <= i < |after| && 0 <= j < |after| && i != j ensures Compatible(after[i], after[j]) {
      if i < |p.variants| {
        assert Compatible(p.variants[i], v);
      }
      if j < |p.variants| {
        assert Compatible(p.variants[j], v);
      }
    }
  }

  lemma {:induction false} AddKeepsInv(p: ProductSnapshot, v: NewVariant)
    requires Inv(p) && Added(p, v).Ok? && FreshId(p, AddVariant(v))
    ensures Inv(Added(p, v).value)
  {
    UpperOnce(v.sku);
    ValidatedFits(v.options);
    AddingKeepsInv(p, Variant(v.id, Upper(v.sku), v.gtin, OptionsIn(v.options), true, v.dimensions));
  }

  /** A variant replaced by one that fits among the others. */
  lemma {:induction false} ReplacingKeepsInv(p: ProductSnapshot, at: nat, v: Variant)
    requires Inv(p) && at < |p.variants| && VariantFits(v) && v.id == p.variants[at].id
    requires forall i | 0 <= i < |p.variants| && i != at :: Compatible(p.variants[i], v)
    ensures Inv(p.(variants := p.variants[at := v]))
  {
    var after := p.variants[at := v];
    forall i, j | 0 <= i < |after| && 0 <= j < |after| && i != j ensures Compatible(after[i], after[j]) {
      assert i != at ==> Compatible(p.variants[i], v);
      assert j != at ==> Compatible(p.variants[j], v);
      assert Compatible(p.variants[i], p.variants[j]);
    }
  }

  lemma {:induction false} UpdateKeepsInv(p: ProductSnapshot, id: Id, c: VariantChanges)
    requires Inv(p) && Updated(p, id, c).Ok?
    ensures Inv(Updated(p, id, c).value)
  {
    var at := IndexOf(p.variants, id).value;
    var current, v := p.variants[at], Updated(p, id, c).value.variants[at];
    if c.sku.Some? {
      UpperOnce(c.sku.value);
    }
    if c.options.Some? {
      ValidatedFits(c.options.value);
    }
    forall i | 0 <= i < |p.variants| && i != at ensures Compatible(p.variants[i], v) {
      assert Compatible(p.variants[i], current);
      assert Other(p.variants[i], Some(id));
    }
    ReplacingKeepsInv(p, at, v);
  }

  lemma {:induction false} StatusChangeKeepsInv(p: ProductSnapshot, id: Id)
    requires Inv(p)
    ensures Discontinued(p, id).Ok? ==> Inv(Discontinued(p, id).value)
    ensures SoldAgain(p, id).Ok? ==> Inv(SoldAgain(p, id).value)
  {
    if IndexOf(p.variants, id).Some? {
      var at := IndexOf(p.variants, id).value;
      forall i | 0 <= i < |p.variants| && i != at ensures Compatible(p.variants[i], p.variants[at]) {
      }
      if Discontinued(p, id).Ok? {
        ReplacingKeepsInv(p, at, p.variants[at].(active := false));
      }
      if SoldAgain(p, id).Ok? {
        ReplacingKeepsInv(p, at, p.variants[at].(active := true));
      }
    }
  }

  lemma {:induction false} OperationKeepsInv(p: ProductSnapshot, op: Operation)
    requires Inv(p) && FreshId(p, op) && Apply(p, op).Ok?
    ensures Inv(Apply(p, op).value)
  {
    match op
    case EditDetails(details) => EditKeepsInv(p, details);
    case AddVariant(variant) => AddKeepsInv(p, variant);
    case UpdateVariant(id, changes) => UpdateKeepsInv(p, id, changes);
    case DiscontinueVariant(id, _) => StatusChangeKeepsInv(p, id);
    case ReactivateVariant(id) => StatusChangeKeepsInv(p, id);
    case _ =>
  }

  // ---- What the first publication fixes ----

  /** No variant disappears or changes its identity. */
  predicate KeepsVariants(before: ProductSnapshot, after: ProductSnapshot) {
    && |before.variants| <= |after.variants|
    && forall i | 0 <= i < |before.variants| :: after.variants[i].id == before.variants[i].id
  }

  /** Slug, first publication, and the SKU and options of each variant are the same. */
  predicate KeepsFixed(before: ProductSnapshot, after: ProductSnapshot) {
    && after.slug == before.slug && after.firstPublishedAt == before.firstPublishedAt
    && |before.variants| <= |after.variants|
    && forall i | 0 <= i < |before.variants| ::
         after.variants[i].sku == before.variants[i].sku && after.variants[i].options == before.variants[i].options
  }

  lemma {:induction false} ReplacingKeepsFixed(p: ProductSnapshot, at: nat, v: Variant)
    requires at < |p.variants| && v.id == p.variants[at].id
    ensures KeepsVariants(p, p.(variants := p.variants[at := v]))
    ensures v.sku == p.variants[at].sku && v.options == p.variants[at].options ==>
      KeepsFixed(p, p.(variants := p.variants[at := v]))
  {
  }

  lemma {:induction false} UpdateKeepsFixed(p: ProductSnapshot, id: Id, c: VariantChanges)
    requires Updated(p, id, c).Ok?
    ensures KeepsVariants(p, Updated(p, id, c).value)
    ensures p.firstPublishedAt.Some? ==> KeepsFixed(p, Updated(p, id, c).value)
  {
    var at := IndexOf(p.variants, id).value;
    var v := Requested(p.variants[at], c).value;
    ReplacingKeepsFixed(p, at, v.(dimensions := NewDimensions(p.variants[at].dimensions, c)));
  }

  lemma {:induction false} OperationKeepsFixed(p: ProductSnapshot, op: Operation)
    requires Apply(p, op).Ok?
    ensures KeepsVariants(p, Apply(p, op).value) && Apply(p, op).value.id == p.id
    ensures p.firstPublishedAt.Some? ==> KeepsFixed(p, Apply(p, op).value)
  {
    match op
    case EditDetails(_) =>
    case ChangeStoreOnly(_, _) =>
    case AddVariant(_) =>
    case UpdateVariant(id, changes) => UpdateKeepsFixed(p, id, changes);
    case DiscontinueVariant(id, _) =>
      var at := IndexOf(p.variants, id).value;
      ReplacingKeepsFixed(p, at, p.variants[at].(active := false));
    case ReactivateVariant(id) =>
      var at := IndexOf(p.variants, id).value;
      ReplacingKeepsFixed(p, at, p.variants[at].(active := true));
    case Publish(_) =>
    case Archive(_) =>
    case Reactivate =>
  }

  /** A run: each operation is applied, or answers its error and changes nothing. */
  function After(p: ProductSnapshot, op: Operation): ProductSnapshot {
    if Apply(p, op).Ok? then Apply(p, op).value else p
  }

  function Run(p: ProductSnapshot, ops: seq<Operation>): ProductSnapshot {
    if ops == [] then p else After(Run(p, ops[..|ops| - 1]), ops[|ops| - 1])
  }

  /** Every variant added along the run has a new ID. */
  ghost predicate FreshIds(p: ProductSnapshot, ops: seq<Operation>) {
    forall i | 0 <= i < |ops| :: FreshId(Run(p, ops[..i]), ops[i])
  }

  /** Whatever the operations, the product keeps its rules. */
  lemma {:induction false} RunKeepsInv(p: ProductSnapshot, ops: seq<Operation>)
    requires Inv(p) && FreshIds(p, ops)
    ensures Inv(Run(p, ops))
  {
    if ops == [] {
    } else {
      var before, last := ops[..|ops| - 1], ops[|ops| - 1];
      forall i | 0 <= i < |before| ensures FreshId(Run(p, before[..i]), before[i]) {
        assert before[..i] == ops[..i];
      }
      RunKeepsInv(p, before);
      if Apply(Run(p, before), last).Ok? {
        OperationKeepsInv(Run(p, before), last);
      }
    }
  }

  /**
   * Once published, a product keeps its slug, its first publication, and the SKU and options of every variant it had.
   */
  lemma {:induction false} RunKeepsFixed(p: ProductSnapshot, ops: seq<Operation>)
    ensures KeepsVariants(p, Run(p, ops))
    ensures p.firstPublishedAt.Some? ==> KeepsFixed(p, Run(p, ops))
  {
    if ops == [] {
    } else {
      var before, last := ops[..|ops| - 1], ops[|ops| - 1];
      RunKeepsFixed(p, before);
      if Apply(Run(p, before), last).Ok? {
        OperationKeepsFixed(Run(p, before), last);
      }
    }
  }

  // ---- The aggregate ----

  /** What a call did: it answers and leaves what the specification says, or fails and changes nothing. */
  predicate Did(spec: Outcome, before: ProductSnapshot, after: ProductSnapshot, r: Result<(), ProductError>) {
    match spec
    case Ok(p) => r == Ok(()) && after == p
    case Err(e) => r == Err(e) && after == before
  }

  class Product {
    var state: ProductSnapshot
    var events: seq<Event>

    /** A product of the database, or just created. */
    constructor (snapshot: ProductSnapshot)
      ensures state == snapshot && events == []
    {
      state, events := snapshot, [];
    }

    /** A new draft without variants. */
    static method Create(id: Id, title: string, slug: string, description: Option<string>, brandId: Option<Id>,
                         categoryIds: seq<Id>, storeOnly: bool) returns (r: Result<Product, ProductError>)
      ensures r.Ok? ==> fresh(r.value) && Inv(r.value.state) && r.value.events == []
      ensures r.Ok? ==> Created(id, title, slug, description, brandId, categoryIds, storeOnly) == Ok(r.value.state)
      ensures r.Err? ==> Created(id, title, slug, description, brandId, categoryIds, storeOnly) == Err(r.error)
    {
      var created := Created(id, title, slug, description, brandId, categoryIds, storeOnly);
      if created.Err? { return Err(created.error); }
      CreatedFits(id, title, slug, description, brandId, categoryIds, storeOnly);
      var product := new Product(created.value);
      r := Ok(product);
    }

    method EditDetails(details: Details) returns (r: Result<(), ProductError>)
      modifies this`state
      ensures Did(Edited(old(state), details), old(state), state, r)
    {
      if !Editable(state) { return Err(InvalidStateTransition); }
      var slug := state.slug;
      if details.slug.Some? {
        slug := details.slug.value;
        if !SlugFits(slug) { return Err(InvalidValue); }
      }
      if slug != state.slug && state.firstPublishedAt.Some? { return Err(FieldLocked(["slug"])); }
      var title, description, categoryIds := state.title, state.description, state.categoryIds;
      if details.title.Some? {
        if !TitleFits(details.title.value) { return Err(InvalidValue); }
        title := Trim(details.title.value);
      }
      if details.description.Some? {
        if !DescriptionFits(details.description.value) { return Err(InvalidValue); }
        description := StoredDescription(details.description.value);
      }
      if details.categoryIds.Some? {
        if !CategoriesFit(details.categoryIds.value) { return Err(InvalidValue); }
        categoryIds := Unique(details.categoryIds.value);
      }
      state := state.(title := title, slug := slug, description := description,
                      brandId := Pick(details.brandId, state.brandId), categoryIds := categoryIds);
      r := Ok(());
    }

    /** Tells the store when a published product leaves it or comes back. */
    method ChangeStoreOnly(storeOnly: bool, now: Time) returns (r: Result<(), ProductError>)
      modifies this
      ensures Did(SoldInStore(old(state), storeOnly), old(state), state, r)
      ensures events == old(events) +
        if r.Ok? && storeOnly != old(state).storeOnly && state.status == Published
        then [ProductStoreOnlyChanged(state.id, storeOnly, now)] else []
    {
      if !Editable(state) { return Err(InvalidStateTransition); }
      if storeOnly == state.storeOnly { return Ok(()); }
      state := state.(storeOnly := storeOnly);
      if state.status == Published {
        events := events + [ProductStoreOnlyChanged(state.id, storeOnly, now)];
      }
      r := Ok(());
    }

    /** The names are compared with those of the first other variant: the rest have the same. */
    method AssertOptionNames(names: set<string>, except: Option<Id>) returns (r: Result<(), ProductError>)
      requires Inv(state)
      ensures r == if NamesAgree(state, names, except) then Ok(()) else Err(NamesError(state))
    {
      var i := 0;
      while i < |state.variants| && !Other(state.variants[i], except)
        invariant i <= |state.variants|
        invariant forall j | 0 <= j < i :: !Other(state.variants[j], except)
      {
        i := i + 1;
      }
      if i == |state.variants| { return Ok(()); }
      ghost var first := state.variants[i];
      assert forall j | 0 <= j < |state.variants| && j != i :: Compatible(state.variants[j], first);
      r := if state.variants[i].options.Keys == names then Ok(()) else Err(NamesError(state));
    }

    method AddVariant(variant: NewVariant) returns (r: Result<(), ProductError>)
      requires Inv(state) && FreshId(state, Operation.AddVariant(variant))
      modifies this`state
      ensures Did(Added(old(state), variant), old(state), state, r) && Inv(state)
    {
      if !Editable(state) { return Err(InvalidStateTransition); }
      if !SkuPattern(variant.sku) { return Err(InvalidValue); }
      var sku := Upper(variant.sku);
      var gtin := ValidOptionalGtin(variant.gtin);
      if gtin.Err? { return Err(gtin.error); }
      var options := ValidOptions(variant.options);
      if options.Err? { return Err(options.error); }
      if HasSku(state, sku) { return Err(DuplicateValue("sku")); }
      var names := AssertOptionNames(options.value.Keys, None);
      if names.Err? { return names; }
      if CombinationTaken(state, options.value, None) { return Err(DuplicateValue("options")); }
      if GtinTaken(state, variant.gtin, None) { return Err(DuplicateValue("gtin")); }
      if !DimensionsFit(variant.dimensions) { return Err(InvalidValue); }
      AddKeepsInv(state, variant);
      state := state.(variants := state.variants +
        [Variant(variant.id, sku, variant.gtin, options.value, true, variant.dimensions)]);
      r := Ok(());
    }

    static method Request(current: Variant, changes: VariantChanges) returns (r: Result<Variant, ProductError>)
      ensures r == Requested(current, changes)
    {
      var v := current;
      if changes.sku.Some? {
        if !SkuPattern(changes.sku.value) { return Err(InvalidValue); }
        v := v.(sku := Upper(changes.sku.value));
      }
      if changes.gtin.Some? {
        if ValidOptionalGtin(changes.gtin.value).Err? { return Err(InvalidGtin); }
        v := v.(gtin := changes.gtin.value);
      }
      if changes.options.Some? {
        var valid := ValidOptions(changes.options.value);
        if valid.Err? { return Err(valid.error); }
        v := v.(options := valid.value);
      }
      r := Ok(v);
    }

    method UpdateVariant(id: Id, changes: VariantChanges) returns (r: Result<(), ProductError>)
      requires Inv(state)
      modifies this`state
      ensures Did(Updated(old(state), id, changes), old(state), state, r) && Inv(state)
    {
      if !Editable(state) { return Err(InvalidStateTransition); }
      var at := IndexOf(state.variants, id);
      if at.None? { return Err(NotFound); }
      var current := state.variants[at.value];
      var v := Request(current, changes);
      if v.Err? { return Err(v.error); }
      if Updated(state, id, changes).Ok? {
        UpdateKeepsInv(state, id, changes);
      }
      r := Replace(at.value, v.value, NewDimensions(current.dimensions, changes));
    }

    /** The rules between variants, and then the change. */
    method Replace(at: nat, v: Variant, dimensions: Dimensions) returns (r: Result<(), ProductError>)
      requires Inv(state) && at < |state.variants| && v.id == state.variants[at].id
      modifies this`state
      ensures Did(Replaced(old(state), at, v, dimensions), old(state), state, r)
    {
      var current := state.variants[at];
      var locked := Locked(current, v.sku, v.options);
      if locked != [] && state.firstPublishedAt.Some? { return Err(FieldLocked(locked)); }
      if v.sku != current.sku && HasSku(state, v.sku) { return Err(DuplicateValue("sku")); }
      if v.options != current.options {
        var names := AssertOptionNames(v.options.Keys, Some(v.id));
        if names.Err? { return names; }
        if v.active && CombinationTaken(state, v.options, Some(v.id)) { return Err(DuplicateValue("options")); }
      }
      if v.active && GtinTaken(state, v.gtin, Some(v.id)) { return Err(DuplicateValue("gtin")); }
      if !DimensionsFit(dimensions) { return Err(InvalidValue); }
      ReplaceVariant(v.(dimensions := dimensions), at);
      r := Ok(());
    }

    /** Replaces the variant with that ID, wherever it is. */
    method ReplaceVariant(variant: Variant, ghost at: nat)
      requires VariantsFit(state.variants) && at < |state.variants| && state.variants[at].id == variant.id
      modifies this`state
      ensures state == old(state).(variants := old(state).variants[at := variant])
    {
      var variants := state.variants;
      for i := 0 to |variants|
        invariant state == old(state) && |variants| == |state.variants|
        invariant forall j | 0 <= j < i :: variants[j] == state.variants[at := variant][j]
        invariant forall j | i <= j < |variants| :: variants[j] == state.variants[j]
      {
        if variants[i].id == variant.id {
          assert i != at ==> Compatible(state.variants[i], state.variants[at]);
          variants := variants[i := variant];
        }
      }
      assert variants == state.variants[at := variant];
      state := state.(variants := variants);
    }

    method DiscontinueVariant(id: Id, now: Time) returns (r: Result<(), ProductError>)
      requires Inv(state)
      modifies this
      ensures Did(Discontinued(old(state), id), old(state), state, r) && Inv(state)
      ensures events == old(events) + if r.Ok? then [VariantDiscontinued(state.id, id, now)] else []
    {
      if !Editable(state) { return Err(InvalidStateTransition); }
      var at := IndexOf(state.variants, id);
      if at.None? { return Err(NotFound); }
      var variant := state.variants[at.value];
      if !variant.active { return Err(InvalidStateTransition); }
      StatusChangeKeepsInv(state, id);
      ReplaceVariant(variant.(active := false), at.value);
      events := events + [VariantDiscontinued(state.id, id, now)];
      r := Ok(());
    }

    method ReactivateVariant(id: Id) returns (r: Result<(), ProductError>)
      requires Inv(state)
      modifies this`state
      ensures Did(SoldAgain(old(state), id), old(state), state, r) && Inv(state)
    {
      if !Editable(state) { return Err(InvalidStateTransition); }
      var at := IndexOf(state.variants, id);
      if at.None? { return Err(NotFound); }
      var variant := state.variants[at.value];
      if variant.active { return Err(InvalidStateTransition); }
      if CombinationTaken(state, variant.options, Some(id)) { return Err(DuplicateValue("options")); }
      if GtinTaken(state, variant.gtin, Some(id)) { return Err(DuplicateValue("gtin")); }
      StatusChangeKeepsInv(state, id);
      ReplaceVariant(variant.(active := true), at.value);
      r := Ok(());
    }

    method Publish(now: Time) returns (r: Result<(), ProductError>)
      modifies this
      ensures Did(PublishedAt(old(state), now), old(state), state, r)
      ensures events == old(events) + if r.Ok? then [ProductPublished(state.id, now)] else []
    {
      if state.status != Draft { return Err(InvalidStateTransition); }
      if !HasActive(state) { return Err(NoActiveVariant); }
      var first := if state.firstPublishedAt.Some? then state.firstPublishedAt else Some(now);
      state := state.(status := Published, publishedAt := Some(now), firstPublishedAt := first);
      events := events + [ProductPublished(state.id, now)];
      r := Ok(());
    }

    method Archive(now: Time) returns (r: Result<(), ProductError>)
      modifies this
      ensures Did(ArchivedAt(old(state), now), old(state), state, r)
      ensures events == old(events) + if r.Ok? then [ProductArchived(state.id, now)] else []
    {
      if state.status == Archived { return Err(InvalidStateTransition); }
      state := state.(status := Archived, archivedAt := Some(now));
      events := events + [ProductArchived(state.id, now)];
      r := Ok(());
    }

    method Reactivate() returns (r: Result<(), ProductError>)
      modifies this`state
      ensures Did(Reactivated(old(state)), old(state), state, r)
    {
      if state.status != Archived { return Err(InvalidStateTransition); }
      state := state.(status := Draft, archivedAt := None, publishedAt := None);
      r := Ok(());
    }

    /** The events of the changes made, once. */
    method PullEvents() returns (pulled: seq<Event>)
      modifies this`events
      ensures pulled == old(events) && events == []
    {
      pulled := events;
      events := [];
    }
  }
}
