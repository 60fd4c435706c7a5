/** A domain event as JSON, with its dates tagged so they come back as dates. */
module EventPayload {
  import opened Wrappers

  /** A text: the ISO form of an instant in milliseconds, or any other. */
  datatype Text = Instant(ms: int) | Plain(text: string)

  /** A value in memory. An object with `toJSON` has its own fields and what `toJSON` returns. */
  datatype Value =
    | Undefined
    | Null
    | Bool(b: bool)
    | Number(n: int)
    | String(text: Text)
    | Date(ms: int)
    | InvalidDate
    | List(items: seq<Value>)
    | Object(fields: seq<Field>)
    | Custom(own: seq<Field>, json: Value)

  datatype Field = Field(name: string, value: Value)

  datatype Json =
    | JNull
    | JBool(b: bool)
    | JNumber(n: int)
    | JString(text: Text)
    | JList(items: seq<Json>)
    | JObject(fields: seq<JField>)

  datatype JField = JField(name: string, value: Json)

  /** The ISO form of an invalid date. */
  datatype Error = RangeError

  const DATE_TAG := "$date"

  function Tagged(text: Text): Json { JObject([JField(DATE_TAG, JString(text))]) }

  // ---- Storing ----

  /** What a property holds, as JSON: its `toJSON` first, and a date tagged. Nothing for a value JSON leaves out. */
  function Property(v: Value): Result<Option<Json>, Error>
    decreases v, 1
  {
    match v
    case Date(ms) => Ok(Some(Tagged(Instant(ms))))
    case InvalidDate => Err(RangeError)
    case Custom(_, json) => Plainly(json)
    case _ => Plainly(v)
  }

  /** A value as JSON without its own `toJSON`: a date that a `toJSON` returned is an object without fields. */
  function Plainly(v: Value): Result<Option<Json>, Error>
    decreases v, 0
  {
    match v
    case Undefined => Ok(None)
    case Null => Ok(Some(JNull))
    case Bool(b) => Ok(Some(JBool(b)))
    case Number(n) => Ok(Some(JNumber(n)))
    case String(text) => Ok(Some(JString(text)))
    case Date(_) => Ok(Some(JObject([])))
    case InvalidDate => Ok(Some(JObject([])))
    case List(items) => (match Items(items) case Ok(js) => Ok(Some(JList(js))) case Err(e) => Err(e))
    case Object(fields) => (match Fields(fields) case Ok(js) => Ok(Some(JObject(js))) case Err(e) => Err(e))
    case Custom(own, _) => (match Fields(own) case Ok(js) => Ok(Some(JObject(js))) case Err(e) => Err(e))
  }

  function Items(items: seq<Value>): Result<seq<Json>, Error>
    decreases items, 0
  {
    if items == [] then Ok([])
    else
      match Property(items[0])
      case Err(e) => Err(e)
      case Ok(first) =>
        match Items(items[1..])
        case Err(e) => Err(e)
        case Ok(rest) => Ok([if first.Some? then first.value else JNull] + rest)
  }

  function Fields(fields: seq<Field>): Result<seq<JField>, Error>
    decreases fields, 0
  {
    if fields == [] then Ok([])
    else
      match Property(fields[0].value)
      case Err(e) => Err(e)
      case Ok(first) =>
        match Fields(fields[1..])
        case Err(e) => Err(e)
        case Ok(rest) => Ok((if first.Some? then [JField(fields[0].name, first.value)] else []) + rest)
  }

  /** The payload of an event. */
  function ToPayload(event: seq<Field>): Result<Json, Error> {
    match Fields(event)
    case Ok(fields) => Ok(JObject(fields))
    case Err(e) => Err(e)
  }

  // ---- When storing fails ----

  function ValuesOf(fields: seq<Field>): (values: seq<Value>)
    ensures |values| == |fields| && forall i | 0 <= i < |fields| :: values[i] == fields[i].value
  {
    seq(|fields|, i requires 0 <= i < |fields| => fields[i].value)
  }

  /** What a list or an object holds. */
  function Held(v: Value): seq<Value> {
    match v
    case List(items) => items
    case Object(fields) => ValuesOf(fields)
    case Custom(own, _) => ValuesOf(own)
    case _ => []
  }

  /** What JSON takes from a value: what it holds, or what its `toJSON` returns holds. */
  function Parts(v: Value): seq<Value> { if v.Custom? then Held(v.json) else Held(v) }

  /** The value at a place, if JSON takes it. */
  function At(v: Value, place: seq<nat>): Option<Value>
    decreases |place|
  {
    if place == [] then Some(v)
    else if place[0] < |Parts(v)| then At(Parts(v)[place[0]], place[1..])
    else None
  }

  ghost predicate HasInvalidDate(v: Value) { exists place :: At(v, place) == Some(InvalidDate) }

  ghost predicate SomeInvalid(values: seq<Value>) { exists i :: 0 <= i < |values| && HasInvalidDate(values[i]) }

  lemma {:induction false} InvalidInside(v: Value)
    requires v != InvalidDate
    ensures HasInvalidDate(v) <==> SomeInvalid(Parts(v))
  {
    if HasInvalidDate(v) {
      var place :| At(v, place) == Some(InvalidDate);
      assert At(Parts(v)[place[0]], place[1..]) == Some(InvalidDate);
    }
    if i :| 0 <= i < |Parts(v)| && HasInvalidDate(Parts(v)[i]) {
      var place :| At(Parts(v)[i], place) == Some(InvalidDate);
      assert ([i as nat] + place)[1..] == place;
      assert At(v, [i as nat] + place) == Some(InvalidDate);
    }
  }

  /** A property is stored unless it is an invalid date, or JSON takes one from inside it. */
  lemma {:induction false} FailsExactly(v: Value)
    ensures Property(v).Err? <==> HasInvalidDate(v)
    decreases v, 1
  {
    if v == InvalidDate {
      assert At(v, []) == Some(InvalidDate);
    } else {
      InvalidInside(v);
      if v.Custom? {
        PlainlyFails(v.json);
      } else {
        PlainlyFails(v);
      }
    }
  }

  lemma {:induction false} PlainlyFails(v: Value)
    ensures Plainly(v).Err? <==> SomeInvalid(Held(v))
    decreases v, 0
  {
    match v
    case List(items) => ItemsFail(items);
    case Object(fields) => FieldsFail(fields);
    case Custom(own, _) => FieldsFail(own);
    case _ =>
  }

  lemma {:induction false} ItemsFail(items: seq<Value>)
    ensures Items(items).Err? <==> SomeInvalid(items)
    decreases items, 0
  {
    if items == [] {
    } else {
      FailsExactly(items[0]);
      ItemsFail(items[1..]);
      assert forall i | 0 < i < |items| :: items[i] == items[1..][i - 1];
    }
  }

  lemma {:induction false} FieldsFail(fields: seq<Field>)
    ensures Fields(fields).Err? <==> SomeInvalid(ValuesOf(fields))
    decreases fields, 0
  {
    if fields == [] {
    } else {
      FailsExactly(fields[0].value);
      FieldsFail(fields[1..]);
      assert ValuesOf(fields[1..]) == ValuesOf(fields)[1..];
      assert forall i | 0 < i < |fields| :: ValuesOf(fields)[i] == ValuesOf(fields[1..])[i - 1];
    }
  }

  /** An event is stored unless JSON takes an invalid date from somewhere in it. */
  lemma {:induction false} StoringFailsExactly(event: seq<Field>)
    ensures ToPayload(event).Err? <==> HasInvalidDate(Object(event))
  {
    FieldsFail(event);
    InvalidInside(Object(event));
  }

  // ---- Reading back ----

  function DateFrom(text: Text, parse: string -> Option<int>): Value {
    match text
    case Instant(ms) => Date(ms)
    case Plain(s) => if parse(s).Some? then Date(parse(s).value) else InvalidDate
  }

  predicate IsTaggedDate(fields: seq<Field>) {
    |fields| == 1 && fields[0].name == DATE_TAG && fields[0].value.String?
  }

  /**
   * The value a payload holds: from the leaves up, each tagged date becomes a date; `parse` reads texts of other forms.
   */
  function FromPayload(j: Json, parse: string -> Option<int>): Value {
    match j
    case JNull => Null
    case JBool(b) => Bool(b)
    case JNumber(n) => Number(n)
    case JString(text) => String(text)
    case JList(items) => List(ItemsFrom(items, parse))
    case JObject(fields) =>
      var values := FieldsFrom(fields, parse);
      if IsTaggedDate(values) then DateFrom(values[0].value.text, parse) else Object(values)
  }

  function ItemsFrom(items: seq<Json>, parse: string -> Option<int>): (r: seq<Value>)
    ensures |r| == |items|
  {
    if items == [] then [] else [FromPayload(items[0], parse)] + ItemsFrom(items[1..], parse)
  }

  function FieldsFrom(fields: seq<JField>, parse: string -> Option<int>): (r: seq<Field>)
    ensures |r| == |fields|
  {
    if fields == [] then []
    else [Field(fields[0].name, FromPayload(fields[0].value, parse))] + FieldsFrom(fields[1..], parse)
  }

  // ---- What storing keeps ----

  /** A value with every `toJSON` called once, without what JSON leaves out. */
  function Expanded(v: Value): Option<Value>
    decreases v, 1
  {
    match v
    case Date(_) => Some(v)
    case InvalidDate => Some(v)
    case Custom(_, json) => ExpandedPlainly(json)
    case _ => ExpandedPlainly(v)
  }

  function ExpandedPlainly(v: Value): Option<Value>
    decreases v, 0
  {
    match v
    case Undefined => None
    case Date(_) => Some(Object([]))
    case InvalidDate => Some(Object([]))
    case List(items) => Some(List(ExpandedItems(items)))
    case Object(fields) => Some(Object(ExpandedFields(fields)))
    case Custom(own, _) => Some(Object(ExpandedFields(own)))
    case _ => Some(v)
  }

  function ExpandedItems(items: seq<Value>): seq<Value>
    decreases items, 0
  {
    if items == [] then []
    else [if Expanded(items[0]).Some? then Expanded(items[0]).value else Null] + ExpandedItems(items[1..])
  }

  function ExpandedFields(fields: seq<Field>): seq<Field>
    decreases fields, 0
  {
    if fields == [] then []
    else
      var first := Expanded(fields[0].value);
      (if first.Some? then [Field(fields[0].name, first.value)] else []) + ExpandedFields(fields[1..])
  }

  /** No object anywhere has the shape of a tagged date. */
  predicate Untagged(v: Value) {
    match v
    case List(items) => UntaggedItems(items)
    case Object(fields) => !IsTaggedDate(fields) && UntaggedFields(fields)
    case _ => true
  }

  predicate UntaggedItems(items: seq<Value>) { items == [] || (Untagged(items[0]) && UntaggedItems(items[1..])) }

  predicate UntaggedFields(fields: seq<Field>) {
    fields == [] || (Untagged(fields[0].value) && UntaggedFields(fields[1..]))
  }

  /** What is read back is the value expanded, exactly when nothing in it looks like a tagged date. */
  predicate ComesBack(stored: Option<Json>, expanded: Option<Value>, parse: string -> Option<int>) {
    match stored
    case None => expanded == None
    case Some(j) => expanded.Some? && (FromPayload(j, parse) == expanded.value <==> Untagged(expanded.value))
  }

  lemma {:induction false} PropertyComesBack(v: Value, parse: string -> Option<int>)
    ensures Property(v).Ok? ==> ComesBack(Property(v).value, Expanded(v), parse)
    decreases v, 1
  {
    match v
    case Date(ms) => TagComesBack(ms, parse);
    case InvalidDate =>
    case Custom(_, json) => PlainlyComesBack(json, parse);
    case _ => PlainlyComesBack(v, parse);
  }

  lemma {:induction false} TagComesBack(ms: int, parse: string -> Option<int>)
    ensures FromPayload(Tagged(Instant(ms)), parse) == Date(ms)
  {
    var fields := [JField(DATE_TAG, JString(Instant(ms)))];
    assert fields[1..] == [];
    assert FieldsFrom(fields, parse) == [Field(DATE_TAG, String(Instant(ms)))];
  }

  lemma {:induction false} PlainlyComesBack(v: Value, parse: string -> Option<int>)
    ensures Plainly(v).Ok? ==> ComesBack(Plainly(v).value, ExpandedPlainly(v), parse)
    decreases v, 0
  {
    match v
    case List(items) => ItemsComeBack(items, parse);
    case Object(fields) => ObjectComesBack(fields, parse);
    case Custom(own, _) => ObjectComesBack(own, parse);
    case _ =>
  }

  lemma {:induction false} ObjectComesBack(fields: seq<Field>, parse: string -> Option<int>)
    ensures Fields(fields).Ok? ==>
              ComesBack(Some(JObject(Fields(fields).value)), Some(Object(ExpandedFields(fields))), parse)
    decreases fields, 1
  {
    FieldsComeBack(fields, parse);
  }

  lemma {:induction false} ItemsComeBack(items: seq<Value>, parse: string -> Option<int>)
    ensures Items(items).Ok? ==>
      (ItemsFrom(Items(items).value, parse) == ExpandedItems(items) <==> UntaggedItems(ExpandedItems(items)))
    ensures Items(items).Ok? ==> |Items(items).value| == |ExpandedItems(items)|
    decreases items, 0
  {
    if items != [] && Items(items).Ok? {
      PropertyComesBack(items[0], parse);
      ItemsComeBack(items[1..], parse);
      var first := if Property(items[0]).value.Some? then Property(items[0]).value.value else JNull;
      var rest := Items(items[1..]).value;
      assert ([first] + rest)[1..] == rest;
      var value := if Expanded(items[0]).Some? then Expanded(items[0]).value else Null;
      assert ([value] + ExpandedItems(items[1..]))[1..] == ExpandedItems(items[1..]);
      ConsEqual(FromPayload(first, parse), ItemsFrom(rest, parse), value, ExpandedItems(items[1..]));
    }
  }

  lemma {:induction false} ConsEqual<T>(a: T, s: seq<T>, b: T, t: seq<T>)
    ensures [a] + s == [b] + t <==> a == b && s == t
  {
    if [a] + s == [b] + t {
      assert ([a] + s)[0] == a && ([b] + t)[0] == b;
      assert ([a] + s)[1..] == s && ([b] + t)[1..] == t;
    }
  }

  lemma {:induction false} FieldsComeBack(fields: seq<Field>, parse: string -> Option<int>)
    ensures Fields(fields).Ok? ==>
      (FieldsFrom(Fields(fields).value, parse) == ExpandedFields(fields) <==> UntaggedFields(ExpandedFields(fields)))
    decreases fields, 0
  {
    if fields != [] && Fields(fields).Ok? {
      PropertyComesBack(fields[0].value, parse);
      FieldsComeBack(fields[1..], parse);
      var rest := Fields(fields[1..]).value;
      if Property(fields[0].value).value.Some? {
        var j, value := Property(fields[0].value).value.value, Expanded(fields[0].value).value;
        assert ([JField(fields[0].name, j)] + rest)[1..] == rest;
        assert ([Field(fields[0].name, value)] + ExpandedFields(fields[1..]))[1..] == ExpandedFields(fields[1..]);
        ConsEqual(Field(fields[0].name, FromPayload(j, parse)), FieldsFrom(rest, parse),
            Field(fields[0].name, value), ExpandedFields(fields[1..]));
      } else {
        assert [] + rest == rest && [] + ExpandedFields(fields[1..]) == ExpandedFields(fields[1..]);
      }
    }
  }

  /**
   * Storing and reading an event gives it back with every `toJSON` called, dates included, exactly when no object in it
   * has the shape of a tagged date. Both the delivery after the commit and the retries hand over what is read.
   */
  lemma {:induction false} StoringComesBack(event: seq<Field>, parse: string -> Option<int>)
    ensures ToPayload(event).Ok? ==>
      (FromPayload(ToPayload(event).value, parse) == Object(ExpandedFields(event)) <==>
       Untagged(Object(ExpandedFields(event))))
  {
    PlainlyComesBack(Object(event), parse);
  }

  // ---- Storing again what was read ----

  /** Every tagged date holds the ISO form of an instant. */
  predicate Canonical(j: Json) {
    match j
    case JList(items) => CanonicalItems(items)
    case JObject(fields) =>
      && (|fields| == 1 && fields[0].name == DATE_TAG && fields[0].value.JString? ==> fields[0].value.text.Instant?)
      && CanonicalFields(fields)
    case _ => true
  }

  predicate CanonicalItems(items: seq<Json>) { items == [] || (Canonical(items[0]) && CanonicalItems(items[1..])) }

  predicate CanonicalFields(fields: seq<JField>) {
    fields == [] || (Canonical(fields[0].value) && CanonicalFields(fields[1..]))
  }

  lemma {:induction false} StoresAgain(j: Json, parse: string -> Option<int>)
    ensures Property(FromPayload(j, parse)) == Ok(Some(j)) <==> Canonical(j)
  {
    match j
    case JList(items) => ItemsStoreAgain(items, parse);
    case JObject(fields) =>
      FieldsStoreAgain(fields, parse);
      var values := FieldsFrom(fields, parse);
      if IsTaggedDate(values) {
        assert fields[1..] == [];
        assert fields == [JField(DATE_TAG, JString(values[0].value.text))];
      }
    case _ =>
  }

  lemma {:induction false} ItemsStoreAgain(items: seq<Json>, parse: string -> Option<int>)
    ensures Items(ItemsFrom(items, parse)) == Ok(items) <==> CanonicalItems(items)
  {
    if items == [] {
    } else {
      var values := ItemsFrom(items, parse);
      StoresAgain(items[0], parse);
      ItemsStoreAgain(items[1..], parse);
      assert values[1..] == ItemsFrom(items[1..], parse);
      assert items == [items[0]] + items[1..];
      if Property(values[0]).Ok? && Items(values[1..]).Ok? {
        var first := Property(values[0]).value;
        NeverLeftOut(items[0], parse);
        ConsEqual(first.value, Items(values[1..]).value, items[0], items[1..]);
      }
    }
  }

  /** What is read is never something JSON leaves out. */
  lemma {:induction false} NeverLeftOut(j: Json, parse: string -> Option<int>)
    ensures Property(FromPayload(j, parse)) != Ok(None)
  {
  }

  lemma {:induction false} FieldsStoreAgain(fields: seq<JField>, parse: string -> Option<int>)
    ensures Fields(FieldsFrom(fields, parse)) == Ok(fields) <==> CanonicalFields(fields)
  {
    if fields == [] {
    } else {
      var values := FieldsFrom(fields, parse);
      StoresAgain(fields[0].value, parse);
      FieldsStoreAgain(fields[1..], parse);
      assert values[1..] == FieldsFrom(fields[1..], parse);
      assert fields == [fields[0]] + fields[1..];
      if Property(values[0].value).Ok? && Fields(values[1..]).Ok? {
        NeverLeftOut(fields[0].value, parse);
        ConsEqual(JField(fields[0].name, Property(values[0].value).value.value), Fields(values[1..]).value,
            fields[0], fields[1..]);
      }
    }
  }
}
