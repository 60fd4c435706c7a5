/** The values of a variant: its SKU, its GTIN, its options, its weight and sizes. */
module Variants {
  import opened Wrappers

  const MAX_OPTIONS: nat := 3
  const MAX_OPTION_NAME_LENGTH: nat := 30
  const MAX_OPTION_VALUE_LENGTH: nat := 50
  const MAX_WEIGHT_GRAMS: int := 2147483647
  /** 999,999.9 centimeters. */
  const MAX_DIMENSION_TENTHS: int := 9999999

  /** Lowercase names that every object already has, so `name in valid` finds them in an empty one. */
  const INHERITED := {"constructor", "__proto__"}

  datatype ProductError =
    | InvalidValue
    | InvalidGtin
    | InvalidOptions
    | DuplicateValue(field: string)
    | FieldLocked(fields: seq<string>)
    | OptionNamesMismatch
    | InvalidStateTransition
    | NoActiveVariant
    | NotFound

  // ---- Text ----

  predicate Space(c: char) { c in {' ', '\t', '\n', '\r'} }

  function TrimStart(s: string): string { if s != "" && Space(s[0]) then TrimStart(s[1..]) else s }

  function TrimEnd(s: string): string { if s != "" && Space(s[|s| - 1]) then TrimEnd(s[..|s| - 1]) else s }

  function Trim(s: string): string { TrimEnd(TrimStart(s)) }

  /** Nothing to trim. */
  predicate Trimmed(s: string) { s == "" || (!Space(s[0]) && !Space(s[|s| - 1])) }

  lemma {:induction false} TrimEndKeepsStart(s: string)
    requires s == "" || !Space(s[0])
    ensures Trimmed(TrimEnd(s))
  {
    if s != "" && Space(s[|s| - 1]) {
      TrimEndKeepsStart(s[..|s| - 1]);
    }
  }

  lemma {:induction false} TrimStartStops(s: string)
    ensures TrimStart(s) == "" || !Space(TrimStart(s)[0])
  {
    if s != "" && Space(s[0]) {
      TrimStartStops(s[1..]);
    }
  }

  /** What is trimmed has nothing to trim, so trimming it again changes nothing. */
  lemma {:induction false} TrimsOnce(s: string)
    ensures Trimmed(Trim(s)) && Trim(Trim(s)) == Trim(s)
  {
    TrimStartStops(s);
    TrimEndKeepsStart(TrimStart(s));
  }

  /** Only spaces. */
  predicate Spaces(s: string) { forall i | 0 <= i < |s| :: Space(s[i]) }

  lemma {:induction false} TrimStartTakesSpaces(s: string)
    ensures |TrimStart(s)| <= |s|
    ensures var i := |s| - |TrimStart(s)|; TrimStart(s) == s[i..] && Spaces(s[..i])
  {
    if s != "" && Space(s[0]) {
      TrimStartTakesSpaces(s[1..]);
      var i := |s[1..]| - |TrimStart(s[1..])|;
      assert s[1..][i..] == s[i + 1..] && s[..i + 1] == [s[0]] + s[1..][..i];
    } else {
      assert s[0..] == s;
    }
  }

  lemma {:induction false} TrimEndTakesSpaces(s: string)
    ensures |TrimEnd(s)| <= |s| && TrimEnd(s) == s[..|TrimEnd(s)|] && Spaces(s[|TrimEnd(s)|..])
  {
    if s != "" && Space(s[|s| - 1]) {
      var front := s[..|s| - 1];
      TrimEndTakesSpaces(front);
      assert s[|TrimEnd(s)|..] == front[|TrimEnd(s)|..] + [s[|s| - 1]];
    } else {
      assert s[..|s|] == s && s[|s|..] == "";
    }
  }

  /** Trimming takes the spaces from both ends, and nothing else. */
  lemma {:induction false} TrimTakesSpaces(s: string) returns (before: string, after: string)
    ensures s == before + Trim(s) + after && Spaces(before) && Spaces(after) && Trimmed(Trim(s))
  {
    var rest := TrimStart(s);
    TrimsOnce(s);
    TrimStartTakesSpaces(s);
    TrimEndTakesSpaces(rest);
    before, after := s[..|s| - |rest|], rest[|Trim(s)|..];
    assert rest == Trim(s) + after && s == before + rest;
  }

  function LowerChar(c: char): char { if 'A' <= c <= 'Z' then (c as int + 32) as char else c }

  function UpperChar(c: char): char { if 'a' <= c <= 'z' then (c as int - 32) as char else c }

  function Lower(s: string): string { seq(|s|, i requires 0 <= i < |s| => LowerChar(s[i])) }

  function Upper(s: string): string { seq(|s|, i requires 0 <= i < |s| => UpperChar(s[i])) }

  /** Both cases of a letter are one in the other case, and nothing else changes. */
  lemma {:induction false} CasesAgree(s: string)
    ensures Lower(Upper(s)) == Lower(s) && Upper(Lower(s)) == Upper(s)
    ensures (forall i | 0 <= i < |s| :: !('A' <= s[i] <= 'Z')) ==> Lower(s) == s
    ensures (forall i | 0 <= i < |s| :: !('a' <= s[i] <= 'z')) ==> Upper(s) == s
    ensures forall i | 0 <= i < |s| :: !('A' <= Lower(s)[i] <= 'Z') && !('a' <= Upper(s)[i] <= 'z')
  {
  }

  predicate Digit(c: char) { '0' <= c <= '9' }

  predicate Digits(s: string) { forall i | 0 <= i < |s| :: Digit(s[i]) }

  // ---- SKU ----

  predicate SkuChar(c: char) { 'a' <= c <= 'z' || 'A' <= c <= 'Z' || Digit(c) || c in {'.', '_', '-'} }

  predicate SkuPattern(s: string) { 1 <= |s| <= 64 && forall i | 0 <= i < |s| :: SkuChar(s[i]) }

  // ---- GTIN ----

  predicate GtinPattern(s: string) { |s| in {8, 12, 13, 14} && Digits(s) }

  function DigitOf(c: char): int { c as int - '0' as int }

  /** The digits weighted 3 and 1 in turn, from the right. */
  function Weighted(digits: string, weight: int): int {
    if digits == "" then 0
    else DigitOf(digits[|digits| - 1]) * weight + Weighted(digits[..|digits| - 1], 4 - weight)
  }

  function CheckDigit(digits: string): int { (10 - Weighted(digits, 3) % 10) % 10 }

  predicate HasCheckDigit(gtin: string) {
    gtin != "" && CheckDigit(gtin[..|gtin| - 1]) == DigitOf(gtin[|gtin| - 1])
  }

  /** Each digit times its weight: 1 for the last one, 3 for the one before, and so on in turn. */
  function WeightedSum(gtin: string, from: nat): int
    requires from <= |gtin|
    decreases |gtin| - from
  {
    if from == |gtin| then 0
    else DigitOf(gtin[from]) * (if (|gtin| - from) % 2 == 1 then 1 else 3) + WeightedSum(gtin, from + 1)
  }

  lemma {:induction false} LastOfSum(digits: string, last: char, from: nat)
    requires from <= |digits|
    ensures WeightedSum(digits + [last], from) == Weighted(digits[from..], 3) + DigitOf(last)
    decreases |digits| - from
  {
    var gtin := digits + [last];
    if from == |digits| {
      assert digits[from..] == "";
      assert WeightedSum(gtin, |gtin|) == 0;
    } else {
      LastOfSum(digits, last, from + 1);
      var rest := digits[from..];
      assert rest[1..] == digits[from + 1..] && gtin[from] == rest[0];
      FirstOfWeighted(rest, 3);
    }
  }

  lemma {:induction false} FirstOfWeighted(digits: string, weight: int)
    requires digits != ""
    ensures Weighted(digits, weight) ==
              DigitOf(digits[0]) * (if |digits| % 2 == 1 then weight else 4 - weight) + Weighted(digits[1..], weight)
  {
    if |digits| == 1 {
      assert digits[..0] == "" && digits[1..] == "";
    } else {
      var front := digits[..|digits| - 1];
      FirstOfWeighted(front, 4 - weight);
      assert digits[1..][..|digits| - 2] == front[1..];
    }
  }

  /** A code has its check digit exactly when the weighted sum of all its digits is a multiple of ten. */
  lemma {:induction false} CheckDigitMakesTens(gtin: string)
    requires Digits(gtin) && gtin != ""
    ensures HasCheckDigit(gtin) <==> WeightedSum(gtin, 0) % 10 == 0
  {
    var front, last := gtin[..|gtin| - 1], gtin[|gtin| - 1];
    LastOfSum(front, last, 0);
    assert front + [last] == gtin && front[0..] == front;
    UpToTen(Weighted(front, 3), DigitOf(last));
  }

  lemma {:induction false} UpToTen(sum: int, digit: int)
    requires 0 <= digit <= 9
    ensures (10 - sum % 10) % 10 == digit <==> (sum + digit) % 10 == 0
  {
    var rest := sum % 10;
    assert (sum + digit) % 10 == (rest + digit) % 10;
  }

  /** A digit that moves by less than ten never moves the sum by tens, whether it counts once or three times. */
  lemma {:induction false} MovesTheSum(sum: int, moved: int, weight: int)
    requires sum % 10 == 0 && -9 <= moved <= 9 && moved != 0 && weight in {1, 3}
    ensures (sum + moved * weight) % 10 != 0
  {
    if weight == 1 {
      assert sum + moved * weight == sum + moved;
    } else {
      assert sum + moved * weight == sum + 3 * moved;
    }
  }

  lemma {:induction false} OneDigitMoves(gtin: string, i: nat, digit: char, from: nat)
    requires i < |gtin| && from <= |gtin|
    ensures WeightedSum(gtin[i := digit], from) == WeightedSum(gtin, from)
              + if from <= i then (DigitOf(digit) - DigitOf(gtin[i])) * (if (|gtin| - i) % 2 == 1 then 1 else 3) else 0
    decreases |gtin| - from
  {
    if from == |gtin| {
    } else {
      OneDigitMoves(gtin, i, digit, from + 1);
    }
  }

  /** No two codes that differ in one digit both have their check digit. */
  lemma {:induction false} OneWrongDigitIsFound(gtin: string, i: nat, digit: char)
    requires Digits(gtin) && i < |gtin| && Digit(digit) && digit != gtin[i]
    requires HasCheckDigit(gtin)
    ensures !HasCheckDigit(gtin[i := digit])
  {
    var wrong := gtin[i := digit];
    CheckDigitMakesTens(gtin);
    CheckDigitMakesTens(wrong);
    OneDigitMoves(gtin, i, digit, 0);
    var weight := if (|gtin| - i) % 2 == 1 then 1 else 3;
    MovesTheSum(WeightedSum(gtin, 0), DigitOf(digit) - DigitOf(gtin[i]), weight);
  }

  function ValidGtin(gtin: string): Result<string, ProductError> {
    if GtinPattern(gtin) && HasCheckDigit(gtin) then Ok(gtin) else Err(InvalidGtin)
  }

  function ValidOptionalGtin(gtin: Option<string>): Result<Option<string>, ProductError> {
    match gtin
    case None => Ok(None)
    case Some(g) => if ValidGtin(g).Ok? then Ok(Some(g)) else Err(InvalidGtin)
  }

  /** Codes are compared at the length of the longest kind, 14 digits, filled with zeros in front. */
  function GtinKey(gtin: string): string
    decreases 14 - |gtin|
  {
    if |gtin| >= 14 then gtin else GtinKey("0" + gtin)
  }

  function Zeros(n: nat): string { seq(n, _ => '0') }

  /** The key of a code is the code after as many zeros as make it 14 digits long. */
  lemma {:induction false} KeyIsPadded(gtin: string)
    ensures GtinKey(gtin) == Zeros(if |gtin| < 14 then 14 - |gtin| else 0) + gtin
    decreases 14 - |gtin|
  {
    if |gtin| >= 14 {
      assert Zeros(0) + gtin == gtin;
    } else {
      KeyIsPadded("0" + gtin);
      assert Zeros(13 - |gtin|) + ("0" + gtin) == Zeros(14 - |gtin|) + gtin;
    }
  }

  /** Zeros in front change neither the check digit nor the key: a UPC and its EAN-13 are one. */
  lemma {:induction false} ZeroInFront(gtin: string, weight: int)
    ensures Weighted("0" + gtin, weight) == Weighted(gtin, weight)
  {
    var longer := "0" + gtin;
    if gtin == "" {
      assert longer[..0] == "";
    } else {
      ZeroInFront(gtin[..|gtin| - 1], 4 - weight);
      assert longer[..|longer| - 1] == "0" + gtin[..|gtin| - 1];
    }
  }

  lemma {:induction false} ZeroKeepsCheckDigit(gtin: string)
    requires gtin != ""
    ensures HasCheckDigit("0" + gtin) <==> HasCheckDigit(gtin)
  {
    var longer, n := "0" + gtin, |gtin| - 1;
    ZeroInFront(gtin[..n], 3);
    assert longer[..n + 1] == "0" + gtin[..n] && longer[n + 1] == gtin[n];
  }

  lemma {:induction false} OneCode(upc: string)
    requires |upc| == 12 && GtinPattern(upc)
    ensures var ean := "0" + upc; (ValidGtin(ean).Ok? <==> ValidGtin(upc).Ok?) && GtinKey(ean) == GtinKey(upc)
  {
    ZeroKeepsCheckDigit(upc);
    assert GtinPattern("0" + upc);
  }

  // ---- Options ----

  type Options = map<string, string>

  /** An entry of the object received: its value may be no text. */
  datatype RawOption = RawOption(name: string, value: Option<string>)

  function NameOf(raw: RawOption): string { Lower(Trim(raw.name)) }

  function ValueOf(raw: RawOption): string { if raw.value.Some? then Trim(raw.value.value) else "" }

  predicate NameFits(name: string) { 1 <= |name| <= MAX_OPTION_NAME_LENGTH }

  predicate ValueFits(value: string) { 1 <= |value| <= MAX_OPTION_VALUE_LENGTH }

  /** Three options at most, with names and values that fit, no name twice and none that every object has. */
  predicate OptionsFit(raw: seq<RawOption>) {
    && |raw| <= MAX_OPTIONS
    && (forall i | 0 <= i < |raw| ::
          NameFits(NameOf(raw[i])) && ValueFits(ValueOf(raw[i])) && NameOf(raw[i]) !in INHERITED)
    && forall i, j | 0 <= i < j < |raw| :: NameOf(raw[i]) != NameOf(raw[j])
  }

  /** The values by name. */
  function OptionsIn(raw: seq<RawOption>): Options {
    if raw == [] then map[]
    else
      var last := raw[|raw| - 1];
      OptionsIn(raw[..|raw| - 1])[NameOf(last) := ValueOf(last)]
  }

  function Validated(raw: seq<RawOption>): Result<Options, ProductError> {
    if OptionsFit(raw) then Ok(OptionsIn(raw)) else Err(InvalidOptions)
  }

  lemma {:induction false} OptionNames(raw: seq<RawOption>, name: string)
    ensures name in OptionsIn(raw) <==> exists i :: 0 <= i < |raw| && NameOf(raw[i]) == name
  {
    if raw == [] {
    } else {
      var before := raw[..|raw| - 1];
      OptionNames(before, name);
      if name in OptionsIn(before) {
        var i :| 0 <= i < |before| && NameOf(before[i]) == name;
        assert NameOf(raw[i]) == name;
      }
      if i :| 0 <= i < |raw| && NameOf(raw[i]) == name {
        if i < |before| {
          assert before[i] == raw[i];
        }
      }
    }
  }

  /** What one more entry needs, after others that fit. */
  predicate EntryFits(valid: Options, raw: RawOption) {
    NameFits(NameOf(raw)) && NameOf(raw) !in INHERITED && NameOf(raw) !in valid && ValueFits(ValueOf(raw))
  }

  lemma {:induction false} OneMoreFits(raw: seq<RawOption>, i: nat)
    requires i < |raw| <= MAX_OPTIONS && OptionsFit(raw[..i])
    ensures OptionsFit(raw[..i + 1]) <==> EntryFits(OptionsIn(raw[..i]), raw[i])
    ensures OptionsIn(raw[..i + 1]) == OptionsIn(raw[..i])[NameOf(raw[i]) := ValueOf(raw[i])]
    ensures OptionsFit(raw) ==> OptionsFit(raw[..i + 1])
  {
    assert raw[..i + 1][..i] == raw[..i];
    OptionNames(raw[..i], NameOf(raw[i]));
  }

  /** The loop over the entries, which rejects the first that does not fit. */
  method ValidOptions(raw: seq<RawOption>) returns (r: Result<Options, ProductError>)
    ensures r == Validated(raw)
  {
    if |raw| > MAX_OPTIONS { return Err(InvalidOptions); }
    var valid: Options := map[];
    for i := 0 to |raw|
      invariant OptionsFit(raw[..i]) && valid == OptionsIn(raw[..i])
    {
      OneMoreFits(raw, i);
      var name, value := NameOf(raw[i]), ValueOf(raw[i]);
      if |name| == 0 || |name| > MAX_OPTION_NAME_LENGTH { return Err(InvalidOptions); }
      if name in INHERITED || name in valid { return Err(InvalidOptions); }
      if |value| == 0 || |value| > MAX_OPTION_VALUE_LENGTH { return Err(InvalidOptions); }
      valid := valid[name := value];
    }
    assert raw[..|raw|] == raw;
    r := Ok(valid);
  }

  // ---- Weight and sizes ----

  /** Whole grams, and sizes in tenths of a centimeter. */
  datatype Dimensions = Dimensions(weightGrams: Option<int>, length: Option<int>, width: Option<int>,
                                   height: Option<int>)

  predicate WeightFits(grams: Option<int>) { grams.Some? ==> 1 <= grams.value <= MAX_WEIGHT_GRAMS }

  predicate SizeFits(tenths: Option<int>) { tenths.Some? ==> 1 <= tenths.value <= MAX_DIMENSION_TENTHS }

  predicate DimensionsFit(d: Dimensions) {
    WeightFits(d.weightGrams) && SizeFits(d.length) && SizeFits(d.width) && SizeFits(d.height)
  }
}
