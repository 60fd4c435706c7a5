/** Amounts of money in cents, and the tax an amount contains. */
module Money {
  import opened Wrappers

  const MAX_MONEY_AMOUNT: int := 2147483647
  const MAX_TAX_RATE_BASIS_POINTS: int := 10000

  datatype Error = InvalidValue

  /** An amount that a money column can hold, in the one currency there is. */
  type Amount = n: int | 0 <= n <= MAX_MONEY_AMOUNT witness 0

  function Of(amount: int): Result<Amount, Error> {
    if 0 <= amount <= MAX_MONEY_AMOUNT then Ok(amount) else Err(InvalidValue)
  }

  function Add(a: Amount, b: Amount): Result<Amount, Error> { Of(a + b) }

  function Subtract(a: Amount, b: Amount): Result<Amount, Error> { Of(a - b) }

  /** The total of a line. */
  function Multiply(unit: Amount, quantity: int): Result<Amount, Error> {
    if quantity < 0 then Err(InvalidValue) else Of(unit * quantity)
  }

  /** A unit amount added so many times to nothing. */
  function AddedUp(unit: Amount, times: nat): Result<Amount, Error> {
    if times == 0 then Ok(0)
    else
      match AddedUp(unit, times - 1)
      case Ok(sum) => Add(sum, unit)
      case Err(error) => Err(error)
  }

  /** The total of a line is what adding its units one by one gives, and fails when that does. */
  lemma {:induction false} MultiplyAddsUp(unit: Amount, times: nat)
    ensures Multiply(unit, times) == AddedUp(unit, times)
  {
    if times == 0 {
      assert unit * times == 0;
    } else {
      MultiplyAddsUp(unit, times - 1);
      assert unit * times == unit * (times - 1) + unit;
    }
  }

  /** Adding and subtracting undo each other, when they answer at all. */
  lemma {:induction false} SubtractUndoesAdd(a: Amount, b: Amount)
    ensures Add(a, b).Ok? ==> Subtract(Add(a, b).value, b) == Ok(a)
    ensures Add(a, b).Ok? <==> a + b <= 2147483647
    ensures Subtract(a, b).Ok? <==> b <= a
    ensures Subtract(a, b).Ok? ==> Add(Subtract(a, b).value, b) == Ok(a)
  {
  }

  predicate RateFits(rate: int) { 0 <= rate <= MAX_TAX_RATE_BASIS_POINTS }

  function Denominator(rate: int): int { MAX_TAX_RATE_BASIS_POINTS + rate }

  /** `amount × rate / (10000 + rate)` by whole division, with the remainder rounded to the nearest, halves up. */
  function Rounded(amount: int, rate: int): int
    requires 0 <= amount && RateFits(rate)
  {
    var quotient, remainder := amount * rate / Denominator(rate), amount * rate % Denominator(rate);
    if 2 * remainder >= Denominator(rate) then quotient + 1 else quotient
  }

  /** The nearest cent to the exact tax, ties up: no more than half a cent over it, and less than half a cent under. */
  predicate IsNearest(tax: int, amount: int, rate: int) {
    var exact2 := 2 * (amount * rate);
    exact2 - Denominator(rate) < 2 * (tax * Denominator(rate)) <= exact2 + Denominator(rate)
  }

  lemma {:induction false} RoundedIsNearest(amount: int, rate: int)
    requires 0 <= amount && RateFits(rate)
    ensures IsNearest(Rounded(amount, rate), amount, rate)
  {
    var d, n := Denominator(rate), amount * rate;
    assert n == n / d * d + n % d;
    assert (n / d + 1) * d == n / d * d + d;
  }

  /** No other cent is. */
  lemma {:induction false} NearestIsOne(a: int, b: int, amount: int, rate: int)
    requires RateFits(rate) && IsNearest(a, amount, rate) && IsNearest(b, amount, rate)
    ensures a == b
  {
    if a < b {
      Scaled(a + 1, b, Denominator(rate));
    } else if b < a {
      Scaled(b + 1, a, Denominator(rate));
    }
  }

  lemma {:induction false} Scaled(a: int, b: int, factor: int)
    requires a <= b && factor >= 0
    ensures a * factor <= b * factor
  {
  }

  /** The tax of an amount of which the rate is part: it never exceeds the amount, so it is an amount. */
  function ContainedTax(amount: Amount, rate: int): (r: Result<Amount, Error>)
    ensures RateFits(rate) ==> r.Ok? && r.value <= amount && IsNearest(r.value, amount, rate)
    ensures !RateFits(rate) ==> r == Err(InvalidValue)
    ensures r.Ok? <==> 0 <= rate <= 10000
    ensures r.Ok? ==>
      var exact2 := 2 * (amount * rate);
      exact2 - (10000 + rate) < 2 * (r.value * (10000 + rate)) <= exact2 + (10000 + rate)
  {
    if !RateFits(rate) then Err(InvalidValue)
    else
      RoundedIsNearest(amount, rate);
      TaxAtMostAmount(Rounded(amount, rate), amount, rate);
      Ok(Rounded(amount, rate))
  }

  /** Nearest cents are in the order of what they are nearest to. */
  lemma {:induction false} InOrder(x: int, y: int, d: int, a2: int, b2: int)
    requires d > 0 && a2 <= b2
    requires 2 * (x * d) <= a2 + d && b2 - d < 2 * (y * d)
    ensures x <= y
  {
    assert (y + 1) * d == y * d + d;
    if y < x {
      Scaled(y + 1, x, d);
    }
  }

  lemma {:induction false} TaxAtMostAmount(tax: int, amount: int, rate: int)
    requires RateFits(rate) && 0 <= amount && IsNearest(tax, amount, rate)
    ensures 0 <= tax <= amount
  {
    var d := Denominator(rate);
    assert 0 <= amount * rate && 0 * d == 0;
    InOrder(0, tax, d, 0, 2 * (amount * rate));
    assert amount * d == amount * rate + amount * MAX_TAX_RATE_BASIS_POINTS;
    InOrder(tax, amount, d, 2 * (amount * rate), 2 * (amount * d));
  }

  /** A larger amount never contains less tax. */
  lemma {:induction false} GrowsWithAmount(a: Amount, b: Amount, rate: int)
    requires RateFits(rate) && a <= b
    ensures ContainedTax(a, rate).value <= ContainedTax(b, rate).value
  {
    Scaled(a, b, rate);
    InOrder(ContainedTax(a, rate).value, ContainedTax(b, rate).value, Denominator(rate), 2 * (a * rate),
        2 * (b * rate));
  }

  /** A higher rate never takes less of an amount. */
  lemma {:induction false} GrowsWithRate(amount: Amount, low: int, high: int)
    requires RateFits(low) && RateFits(high) && low <= high
    ensures ContainedTax(amount, low).value <= ContainedTax(amount, high).value
  {
    var x, y, d := ContainedTax(amount, low).value, ContainedTax(amount, high).value, Denominator(low);
    NotPastHalf(amount, low, high, y);
    InOrder(x, y, d, 2 * (amount * low), 2 * (amount * low));
  }

  lemma {:induction false} Distribute(factor: int, a: int, b: int)
    ensures factor * (a + b) == factor * a + factor * b
  {
  }

  /** What a higher rate takes up to half a cent, a lower one does too. */
  lemma {:induction false} NotPastHalf(amount: int, low: int, high: int, y: int)
    requires 0 <= amount && 0 <= low <= high && 0 <= y
    requires 2 * (amount * high) - Denominator(high) < 2 * (y * Denominator(high))
    ensures 2 * (amount * low) - Denominator(low) < 2 * (y * Denominator(low))
  {
    if amount <= y {
      AtMostWhole(amount, low, y);
    } else {
      MoreThanWhole(amount, low, high - low, y);
    }
  }

  lemma {:induction false} AtMostWhole(amount: int, low: int, y: int)
    requires 0 <= amount <= y && 0 <= low
    ensures 2 * (amount * low) - Denominator(low) < 2 * (y * Denominator(low))
  {
    Scaled(amount, y, low);
    Distribute(y, MAX_TAX_RATE_BASIS_POINTS, low);
  }

  lemma {:induction false} MoreThanWhole(amount: int, low: int, extra: int, y: int)
    requires 0 <= y < amount && 0 <= low && 0 <= extra
    requires 2 * (amount * (low + extra)) - Denominator(low + extra) < 2 * (y * Denominator(low + extra))
    ensures 2 * (amount * low) - Denominator(low) < 2 * (y * Denominator(low))
  {
    Scaled(y + 1, amount, extra);
    Distribute(extra, y, 1);
    Distribute(amount, low, extra);
    Distribute(y, Denominator(low), extra);
  }

  // ---- Tax by line ----

  function Total(amounts: seq<Amount>): int {
    if amounts == [] then 0 else Total(amounts[..|amounts| - 1]) + amounts[|amounts| - 1]
  }

  function TotalTax(amounts: seq<Amount>, rate: int): int
    requires RateFits(rate)
  {
    if amounts == [] then 0
    else TotalTax(amounts[..|amounts| - 1], rate) + ContainedTax(amounts[|amounts| - 1], rate).value
  }

  /** One more line adds at most half a cent of difference. */
  lemma {:induction false} OneMoreLine(total: int, totalTax: int, lines: int, amount: int, tax: int, rate: int)
    requires RateFits(rate) && IsNearest(tax, amount, rate)
    requires var d := Denominator(rate);
             2 * (total * rate) - lines * d <= 2 * (totalTax * d) <= 2 * (total * rate) + lines * d
    ensures var d := Denominator(rate);
            2 * ((total + amount) * rate) - (lines + 1) * d <= 2 * ((totalTax + tax) * d)
              <= 2 * ((total + amount) * rate) + (lines + 1) * d
  {
    var d := Denominator(rate);
    assert (total + amount) * rate == total * rate + amount * rate;
    assert (totalTax + tax) * d == totalTax * d + tax * d;
    assert (lines + 1) * d == lines * d + d;
  }

  /** Rounded line by line, the tax of an order is within half a cent per line of the exact tax of its total. */
  lemma {:induction false} WithinHalfACentPerLine(amounts: seq<Amount>, rate: int)
    requires RateFits(rate)
    ensures var exact2, d := 2 * (Total(amounts) * rate), Denominator(rate);
            exact2 - |amounts| * d <= 2 * (TotalTax(amounts, rate) * d) <= exact2 + |amounts| * d
  {
    if amounts == [] {
      assert 0 * rate == 0 && 0 * Denominator(rate) == 0;
    } else {
      var before, last := amounts[..|amounts| - 1], amounts[|amounts| - 1];
      WithinHalfACentPerLine(before, rate);
      OneMoreLine(Total(before), TotalTax(before, rate), |before|, last, ContainedTax(last, rate).value, rate);
    }
  }

  /** The same in cents and fractions of a cent. */
  lemma {:induction false} WithinHalfACent(amounts: seq<Amount>, rate: int)
    requires RateFits(rate)
    ensures var exact := (Total(amounts) * rate) as real / Denominator(rate) as real;
            exact - |amounts| as real / 2.0 <= TotalTax(amounts, rate) as real <= exact + |amounts| as real / 2.0
  {
    WithinHalfACentPerLine(amounts, rate);
    InReals(Total(amounts) * rate, TotalTax(amounts, rate), |amounts|, Denominator(rate));
  }

  lemma {:induction false} InReals(n: int, tax: int, lines: int, d: int)
    requires d > 0 && 2 * n - lines * d <= 2 * (tax * d) <= 2 * n + lines * d
    ensures n as real / d as real - lines as real / 2.0 <= tax as real <= n as real / d as real + lines as real / 2.0
  {
    var r, exact, half := d as real, n as real / d as real, lines as real / 2.0;
    assert exact * r == n as real;
    CastsMultiply(tax, d);
    CastsMultiply(lines, d);
    assert half * r == (lines * d) as real / 2.0;
    DividedBy(exact - half, tax as real, r);
    DividedBy(tax as real, exact + half, r);
  }

  lemma {:induction false} CastsMultiply(a: int, b: int)
    ensures (a * b) as real == a as real * b as real
  {
  }

  lemma {:induction false} DividedBy(a: real, b: real, d: real)
    requires d > 0.0 && a * d <= b * d
    ensures a <= b
  {
  }
}
