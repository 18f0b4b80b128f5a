/**
  Exact pricing in decimal arithmetic of bounded precision.

  A context limits the number of digits and the range of exponents, and every operation rounds
  its exact result to the context. `Cost` reserves a digit count from the operands and is
  proved never to round, so its value is the exact rational price; it fails only by overflowing
  the exponent range of the ambient context.
*/
module Pricing {
  import opened Common

  datatype PricingError = NegativeTokens | Overflow

  /** A finite nonnegative decimal: coefficient * 10^exponent. */
  datatype Decimal = Decimal(coefficient: nat, exponent: int)

  /** `up` decides, for a truncated coefficient and a nonzero remainder, whether to round away from zero. */
  datatype Context = Context(precision: nat, minExponent: int, maxExponent: int, up: (nat, nat) -> bool)
  {
    ghost predicate Valid() {
      precision > 0 && minExponent <= 0 <= maxExponent
    }

    function Tiny(): int {
      minExponent - precision + 1
    }
  }

  // ---------- Powers of ten and digit counts ----------

  function Pow10(n: nat): (p: nat)
    ensures p > 0
  {
    if n == 0 then 1 else 10 * Pow10(n - 1)
  }

  /** The length of the decimal text of n; zero has one digit. */
  function Digits(n: nat): (d: nat)
    ensures d > 0
  {
    if n < 10 then 1 else 1 + Digits(n / 10)
  }

  /** 10^e for any integer e. */
  ghost function Scale(e: int): (r: real)
    ensures r > 0.0
    decreases Abs(e)
  {
    if e == 0 then 1.0 else if e > 0 then 10.0 * Scale(e - 1) else Scale(e + 1) / 10.0
  }

  ghost function Value(d: Decimal): real {
    d.coefficient as real * Scale(d.exponent)
  }

  lemma {:induction false} Pow10Sum(a: nat, b: nat)
    ensures Pow10(a + b) == Pow10(a) * Pow10(b)
  {
    if a > 0 {
      Pow10Sum(a - 1, b);
      Tenfold(Pow10(a - 1), Pow10(b));
      assert Pow10(a + b) == 10 * Pow10(a - 1 + b);
    }
  }

  lemma Tenfold(x: nat, y: nat)
    ensures 10 * (x * y) == (10 * x) * y == x * (10 * y)
  {
  }

  lemma {:induction false} Pow10Monotone(a: nat, b: nat)
    requires a <= b
    ensures Pow10(a) <= Pow10(b)
    ensures a < b ==> 2 * Pow10(a) <= Pow10(b)
  {
    Pow10Sum(a, b - a);
    var rest := Pow10(b - a);
    assert a < b ==> rest == 10 * Pow10(b - a - 1) && rest >= 2;
    assert Pow10(a) * rest >= Pow10(a);
    assert a < b ==> Pow10(a) * rest >= Pow10(a) * 2;
  }

  lemma {:induction false} DigitsBracket(n: nat)
    ensures n < Pow10(Digits(n))
    ensures n > 0 ==> Pow10(Digits(n) - 1) <= n
  {
    if n >= 10 {
      DigitsBracket(n / 10);
    }
  }

  /** The digit count is the least power of ten above n. */
  lemma {:induction false} DigitsFit(n: nat, d: nat)
    requires d > 0
    ensures Digits(n) <= d <==> n < Pow10(d)
  {
    DigitsBracket(n);
    if Digits(n) <= d {
      Pow10Monotone(Digits(n), d);
    } else if n > 0 {
      Pow10Monotone(d, Digits(n) - 1);
    }
  }

  lemma Assoc(x: real, y: real, z: real)
    ensures (x * y) * z == x * (y * z) == (x * z) * y
  {
  }

  lemma RealProduct(a: nat, b: nat)
    ensures (a * b) as real == a as real * b as real
  {
  }

  lemma MulLe(s: real, x: real, y: real)
    requires s >= 0.0 && x <= y
    ensures s * x == x * s <= y * s == s * y
  {
  }

  lemma MulLt(s: real, x: real, y: real)
    requires s > 0.0 && x < y
    ensures s * x == x * s < y * s == s * y
  {
  }

  lemma {:induction false} ScaleSum(e: int, n: nat)
    ensures Scale(e + n) == Scale(e) * Pow10(n) as real
  {
    if n > 0 {
      ScaleSum(e, n - 1);
      NextScale(e + n - 1);
      RealTenfold(Scale(e), Pow10(n - 1));
    }
  }

  lemma NextScale(e: int)
    ensures Scale(e + 1) == 10.0 * Scale(e)
  {
  }

  lemma RealTenfold(s: real, p: nat)
    ensures 10.0 * (s * p as real) == s * (10 * p) as real
  {
    assert (10 * p) as real == 10.0 * p as real;
  }

  lemma {:induction false} ScaleMonotone(a: int, b: int)
    requires a <= b
    ensures Scale(a) <= Scale(b)
    decreases b - a
  {
    if a < b {
      ScaleMonotone(a, b - 1);
      assert Scale(b) == 10.0 * Scale(b - 1);
    }
  }

  /** Writing a decimal with a smaller exponent leaves its value alone. */
  lemma {:induction false} Rescaled(c: nat, e: int, n: nat)
    ensures Value(Decimal(c * Pow10(n), e - n)) == Value(Decimal(c, e))
  {
    ScaleSum(e - n, n);
    RescaledCoefficient(c, Pow10(n), Scale(e - n));
  }

  lemma RescaledCoefficient(c: nat, power: nat, s: real)
    ensures (c * power) as real * s == c as real * (s * power as real)
  {
    RealProduct(c, power);
    Swap(c as real, power as real, s);
  }

  lemma Swap(x: real, y: real, z: real)
    ensures (x * y) * z == x * (z * y)
  {
  }

  lemma ValueMonotone(a: nat, b: nat, e: int)
    ensures a <= b ==> Value(Decimal(a, e)) <= Value(Decimal(b, e))
    ensures a < b ==> Value(Decimal(a, e)) < Value(Decimal(b, e))
  {
    if a < b {
      MulLt(Scale(e), a as real, b as real);
    }
  }

  lemma {:induction false} PowerValue(e: int, n: nat)
    ensures Value(Decimal(Pow10(n), e)) == Scale(e + n)
  {
    Rescaled(1, e + n, n);
  }

  /** The adjusted exponent exceeds `limit` exactly when the value reaches 10^(limit + 1). */
  lemma AdjustedExponent(d: Decimal, limit: int)
    requires d.coefficient > 0
    ensures d.exponent + Digits(d.coefficient) - 1 > limit <==> Value(d) >= Scale(limit + 1)
  {
    var top := d.exponent + Digits(d.coefficient);
    DigitsBracket(d.coefficient);
    PowerValue(d.exponent, Digits(d.coefficient) - 1);
    PowerValue(d.exponent, Digits(d.coefficient));
    ValueMonotone(Pow10(Digits(d.coefficient) - 1), d.coefficient, d.exponent);
    ValueMonotone(d.coefficient, Pow10(Digits(d.coefficient)), d.exponent);
    if top - 1 > limit {
      ScaleMonotone(limit + 1, top - 1);
    } else {
      ScaleMonotone(top, limit + 1);
    }
  }

  // ---------- Context arithmetic ----------

  function Quotient(a: nat, b: nat): nat
    requires b > 0
  {
    a / b
  }

  function Remainder(a: nat, b: nat): nat
    requires b > 0
  {
    a % b
  }

  /** Drops `n` digits, rounding as the context says. */
  function RoundOff(ctx: Context, d: Decimal, n: nat): Decimal {
    var quotient, remainder := Quotient(d.coefficient, Pow10(n)), Remainder(d.coefficient, Pow10(n));
    Decimal(if remainder > 0 && ctx.up(quotient, remainder) then quotient + 1 else quotient, d.exponent + n)
  }

  /** Fits an exact result into the context. */
  function Finalize(ctx: Context, d: Decimal): Result<Decimal, PricingError> {
    var digits := Digits(d.coefficient);
    if d.coefficient == 0 then Ok(d)
    else if d.exponent + digits - 1 > ctx.maxExponent then Err(Overflow)
    else
      var lowest := if d.exponent + digits - ctx.precision < ctx.Tiny() then ctx.Tiny()
                    else d.exponent + digits - ctx.precision;
      if d.exponent >= lowest then Ok(d)
      else
        var rounded := RoundOff(ctx, d, lowest - d.exponent);
        if rounded.coefficient > 0 && rounded.exponent + Digits(rounded.coefficient) - 1 > ctx.maxExponent
        then Err(Overflow) else Ok(rounded)
  }

  /** The exact product. */
  function Product(rate: Decimal, tokens: nat): Decimal {
    Decimal(rate.coefficient * tokens, rate.exponent)
  }

  function Multiply(ctx: Context, a: Decimal, n: nat): Result<Decimal, PricingError> {
    Finalize(ctx, Product(a, n))
  }

  function Min(a: int, b: int): int {
    if a <= b then a else b
  }

  function Max(a: int, b: int): int {
    if a <= b then b else a
  }

  function Abs(a: int): nat {
    if a < 0 then -a else a
  }

  /** The exact sum at the smaller exponent. */
  function Aligned(a: Decimal, b: Decimal): Decimal {
    var e := Min(a.exponent, b.exponent);
    Decimal(a.coefficient * Pow10(a.exponent - e) + b.coefficient * Pow10(b.exponent - e), e)
  }

  function Add(ctx: Context, a: Decimal, b: Decimal): Result<Decimal, PricingError> {
    Finalize(ctx, Aligned(a, b))
  }

  /** Removes trailing zeros of a coefficient while the exponent is below `ideal`. */
  function Strip(d: Decimal, ideal: int): Decimal
    decreases Max(0, ideal - d.exponent)
  {
    if d.exponent < ideal && d.coefficient % 10 == 0
    then Strip(Decimal(d.coefficient / 10, d.exponent + 1), ideal)
    else d
  }

  const MILLION: nat := 1_000_000

  /** Long division by one million: shift, divide, keep a sticky digit if inexact, else strip zeros. */
  function DivideByMillion(ctx: Context, a: Decimal): Result<Decimal, PricingError> {
    if a.coefficient == 0 then Finalize(ctx, a)
    else
      var shift := Digits(MILLION) - Digits(a.coefficient) + ctx.precision + 1;
      var dividend := if shift >= 0 then a.coefficient * Pow10(shift) else a.coefficient;
      var divisor := if shift >= 0 then MILLION else MILLION * Pow10(-shift);
      var quotient, remainder := Quotient(dividend, divisor), Remainder(dividend, divisor);
      if remainder != 0
      then Finalize(ctx, Decimal(if quotient % 5 == 0 then quotient + 1 else quotient, a.exponent - shift))
      else Finalize(ctx, Strip(Decimal(quotient, a.exponent - shift), a.exponent))
  }

  // ---------- The cost of one request ----------

  function RequiredDigits(inputTokens: nat, outputTokens: nat, inputRate: Decimal, outputRate: Decimal): nat {
    Digits(inputRate.coefficient) + Abs(inputRate.exponent)
    + Digits(outputRate.coefficient) + Abs(outputRate.exponent)
    + Max(Digits(inputTokens), Digits(outputTokens)) + 10
  }

  /** The cost in dollars of a request under `ambient`, whose precision is replaced by the reserved one. */
  function Cost(ambient: Context, inputTokens: int, outputTokens: int, inputRate: Decimal, outputRate: Decimal)
    : Result<Decimal, PricingError>
  {
    if inputTokens < 0 || outputTokens < 0 then Err(NegativeTokens)
    else
      var ctx := ambient.(precision := Max(28, RequiredDigits(inputTokens, outputTokens, inputRate, outputRate)));
      match Multiply(ctx, inputRate, inputTokens)
      case Err(e) => Err(e)
      case Ok(input) =>
        match Multiply(ctx, outputRate, outputTokens)
        case Err(e) => Err(e)
        case Ok(output) =>
          match Add(ctx, input, output)
          case Err(e) => Err(e)
          case Ok(total) => DivideByMillion(ctx, total)
  }

  /** A result whose digits and exponent are within the context is not rounded. */
  lemma FitsExactly(ctx: Context, d: Decimal)
    requires ctx.Valid() && Digits(d.coefficient) <= ctx.precision && d.exponent >= ctx.Tiny()
    ensures Finalize(ctx, d) ==
            if d.coefficient > 0 && Value(d) >= Scale(ctx.maxExponent + 1) then Err(Overflow) else Ok(d)
  {
    if d.coefficient > 0 {
      AdjustedExponent(d, ctx.maxExponent);
    }
  }

  lemma StrictProduct(a: nat, b: nat, x: nat, y: nat)
    requires a < x && b < y
    ensures a * b < x * y
  {
    assert a * b <= a * y;
    assert a * y < x * y;
  }

  lemma {:induction false} ProductDigits(a: nat, b: nat)
    ensures Digits(a * b) <= Digits(a) + Digits(b)
  {
    DigitsBracket(a);
    DigitsBracket(b);
    Pow10Sum(Digits(a), Digits(b));
    StrictProduct(a, b, Pow10(Digits(a)), Pow10(Digits(b)));
    DigitsFit(a * b, Digits(a) + Digits(b));
  }

  lemma {:induction false} PaddedDigits(c: nat, n: nat)
    ensures Digits(c * Pow10(n)) <= Digits(c) + n
  {
    DigitsBracket(c);
    Pow10Sum(Digits(c), n);
    ScaledLess(c, Pow10(Digits(c)), Pow10(n));
    DigitsFit(c * Pow10(n), Digits(c) + n);
  }

  lemma ScaledLess(a: nat, x: nat, y: nat)
    requires a < x && 0 < y
    ensures a * y < x * y
  {
  }

  lemma SumDigits(a: nat, b: nat, d: nat)
    requires Digits(a) <= d && Digits(b) <= d
    ensures Digits(a + b) <= d + 1
  {
    DigitsFit(a, d);
    DigitsFit(b, d);
    Pow10Monotone(d, d + 1);
    DigitsFit(a + b, d + 1);
  }

  lemma ProductValue(rate: Decimal, tokens: nat)
    ensures Value(Product(rate, tokens)) == Value(rate) * tokens as real
  {
    RealProduct(rate.coefficient, tokens);
    Assoc(rate.coefficient as real, tokens as real, Scale(rate.exponent));
  }

  lemma ValueNonNegative(d: Decimal)
    ensures Value(d) >= 0.0
    ensures d.coefficient == 0 ==> Value(d) == 0.0
  {
    MulLe(Scale(d.exponent), 0.0, d.coefficient as real);
  }

  lemma {:induction false} MultiplyExact(ctx: Context, rate: Decimal, tokens: nat)
    requires ctx.Valid()
    requires Digits(rate.coefficient) + Digits(tokens) <= ctx.precision && rate.exponent >= ctx.Tiny()
    ensures var product := Product(rate, tokens);
            && Digits(product.coefficient) <= Digits(rate.coefficient) + Digits(tokens)
            && Multiply(ctx, rate, tokens) ==
               if Value(product) >= Scale(ctx.maxExponent + 1) then Err(Overflow) else Ok(product)
  {
    ProductDigits(rate.coefficient, tokens);
    ValueNonNegative(Product(rate, tokens));
    FitsExactly(ctx, Product(rate, tokens));
  }

  lemma Distribute(x: real, y: real, s: real)
    ensures (x + y) * s == x * s + y * s
  {
  }

  lemma SumValue(a: nat, b: nat, e: int)
    ensures Value(Decimal(a + b, e)) == Value(Decimal(a, e)) + Value(Decimal(b, e))
  {
    Distribute(a as real, b as real, Scale(e));
  }

  lemma AlignedValue(a: Decimal, b: Decimal)
    ensures Value(Aligned(a, b)) == Value(a) + Value(b)
  {
    var e := Min(a.exponent, b.exponent);
    Rescaled(a.coefficient, a.exponent, a.exponent - e);
    Rescaled(b.coefficient, b.exponent, b.exponent - e);
    SumValue(a.coefficient * Pow10(a.exponent - e), b.coefficient * Pow10(b.exponent - e), e);
  }

  lemma AlignedDigits(a: Decimal, b: Decimal, d: nat)
    requires Digits(a.coefficient) <= d && Digits(b.coefficient) <= d
    ensures Digits(Aligned(a, b).coefficient) <= d + Abs(a.exponent) + Abs(b.exponent) + 1
  {
    var e := Min(a.exponent, b.exponent);
    PaddedDigits(a.coefficient, a.exponent - e);
    PaddedDigits(b.coefficient, b.exponent - e);
    SumDigits(a.coefficient * Pow10(a.exponent - e), b.coefficient * Pow10(b.exponent - e),
              d + Abs(a.exponent) + Abs(b.exponent));
  }

  /** Stripping keeps the value, adds no digits and never lowers the exponent. */
  lemma {:induction false} StripExact(d: Decimal, ideal: int)
    ensures Value(Strip(d, ideal)) == Value(d)
    ensures Digits(Strip(d, ideal).coefficient) <= Digits(d.coefficient)
    ensures Strip(d, ideal).exponent >= d.exponent
    ensures d.coefficient > 0 ==> Strip(d, ideal).coefficient > 0
    decreases Max(0, ideal - d.exponent)
  {
    if d.exponent < ideal && d.coefficient % 10 == 0 {
      var shorter := Decimal(d.coefficient / 10, d.exponent + 1);
      StripExact(shorter, ideal);
      assert Pow10(1) == 10 * Pow10(0);
      Rescaled(shorter.coefficient, shorter.exponent, 1);
    }
  }

  /** A coefficient padded with n zeros loses at least those zeros, unless the ideal exponent comes first. */
  lemma {:induction false} StripPadding(c: nat, e: int, n: nat, ideal: int)
    requires e + n <= ideal
    ensures Strip(Decimal(c * Pow10(n), e), ideal) == Strip(Decimal(c, e + n), ideal)
    decreases n
  {
    if n > 0 {
      Tenfold(c, Pow10(n - 1));
      StripZero(c * Pow10(n - 1), e, ideal);
      StripPadding(c, e + 1, n - 1, ideal);
    }
  }

  lemma {:induction false} StripZero(rest: nat, e: int, ideal: int)
    requires e < ideal
    ensures Strip(Decimal(10 * rest, e), ideal) == Strip(Decimal(rest, e + 1), ideal)
  {
    assert 10 * rest % 10 == 0 && 10 * rest / 10 == rest;
  }

  lemma DivideExact(ctx: Context, total: Decimal)
    requires ctx.Valid() && total.coefficient > 0
    requires Digits(total.coefficient) <= ctx.precision && total.exponent - 6 >= ctx.Tiny()
    requires Value(total) < Scale(ctx.maxExponent + 1)
    ensures DivideByMillion(ctx, total) == Ok(Strip(Decimal(total.coefficient, total.exponent - 6), total.exponent))
    ensures Value(DivideByMillion(ctx, total).value) * 1_000_000.0 == Value(total)
  {
    var c, e := total.coefficient, total.exponent;
    assert Digits(MILLION) == 7 by {
      assert Digits(10) == 2 && Digits(1000) == 4;
    }
    var shift := 7 - Digits(c) + ctx.precision + 1;
    var padding := shift - 6;
    assert Pow10(6) == MILLION by {
      assert Pow10(2) == 100 && Pow10(4) == 10_000;
    }
    Pow10Sum(padding, 6);
    var quotient := c * Pow10(padding);
    assert c * Pow10(shift) == quotient * MILLION by {
      assert c * (Pow10(padding) * MILLION) == (c * Pow10(padding)) * MILLION;
    }
    assert (quotient * MILLION) / MILLION == quotient && (quotient * MILLION) % MILLION == 0;
    StripPadding(c, e - shift, padding, e);
    var exact := Decimal(c, e - 6);
    StripExact(exact, e);
    Rescaled(c, e, 6);
    MillionfoldValue(c, e);
    ScaleSum(e - 6, 6);
    FitsExactly(ctx, Strip(exact, e));
  }

  lemma MillionfoldValue(c: nat, e: int)
    ensures Value(Decimal(c, e - 6)) * 1_000_000.0 == Value(Decimal(c, e))
    ensures c > 0 ==> Value(Decimal(c, e - 6)) <= Value(Decimal(c, e))
  {
    assert Pow10(6) == MILLION by {
      assert Pow10(2) == 100 && Pow10(4) == 10_000;
    }
    ScaleSum(e - 6, 6);
    Millionfold(c as real, Scale(e - 6), Scale(e));
  }

  lemma Millionfold(x: real, s: real, t: real)
    requires x >= 0.0 && s > 0.0 && t == s * 1_000_000.0
    ensures (x * s) * 1_000_000.0 == x * t
    ensures x * s <= x * t
  {
    Assoc(x, s, 1_000_000.0);
    MulLe(x, s, t);
  }

  /** The addition and the division, for products that were not rounded. */
  lemma AddThenDivide(ctx: Context, input: Decimal, output: Decimal, longest: nat)
    requires ctx.Valid() && Digits(input.coefficient) <= longest && Digits(output.coefficient) <= longest
    requires longest + Abs(input.exponent) + Abs(output.exponent) + 10 <= ctx.precision
    ensures var total := Aligned(input, output);
            if Value(input) + Value(output) >= Scale(ctx.maxExponent + 1) then Add(ctx, input, output) == Err(Overflow)
            else
              && Add(ctx, input, output) == Ok(total)
              && DivideByMillion(ctx, total).Ok?
              && Value(DivideByMillion(ctx, total).value) * 1_000_000.0 == Value(input) + Value(output)
  {
    var total := Aligned(input, output);
    AlignedDigits(input, output, longest);
    AlignedValue(input, output);
    ValueNonNegative(total);
    FitsExactly(ctx, total);
    if Value(total) < Scale(ctx.maxExponent + 1) && total.coefficient > 0 {
      DivideExact(ctx, total);
    }
  }

  /**
    For all rates and all token counts the cost is the exact rational price. It fails only on
    negative counts, or when a million times the price leaves the exponent range.
  */
  lemma CostIsExact(ambient: Context, inputTokens: int, outputTokens: int, inputRate: Decimal, outputRate: Decimal)
    requires ambient.Valid()
    ensures var cost := Cost(ambient, inputTokens, outputTokens, inputRate, outputRate);
            var millionfold := Value(inputRate) * inputTokens as real + Value(outputRate) * outputTokens as real;
            && (cost == Err(NegativeTokens) <==> inputTokens < 0 || outputTokens < 0)
            && (cost == Err(Overflow) <==>
                  inputTokens >= 0 && outputTokens >= 0 && millionfold >= Scale(ambient.maxExponent + 1))
            && (cost.Ok? ==> Value(cost.value) * 1_000_000.0 == millionfold)
  {
    if inputTokens >= 0 && outputTokens >= 0 {
      var ctx := ambient.(precision := Max(28, RequiredDigits(inputTokens, outputTokens, inputRate, outputRate)));
      MultiplyExact(ctx, inputRate, inputTokens);
      MultiplyExact(ctx, outputRate, outputTokens);
      var input, output := Product(inputRate, inputTokens), Product(outputRate, outputTokens);
      ProductValue(inputRate, inputTokens);
      ProductValue(outputRate, outputTokens);
      ValueNonNegative(input);
      ValueNonNegative(output);
      AddThenDivide(ctx, input, output,
                    Max(Digits(inputRate.coefficient), Digits(outputRate.coefficient))
                    + Max(Digits(inputTokens), Digits(outputTokens)));
    }
  }

  /** The reservation is generous: no intermediate result needs its last ten digits. */
  lemma ReserveUnused(inputTokens: nat, outputTokens: nat, inputRate: Decimal, outputRate: Decimal)
    ensures var input, output := Product(inputRate, inputTokens), Product(outputRate, outputTokens);
            var limit := RequiredDigits(inputTokens, outputTokens, inputRate, outputRate) - 10;
            && Digits(input.coefficient) <= limit && Digits(output.coefficient) <= limit
            && Digits(Aligned(input, output).coefficient) <= limit
  {
    ProductDigits(inputRate.coefficient, inputTokens);
    ProductDigits(outputRate.coefficient, outputTokens);
    AlignedDigits(Product(inputRate, inputTokens), Product(outputRate, outputTokens),
                  Max(Digits(inputRate.coefficient), Digits(outputRate.coefficient))
                  + Max(Digits(inputTokens), Digits(outputTokens)));
  }
}
