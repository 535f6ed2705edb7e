/** crates/risk-core/src/math.rs and error.rs: the two rounding primitives on 128-bit money. */
module MoneyMath {
  import opened Wrappers
  import opened Arithmetic
  import opened U256

  const BPS: int := 10_000
  const WAD: int := 1_000_000_000_000_000_000
  const USD: int := 1_000_000_000_000_000_000
  const SECONDS_PER_YEAR: int := 31_536_000

  datatype RiskError =
    | ZeroDenominator
    | Overflow
    | ExitCurveEmpty
    | AssetsNotOrdered(index: nat)
    | DecimalsTooLarge(decimals: nat)
    | BpsOutOfRange(value: nat)

  /** An unbounded amount admitted back into the 128-bit money domain, or refused. */
  function Narrow(v: nat): Result<u128, RiskError> {
    if v < TWO128 then Ok(v) else Err(Overflow)
  }

  function CheckedAdd(a: u128, b: u128): Result<u128, RiskError> {
    Narrow(a + b)
  }

  /** `a * b / d` rounded down. */
  function MulDiv(a: u128, b: u128, d: u128): (r: Result<u128, RiskError>)
    ensures r == if d == 0 then Err(ZeroDenominator) else Narrow(FloorDiv(a * b, d))
  {
    var product := MulU128(a, b);
    var qr := DivRem(product, d);
    if qr.None? then Err(ZeroDenominator)
    else
      QuotientIsFloor(product, d);
      NarrowingIsExact(qr.value.0);
      var narrowed := qr.value.0.TryIntoU128();
      if narrowed.None? then Err(Overflow) else Ok(narrowed.value)
  }

  /** `a * b / d` rounded up, as `(a * b - 1) / d + 1` on the 256-bit product. */
  function MulDivUp(a: u128, b: u128, d: u128): (r: Result<u128, RiskError>)
    ensures r == if d == 0 then Err(ZeroDenominator) else Narrow(CeilDiv(a * b, d))
  {
    if d == 0 then Err(ZeroDenominator)
    else
      var product := MulU128(a, b);
      if product.IsZero() then Ok(0)
      else
        CheckedSubIsExact(product, ONE);
        var less := product.CheckedSub(ONE);
        if less.None? then Err(Overflow)
        else
          var qr := DivRem(less.value, d);
          if qr.None? then Err(ZeroDenominator)
          else
            QuotientIsFloor(less.value, d);
            CheckedAddIsExact(qr.value.0, ONE);
            CeilingFits(a, b, d);
            var rounded := qr.value.0.CheckedAdd(ONE);
            if rounded.None? then Err(Overflow)
            else
              NarrowingIsExact(rounded.value);
              var narrowed := rounded.value.TryIntoU128();
              if narrowed.None? then Err(Overflow) else Ok(narrowed.value)
  }

  /** `a * b / d` rounded down, keeping all 256 bits of the quotient. */
  function MulDivWide(a: u128, b: u128, d: u128): (r: Result<U256, RiskError>)
    ensures d == 0 ==> r == Err(ZeroDenominator)
    ensures d != 0 ==> r.Ok? && r.value.Value() == a * b / d
  {
    var product := MulU128(a, b);
    var qr := DivRem(product, d);
    if qr.None? then Err(ZeroDenominator)
    else
      QuotientIsFloor(product, d);
      Ok(qr.value.0)
  }

  /** Adding one to the rounded-down quotient of `a * b - 1` cannot leave 256 bits. */
  lemma CeilingFits(a: u128, b: u128, d: u128)
    requires 0 < d && 0 < a * b
    ensures 0 <= (a * b - 1) / d + 1 < TWO256
  {
    ProductFits(a, b);
    FloorAnti(a * b - 1, 1, d);
    FloorBounds(a * b - 1, d);
  }

  /** The two directions bracket the exact quotient and differ by at most one. */
  lemma RoundingDirections(a: nat, b: nat, d: nat)
    requires 0 < d
    ensures a * b / d <= CeilDiv(a * b, d) <= a * b / d + 1
    ensures CeilDiv(a * b, d) == a * b / d <==> a * b % d == 0
  {
    var x := a * b;
    FloorBounds(x, d);
    if x % d == 0 {
      if 0 < x {
        MulDist(x / d, -1, d);
        CeilAtLeast(x, d, x / d);
      }
      CeilAtMost(x, d, x / d);
    } else {
      MulDist(x / d, 1, d);
      CeilAtMost(x, d, x / d + 1);
      CeilAtLeast(x, d, x / d + 1);
    }
  }

  function ComplementBps(value: nat): Result<u128, RiskError> {
    if value <= BPS then Ok(BPS - value) else Err(BpsOutOfRange(value))
  }
}
