/**
 * What the amounts of crates/risk-core/src/interest.rs are, in units of the inputs: which quotient each is,
 * in which direction it is rounded, and when it is refused.
 */
module RateMeaning {
  import opened Wrappers
  import opened Arithmetic
  import opened U256
  import opened MoneyMath
  import opened Interest

  /** A borrow's principal is rounded up. */
  lemma BorrowMeans(amount: nat, index: nat)
    requires 0 < index
    ensures amount * 1_000_000_000_000_000_000
            <= BorrowedPrincipal(amount, index) * index
            < amount * 1_000_000_000_000_000_000 + index
  {
    RoundedUp(amount * WAD, index);
  }

  /** A repayment retires principal rounded down, and never more than there is. */
  lemma RepayMeans(principal: nat, amount: nat, index: nat)
    requires 0 < index
    ensures
      var left := RemainingPrincipal(principal, amount, index);
      && left <= principal
      && (0 < left ==> IsFloor(principal - left, amount * 1_000_000_000_000_000_000, index))
      && (left == 0 ==> principal * index <= amount * 1_000_000_000_000_000_000)
  {
    DivisionFloors(amount * WAD, index);
    if amount * WAD / index >= principal {
      MulLe(principal, amount * WAD / index, index);
    }
  }

  /** Debt is rounded up. */
  lemma DebtMeans(principal: nat, index: nat)
    ensures principal * index
            <= Debt(principal, index) * 1_000_000_000_000_000_000
            < principal * index + 1_000_000_000_000_000_000
  {
    RoundedUp(principal * index, WAD);
  }

  lemma RoundedUp(x: nat, d: nat)
    requires 0 < d
    ensures x <= CeilDiv(x, d) * d < x + d
  {
    MulDist(CeilDiv(x, d), -1, d);
  }

  /** Utilisation is the share of what is lent out, in basis points, rounded down. */
  lemma UtilisationMeans(cash: u128, borrows: u128)
    ensures borrows == 0 ==> UtilisationBps(cash, borrows) == Ok(0)
    ensures borrows != 0 && cash + borrows >= TWO128 ==> UtilisationBps(cash, borrows) == Err(Overflow)
    ensures borrows != 0 && cash + borrows < TWO128 ==>
      && UtilisationBps(cash, borrows).Ok?
      && IsFloor(UtilisationBps(cash, borrows).value, borrows * 10_000, cash + borrows)
  {
    if borrows != 0 && cash + borrows < TWO128 {
      DivisionFloors(borrows * 10_000, cash + borrows);
      UtilisationIsMonotone(cash, borrows, cash, borrows);
    }
  }

  /** The curve: the base rate and the part of a slope that utilisation has climbed, rounded down. */
  lemma RateMeans(u: u128, base: u16, slope1: u16, slope2: u16, kink: u16)
    ensures
      var r := BorrowRateBpsAtUtilisation(u, base, slope1, slope2, kink);
      && (u > 10_000 ==> r == Err(BpsOutOfRange(u)))
      && (u == 0 == kink ==> r == Err(ZeroDenominator))
      && (u <= 10_000 && (0 < u || 0 < kink) ==> r.Ok?)
      && (r.Ok? && u <= kink ==> IsFloor(r.value - base, u * slope1, kink))
      && (r.Ok? && kink < u ==> IsFloor(r.value - base - slope1, (u - kink) * slope2, 10_000 - kink))
  {
    if u <= kink && 0 < kink && u <= BPS {
      CurveBounds(u, base, slope1, slope2, kink);
      DivisionFloors(u * slope1, kink);
    } else if kink < u <= BPS {
      RiseBounds(u - kink, slope2, BPS - kink);
      DivisionFloors((u - kink) * slope2, BPS - kink);
    }
  }

  /** A market fully lent out pays the base rate and both slopes. */
  lemma FullUtilisationPaysBothSlopes(cash: u128, borrows: u128, base: u16, slope1: u16, slope2: u16, kink: u16)
    requires cash == 0 < borrows && kink < 10_000
    ensures BorrowRateBps(cash, borrows, base, slope1, slope2, kink) == Ok(base + slope1 + slope2)
  {
    FloorExact(BPS, borrows);
    MulSwap(BPS, borrows, 1);
    FloorExact(slope2, BPS - kink);
    RiseBounds(BPS - kink, slope2, BPS - kink);
  }

  /** The rate of a market is the base rate while nothing is lent, else the curve at its utilisation. */
  lemma MarketRateMeans(cash: u128, borrows: u128, base: u16, slope1: u16, slope2: u16, kink: u16)
    ensures
      var r, u := BorrowRateBps(cash, borrows, base, slope1, slope2, kink), UtilisationBps(cash, borrows);
      if borrows == 0 then r == Ok(base)
      else if u.Err? then r == Err(u.error)
      else r == BorrowRateBpsAtUtilisation(u.value, base, slope1, slope2, kink)
  {
  }

  /** Growth is simple interest over the elapsed part of a year of 365 days, rounded down. */
  lemma GrowthMeans(index: nat, rateBps: nat, dt: nat)
    ensures IsFloor(Accrued(index, rateBps, dt) - index, index * (rateBps * dt), 315_360_000_000)
    ensures Accrued(index, rateBps, 31_536_000) == index + index * rateBps / 10_000
    ensures Accrued(index, 0, dt) == index == Accrued(index, rateBps, 0)
  {
    DivisionFloors(index * (rateBps * dt), YEAR_BPS);
    MulAssoc(index, rateBps, 31_536_000);
    FloorScaled(index * rateBps, 31_536_000);
    assert index * (0 * dt) == 0 && index * (rateBps * 0) == 0;
  }

  lemma FloorScaled(x: nat, k: nat)
    requires 0 < k
    ensures 0 < 10_000 * k && x * k / (10_000 * k) == x / 10_000
  {
    FloorBounds(x, 10_000);
    var q := x / 10_000;
    MulLe(q * 10_000, x, k);
    MulLe(x + 1, q * 10_000 + 10_000, k);
    MulAssoc(q, 10_000, k);
    MulDist(q * 10_000, 10_000, k);
    MulDist(x, 1, k);
    FloorUnique(x * k, 10_000 * k, q);
  }
}
