/**
 * crates/risk-core/src/interest.rs: scaled principal, repayment, debt, the two-slope rate and one
 * accrual of the borrow index. Each 128-bit function is paired with the unbounded amount it computes or refuses;
 * the rounding theorems are about the unbounded amounts, so they hold for every accepted input.
 */
module Interest {
  import opened Wrappers
  import opened Arithmetic
  import opened U256
  import opened MoneyMath

  type u16 = x: int | 0 <= x < 65_536
  type u64 = x: int | 0 <= x < TWO64

  /** The denominator of one accrual step. */
  const YEAR_BPS: int := BPS * SECONDS_PER_YEAR

  // ------------------------------------------------------------------------ unbounded amounts

  function BorrowedPrincipal(amount: nat, index: nat): nat
    requires 0 < index
  {
    CeilDiv(amount * WAD, index)
  }

  function RemainingPrincipal(principal: nat, amount: nat, index: nat): nat
    requires 0 < index
  {
    FloorBounds(amount * WAD, index);
    var reduction := amount * WAD / index;
    if reduction < principal then principal - reduction else 0
  }

  function Debt(principal: nat, index: nat): nat {
    CeilDiv(principal * index, WAD)
  }

  function Growth(index: nat, rateBps: nat, dt: nat): nat {
    FloorBounds(index * (rateBps * dt), YEAR_BPS);
    index * (rateBps * dt) / YEAR_BPS
  }

  function Accrued(index: nat, rateBps: nat, dt: nat): nat {
    index + Growth(index, rateBps, dt)
  }

  // ------------------------------------------------------------------------ 128-bit functions

  function ScaledPrincipalForBorrow(amount: u128, index: u128): (r: Result<u128, RiskError>)
    ensures index == 0 ==> r == Err(ZeroDenominator)
    ensures index != 0 ==> r == Narrow(BorrowedPrincipal(amount, index))
  {
    MulDivUp(amount, WAD, index)
  }

  function ScaledPrincipalAfterRepay(principal: u128, amount: u128, index: u128): (r: Result<u128, RiskError>)
    ensures index == 0 ==> r == Err(ZeroDenominator)
    ensures index != 0 && amount * WAD / index >= TWO128 ==> r == Err(Overflow)
    ensures index != 0 && amount * WAD / index < TWO128 ==> r == Ok(RemainingPrincipal(principal, amount, index))
  {
    var reduction :- MulDiv(amount, WAD, index);
    Ok(if reduction < principal then principal - reduction else 0)
  }

  function DebtUsd18(principal: u128, index: u128): (r: Result<u128, RiskError>)
    ensures r == Narrow(Debt(principal, index))
  {
    MulDivUp(principal, index, WAD)
  }

  function UtilisationBps(cash: u128, borrows: u128): Result<u128, RiskError> {
    if borrows == 0 then Ok(0)
    else
      var total :- CheckedAdd(cash, borrows);
      MulDiv(borrows, BPS, total)
  }

  function BorrowRateBpsAtUtilisation(u: u128, base: u16, slope1: u16, slope2: u16, kink: u16)
    : Result<u128, RiskError>
  {
    if u > BPS then Err(BpsOutOfRange(u))
    else if u <= kink then
      var rise :- MulDiv(u, slope1, kink);
      CheckedAdd(base, rise)
    else
      var rise :- MulDiv(u - kink, slope2, BPS - kink);
      CheckedAdd(base + slope1, rise)
  }

  function BorrowRateBps(cash: u128, borrows: u128, base: u16, slope1: u16, slope2: u16, kink: u16)
    : Result<u128, RiskError>
  {
    if borrows == 0 then Ok(base)
    else
      var u :- UtilisationBps(cash, borrows);
      BorrowRateBpsAtUtilisation(u, base, slope1, slope2, kink)
  }

  /** Accrual refuses exactly when the elapsed rate, the growth or the new index leaves 128 bits. */
  function AccrueIndex(index: u128, rateBps: u128, dt: u64): (r: Result<u128, RiskError>)
    ensures r.Ok? ==> r.value == Accrued(index, rateBps, dt)
    ensures r.Err? ==> r.error == Overflow && (rateBps * dt >= TWO128 || Accrued(index, rateBps, dt) >= TWO128)
    ensures rateBps * dt < TWO128 && Accrued(index, rateBps, dt) < TWO128 ==> r.Ok?
  {
    if dt == 0 || rateBps == 0 then
      assert index * (rateBps * dt) == 0;
      Ok(index)
    else
      MulLt(0, rateBps, dt);
      var elapsed :- Narrow(rateBps * dt);
      var growth :- MulDiv(index, elapsed, YEAR_BPS);
      CheckedAdd(index, growth)
  }

  // ----------------------------------------------------------------------------------- borrow

  /** How far `amount * WAD` falls short of the next multiple of the index. */
  function Residue(amount: nat, index: nat): (r: nat)
    requires 0 < index
    ensures r < index
  {
    (index - amount * WAD % index) % index
  }

  lemma PrincipalTimesIndex(amount: nat, index: nat)
    requires 0 < index
    ensures BorrowedPrincipal(amount, index) * index == amount * WAD + Residue(amount, index)
  {
    CeilTimesDivisor(amount * WAD, index);
  }

  lemma CeilTimesDivisor(x: nat, d: nat)
    requires 0 < d
    ensures CeilDiv(x, d) * d == x + (d - x % d) % d
  {
    FloorBounds(x, d);
    CeilAbove(x, d, x / d, x % d);
    FloorUnique(d - x % d, d, if x % d == 0 then 1 else 0);
  }

  lemma CeilAbove(x: nat, d: nat, q: nat, rest: nat)
    requires rest < d && x == q * d + rest
    ensures CeilDiv(x, d) * d == if rest == 0 then x else x + d - rest
  {
    if rest == 0 {
      CeilIs(x, d, q);
    } else {
      MulDist(q, 1, d);
      CeilIs(x, d, q + 1);
    }
  }

  lemma CeilIs(x: nat, d: nat, q: nat)
    requires 0 < d && x <= q * d < x + d
    ensures CeilDiv(x, d) == q
  {
    MulDist(q, -1, d);
    CeilAtMost(x, d, q);
    CeilAtLeast(x, d, q);
  }

  /**
   * What a fresh borrow owes, exactly: the amount plus the ceiling of the residue over one WAD.
   * It is never less than the amount and exceeds it by at most ceil((index - 1) / WAD).
   */
  lemma FreshBorrowDebt(amount: nat, index: nat)
    requires 0 < index
    ensures Debt(BorrowedPrincipal(amount, index), index) == amount + CeilDiv(Residue(amount, index), WAD)
    ensures amount <= Debt(BorrowedPrincipal(amount, index), index) <= amount + CeilDiv(index - 1, WAD)
  {
    PrincipalTimesIndex(amount, index);
    CeilShift(Residue(amount, index), amount, WAD);
    CeilMono(Residue(amount, index), index - 1, WAD);
  }

  /** The recorded debt is within one wei of the amount exactly when the residue is at most one WAD. */
  lemma WithinOneWei(amount: nat, index: nat)
    requires 0 < index
    ensures Debt(BorrowedPrincipal(amount, index), index) <= amount + 1 <==> Residue(amount, index) <= WAD
    ensures index <= WAD + 1 ==> Residue(amount, index) <= WAD
  {
    FreshBorrowDebt(amount, index);
    if Residue(amount, index) <= WAD {
      CeilAtMost(Residue(amount, index), WAD, 1);
    } else {
      CeilAtLeast(Residue(amount, index), WAD, 2);
    }
  }

  /** So one wei is not enough in general: at an index of 1.9, borrowing 2 wei records 4. */
  lemma TwoWeiAboveTheAmount()
    ensures var index := 1_900_000_000_000_000_000;
            Debt(BorrowedPrincipal(2, index), index) == 2 + 2
  {
    var index := 1_900_000_000_000_000_000;
    FreshBorrowDebt(2, index);
    assert 2 * WAD % index == 100_000_000_000_000_000;
    CeilIs(1_800_000_000_000_000_000, WAD, 2);
  }

  // -------------------------------------------------------------------------------- repayment

  /** A repayment lowers debt, and retires no more debt than it pays for. */
  lemma RepaymentIsBounded(principal: nat, amount: nat, index: nat)
    requires 0 < index
    ensures
      var before := Debt(principal, index);
      var after := Debt(RemainingPrincipal(principal, amount, index), index);
      after <= before <= after + amount
  {
    var reduction := amount * WAD / index;
    var remaining := RemainingPrincipal(principal, amount, index);
    FloorBounds(amount * WAD, index);
    MulLe(remaining, principal, index);
    CeilMono(remaining * index, principal * index, WAD);
    MulDist(remaining, reduction, index);
    MulLe(principal, remaining + reduction, index);
    CeilMono(principal * index, amount * WAD + remaining * index, WAD);
    CeilShift(remaining * index, amount, WAD);
  }

  /** Paying any amount at or above the reconstructed debt leaves no principal behind. */
  lemma RepayingTheDebtClearsIt(principal: nat, amount: nat, index: nat)
    requires 0 < index && Debt(principal, index) <= amount
    ensures RemainingPrincipal(principal, amount, index) == 0
    ensures Debt(RemainingPrincipal(principal, amount, index), index) == 0
  {
    MulLe(Debt(principal, index), amount, WAD);
    FloorAtLeast(amount * WAD, index, principal);
  }

  /** At an index of at least one WAD a repayment of a debt that fits is never refused. */
  lemma RepaymentFits(principal: u128, amount: u128, index: u128)
    requires WAD <= index
    ensures ScaledPrincipalAfterRepay(principal, amount, index).Ok?
  {
    FloorAnti(amount * WAD, WAD, index);
    FloorExact(amount, WAD);
  }

  /** Borrowing on top of existing principal raises the debt by the amount and the same rounding. */
  lemma FurtherBorrowDebt(principal: nat, amount: nat, index: nat)
    requires 0 < index
    ensures
      var before := Debt(principal, index);
      var after := Debt(principal + BorrowedPrincipal(amount, index), index);
      before <= after <= before + amount + CeilDiv(index - 1, WAD)
  {
    var added := BorrowedPrincipal(amount, index);
    PrincipalTimesIndex(amount, index);
    MulDist(principal, added, index);
    var slack := CeilDiv(index - 1, WAD);
    MulDist(Debt(principal, index) + amount, slack, WAD);
    MulDist(Debt(principal, index), amount, WAD);
    CeilAtMost((principal + added) * index, WAD, Debt(principal, index) + amount + slack);
    CeilMono(principal * index, (principal + added) * index, WAD);
  }

  // --------------------------------------------------------------------------------- the rate

  /** Utilisation never leaves [0, BPS], and grows with borrows and with shrinking cash. */
  lemma UtilisationIsMonotone(cash: nat, borrows: nat, cash': nat, borrows': nat)
    requires 0 < borrows <= borrows' && cash' <= cash
    ensures 0 <= borrows * BPS / (cash + borrows) <= borrows' * BPS / (cash' + borrows') <= BPS
  {
    var total, total' := cash + borrows, cash' + borrows';
    FloorBounds(borrows * BPS, total);
    assert borrows * total' <= borrows' * total by {
      MulLe(borrows, borrows', cash);
      MulLe(cash', cash, borrows);
    }
    FractionMono(borrows, total, borrows', total', BPS);
    FloorShare(BPS, borrows', total');
  }

  /** A share `part / whole` of a slope is at most the slope, and is all of it at the whole. */
  lemma RiseBounds(part: nat, slope: nat, whole: nat)
    requires part <= whole && 0 < whole
    ensures 0 <= part * slope / whole <= slope
    ensures part == whole ==> part * slope / whole == slope
  {
    FloorShare(slope, part, whole);
    if part == whole {
      FloorExact(slope, whole);
    }
  }

  /** The two branches of the curve, bounded by the kink between them. */
  lemma CurveBounds(u: u128, base: u16, slope1: u16, slope2: u16, kink: u16)
    requires u <= BPS && 0 < kink
    ensures
      var r := BorrowRateBpsAtUtilisation(u, base, slope1, slope2, kink);
      && r.Ok?
      && (u <= kink ==> base <= r.value <= base + slope1)
      && (kink < u ==> base + slope1 <= r.value <= base + slope1 + slope2)
      && (u == kink ==> r.value == base + slope1)
  {
    if u <= kink {
      RiseBounds(u, slope1, kink);
    } else {
      RiseBounds(u - kink, slope2, BPS - kink);
    }
  }

  /** The curve rises with utilisation, across the kink included. */
  lemma CurveIsMonotone(u: u128, u': u128, base: u16, slope1: u16, slope2: u16, kink: u16)
    requires u <= u' <= BPS && 0 < kink
    ensures
      var r := BorrowRateBpsAtUtilisation(u, base, slope1, slope2, kink);
      var r' := BorrowRateBpsAtUtilisation(u', base, slope1, slope2, kink);
      r.Ok? && r'.Ok? && r.value <= r'.value
  {
    CurveBounds(u, base, slope1, slope2, kink);
    CurveBounds(u', base, slope1, slope2, kink);
    if u' <= kink {
      FloorMulDivMono(u, u', slope1, kink);
    } else if kink < u {
      FloorMulDivMono(u - kink, u' - kink, slope2, BPS - kink);
    }
  }

  /**
   * Borrowing more against less cash never lowers the rate, the rate stays inside its two slopes,
   * and the only refusal of a market with a positive kink is a total outside the money domain.
   */
  lemma RateFollowsScarcity(cash: u128, borrows: u128, cash': u128, borrows': u128,
                            base: u16, slope1: u16, slope2: u16, kink: u16)
    requires borrows <= borrows' && cash' <= cash && 0 < kink
    requires cash + borrows < TWO128 && cash' + borrows' < TWO128
    ensures
      var r := BorrowRateBps(cash, borrows, base, slope1, slope2, kink);
      var r' := BorrowRateBps(cash', borrows', base, slope1, slope2, kink);
      r.Ok? && r'.Ok? && base <= r.value <= r'.value <= base + slope1 + slope2
  {
    if 0 < borrows {
      UtilisationIsMonotone(cash, borrows, cash', borrows');
      var u, u' := borrows * BPS / (cash + borrows), borrows' * BPS / (cash' + borrows');
      CurveIsMonotone(u, u', base, slope1, slope2, kink);
      CurveBounds(u, base, slope1, slope2, kink);
      CurveBounds(u', base, slope1, slope2, kink);
    } else if 0 < borrows' {
      UtilisationIsMonotone(cash', borrows', cash', borrows');
      CurveBounds(borrows' * BPS / (cash' + borrows'), base, slope1, slope2, kink);
    }
  }
}
