/**
 * The borrow index of crates/risk-core/src/interest.rs over many steps: how far accrual in steps lies
 * from a single step over the summed time, on both sides, and when it keeps up with one.
 */
module Accrual {
  import opened Arithmetic
  import opened MoneyMath
  import opened Interest

  function AccruedInSteps(index: nat, rateBps: nat, steps: seq<nat>): nat {
    if steps == [] then index
    else Accrued(AccruedInSteps(index, rateBps, steps[..|steps| - 1]), rateBps, steps[|steps| - 1])
  }

  function TotalTime(steps: seq<nat>): nat {
    if steps == [] then 0 else TotalTime(steps[..|steps| - 1]) + steps[|steps| - 1]
  }

  function YearBpsPower(n: nat): (p: nat)
    ensures 0 < p
  {
    if n == 0 then 1 else YearBpsPower(n - 1) * YEAR_BPS
  }

  /** The product of (YEAR_BPS + rate * dt) over the steps: exact compounding, scaled. */
  function CompoundFactor(rateBps: nat, steps: seq<nat>): nat {
    if steps == [] then 1
    else
      MulLe(0, rateBps, steps[|steps| - 1]);
      CompoundFactor(rateBps, steps[..|steps| - 1]) * (YEAR_BPS + rateBps * steps[|steps| - 1])
  }

  lemma GrowthMono(index: nat, index': nat, rateBps: nat, dt: nat)
    requires index <= index'
    ensures Growth(index, rateBps, dt) <= Growth(index', rateBps, dt)
  {
    MulLe(0, rateBps, dt);
    FloorMulDivMono(index, index', rateBps * dt, YEAR_BPS);
  }

  lemma {:induction false} IndexNeverFalls(index: nat, rateBps: nat, steps: seq<nat>)
    ensures index <= AccruedInSteps(index, rateBps, steps)
  {
    if steps != [] {
      IndexNeverFalls(index, rateBps, steps[..|steps| - 1]);
    }
  }

  /** Two floored growths fall short of the growth over the summed time by less than one wei. */
  lemma GrowthSplits(index: nat, rateBps: nat, s: nat, t: nat)
    ensures Growth(index, rateBps, s + t) <= Growth(index, rateBps, s) + Growth(index, rateBps, t) + 1
  {
    var x, y := index * (rateBps * s), index * (rateBps * t);
    assert index * (rateBps * (s + t)) == x + y by {
      MulDist(s, t, rateBps);
      MulDist(rateBps * s, rateBps * t, index);
    }
    FloorBounds(x, YEAR_BPS);
    FloorBounds(y, YEAR_BPS);
    FloorAtMost(x + y, YEAR_BPS, x / YEAR_BPS + y / YEAR_BPS + 1);
  }

  /** n steps trail one step over the summed time by at most n - 1 wei. */
  lemma {:induction false} SteppingTrailsByLess(index: nat, rateBps: nat, steps: seq<nat>)
    requires steps != []
    ensures Accrued(index, rateBps, TotalTime(steps)) <= AccruedInSteps(index, rateBps, steps) + |steps| - 1
  {
    var front, last := steps[..|steps| - 1], steps[|steps| - 1];
    if front == [] {
      assert AccruedInSteps(index, rateBps, front) == index && TotalTime(front) == 0;
    } else {
      SteppingTrailsByLess(index, rateBps, front);
      IndexNeverFalls(index, rateBps, front);
      GrowthMono(index, AccruedInSteps(index, rateBps, front), rateBps, last);
      GrowthSplits(index, rateBps, TotalTime(front), last);
    }
  }

  /** Stepping never exceeds exact compounding: floors only lose. */
  lemma {:induction false} SteppingStaysBelowCompounding(index: nat, rateBps: nat, steps: seq<nat>)
    ensures AccruedInSteps(index, rateBps, steps) * YearBpsPower(|steps|) <= index * CompoundFactor(rateBps, steps)
  {
    if steps != [] {
      var front, last := steps[..|steps| - 1], steps[|steps| - 1];
      SteppingStaysBelowCompounding(index, rateBps, front);
      MulLe(0, rateBps, last);
      CompoundStep(index, AccruedInSteps(index, rateBps, front), rateBps * last,
                   YearBpsPower(|front|), CompoundFactor(rateBps, front));
    }
  }

  lemma CompoundStep(index: nat, before: nat, elapsed: nat, scale: nat, factor: nat)
    requires before * scale <= index * factor
    ensures (before + before * elapsed / YEAR_BPS) * (scale * YEAR_BPS) <= index * (factor * (YEAR_BPS + elapsed))
  {
    FloorBounds(before * elapsed, YEAR_BPS);
    MulDist(YEAR_BPS, elapsed, before);
    Rescale(before + before * elapsed / YEAR_BPS, before, scale, YEAR_BPS + elapsed, index * factor);
    MulAssoc(index, factor, YEAR_BPS + elapsed);
  }

  lemma Rescale(after: nat, before: nat, scale: nat, growth: nat, bound: nat)
    requires after * YEAR_BPS <= before * growth && before * scale <= bound
    ensures after * (scale * YEAR_BPS) <= bound * growth
  {
    MulLe(after * YEAR_BPS, before * growth, scale);
    MulLe(before * scale, bound, growth);
    MulAssoc(scale, before, growth);
    MulAssoc(scale, after, YEAR_BPS);
  }

  // ----------------------------------------------------------- when stepping keeps up, exactly

  /** The fractions of a wei that the steps drop, in units of one YEAR_BPS-th. */
  function Dropped(index: nat, rateBps: nat, steps: seq<nat>): nat {
    if steps == [] then 0
    else
      var front, last := steps[..|steps| - 1], steps[|steps| - 1];
      Dropped(index, rateBps, front) + AccruedInSteps(index, rateBps, front) * (rateBps * last) % YEAR_BPS
  }

  /** What the steps earn on growth accrued by earlier steps, in the same units. */
  function Compounded(index: nat, rateBps: nat, steps: seq<nat>): nat {
    if steps == [] then 0
    else
      var front, last := steps[..|steps| - 1], steps[|steps| - 1];
      MulLe(0, rateBps, last);
      MulLe(0, Gained(index, rateBps, front), rateBps * last);
      Compounded(index, rateBps, front) + Gained(index, rateBps, front) * (rateBps * last)
  }

  /** What the steps have accrued. */
  function Gained(index: nat, rateBps: nat, steps: seq<nat>): nat {
    IndexNeverFalls(index, rateBps, steps);
    AccruedInSteps(index, rateBps, steps) - index
  }

  /** Nothing is lost unaccounted: simple interest plus interest on interest is growth plus what was dropped. */
  lemma {:induction false} SteppingBalance(index: nat, rateBps: nat, steps: seq<nat>)
    ensures Gained(index, rateBps, steps) * YEAR_BPS + Dropped(index, rateBps, steps)
            == index * (rateBps * TotalTime(steps)) + Compounded(index, rateBps, steps)
  {
    if steps != [] {
      var front, last := steps[..|steps| - 1], steps[|steps| - 1];
      SteppingBalance(index, rateBps, front);
      StepBalance(index, AccruedInSteps(index, rateBps, front), rateBps * last);
      SplitTime(index, rateBps, TotalTime(front), last);
    } else {
      assert AccruedInSteps(index, rateBps, steps) == index && TotalTime(steps) == 0;
    }
  }

  lemma StepBalance(index: nat, before: nat, elapsed: nat)
    ensures (before * elapsed / YEAR_BPS) * YEAR_BPS + before * elapsed % YEAR_BPS
            == index * elapsed + (before - index) * elapsed
  {
    FloorBounds(before * elapsed, YEAR_BPS);
    MulDist(index, before - index, elapsed);
  }

  lemma SplitTime(index: nat, rateBps: nat, s: nat, t: nat)
    ensures index * (rateBps * (s + t)) == index * (rateBps * s) + index * (rateBps * t)
  {
    MulDist(s, t, rateBps);
    MulDist(rateBps * s, rateBps * t, index);
  }

  /**
   * n steps are at least one step over the summed time exactly when the fractions they drop do not
   * exceed their interest on interest and the fraction the single step drops.
   */
  lemma SteppingKeepsUpExactlyWhen(index: nat, rateBps: nat, steps: seq<nat>)
    ensures Accrued(index, rateBps, TotalTime(steps)) <= AccruedInSteps(index, rateBps, steps)
            <==> Dropped(index, rateBps, steps)
                 <= Compounded(index, rateBps, steps) + index * (rateBps * TotalTime(steps)) % YEAR_BPS
  {
    SteppingBalance(index, rateBps, steps);
    SingleStepComparison(index, rateBps, TotalTime(steps), Gained(index, rateBps, steps),
                         Dropped(index, rateBps, steps), Compounded(index, rateBps, steps));
  }

  lemma SingleStepComparison(index: nat, rateBps: nat, dt: nat, gained: nat, dropped: nat, compounded: nat)
    requires gained * YEAR_BPS + dropped == index * (rateBps * dt) + compounded
    ensures Accrued(index, rateBps, dt) <= index + gained
            <==> dropped <= compounded + index * (rateBps * dt) % YEAR_BPS
  {
    MulLe(0, index, rateBps * dt);
    FloorComparison(gained, index * (rateBps * dt), dropped, compounded);
  }

  lemma FloorComparison(growth: nat, simple: nat, dropped: nat, compounded: nat)
    requires growth * YEAR_BPS + dropped == simple + compounded
    ensures simple / YEAR_BPS <= growth <==> dropped <= compounded + simple % YEAR_BPS
  {
    FloorBounds(simple, YEAR_BPS);
    if simple / YEAR_BPS <= growth {
      MulLe(simple / YEAR_BPS, growth, YEAR_BPS);
    } else {
      MulLe(growth + 1, simple / YEAR_BPS, YEAR_BPS);
    }
  }

  /**
   * Two steps keep up exactly when their two fractions do not make up a whole wei, or the second
   * step's interest on interest carries its own fraction over one.
   */
  lemma TwoStepsKeepUpExactlyWhen(index: nat, rateBps: nat, s: nat, t: nat)
    ensures
      var x, y := index * (rateBps * s), index * (rateBps * t);
      Accrued(index, rateBps, s + t) <= Accrued(Accrued(index, rateBps, s), rateBps, t)
      <==> x % YEAR_BPS + y % YEAR_BPS < YEAR_BPS
           || y % YEAR_BPS + Growth(index, rateBps, s) * (rateBps * t) >= YEAR_BPS
  {
    var x, y, extra := index * (rateBps * s), index * (rateBps * t), Growth(index, rateBps, s) * (rateBps * t);
    SplitTime(index, rateBps, s, t);
    MulDist(index, Growth(index, rateBps, s), rateBps * t);
    CarryComparison(x, y, extra);
  }

  lemma CarryComparison(x: nat, y: nat, extra: nat)
    ensures (x + y) / YEAR_BPS <= x / YEAR_BPS + (y + extra) / YEAR_BPS
            <==> x % YEAR_BPS + y % YEAR_BPS < YEAR_BPS || y % YEAR_BPS + extra >= YEAR_BPS
  {
    FloorBounds(x, YEAR_BPS);
    FloorBounds(y, YEAR_BPS);
    FloorShift(x % YEAR_BPS + y % YEAR_BPS, x / YEAR_BPS + y / YEAR_BPS, YEAR_BPS);
    FloorShift(y % YEAR_BPS + extra, y / YEAR_BPS, YEAR_BPS);
    FloorBounds(x % YEAR_BPS + y % YEAR_BPS, YEAR_BPS);
    FloorBounds(y % YEAR_BPS + extra, YEAR_BPS);
  }

  /** Step k earns at least one wei on what the steps before it accrued. */
  predicate EarnsWholeWei(index: nat, rateBps: nat, steps: seq<nat>, k: nat)
    requires k < |steps|
  {
    Gained(index, rateBps, steps[..k]) * (rateBps * steps[k]) >= YEAR_BPS
  }

  /** Stepping keeps up whenever every step but the first earns a whole wei on earlier growth. */
  lemma {:induction false} SteppingKeepsUpOnWholeWei(index: nat, rateBps: nat, steps: seq<nat>)
    requires forall k :: 0 < k < |steps| ==> EarnsWholeWei(index, rateBps, steps, k)
    ensures Accrued(index, rateBps, TotalTime(steps)) <= AccruedInSteps(index, rateBps, steps)
  {
    if |steps| > 1 {
      var n := |steps| - 1;
      forall k | 0 < k < n
        ensures EarnsWholeWei(index, rateBps, steps[..n], k)
      {
        EarnsInPrefix(index, rateBps, steps, n, k);
      }
      SteppingKeepsUpOnWholeWei(index, rateBps, steps[..n]);
      LastStepKeepsUp(index, rateBps, steps);
    } else {
      FewSteps(index, rateBps, steps);
    }
  }

  lemma EarnsInPrefix(index: nat, rateBps: nat, steps: seq<nat>, n: nat, k: nat)
    requires k < n <= |steps| && EarnsWholeWei(index, rateBps, steps, k)
    ensures EarnsWholeWei(index, rateBps, steps[..n], k)
  {
    assert steps[..n][..k] == steps[..k];
  }

  lemma LastStepKeepsUp(index: nat, rateBps: nat, steps: seq<nat>)
    requires |steps| > 1 && EarnsWholeWei(index, rateBps, steps, |steps| - 1)
    requires
      var front := steps[..|steps| - 1];
      Accrued(index, rateBps, TotalTime(front)) <= AccruedInSteps(index, rateBps, front)
    ensures Accrued(index, rateBps, TotalTime(steps)) <= AccruedInSteps(index, rateBps, steps)
  {
    var front, last := steps[..|steps| - 1], steps[|steps| - 1];
    WholeWeiStep(index, AccruedInSteps(index, rateBps, front), rateBps, TotalTime(front), last);
  }

  lemma FewSteps(index: nat, rateBps: nat, steps: seq<nat>)
    requires |steps| <= 1
    ensures Accrued(index, rateBps, TotalTime(steps)) == AccruedInSteps(index, rateBps, steps)
  {
    if |steps| == 1 {
      assert TotalTime(steps[..0]) == 0 && AccruedInSteps(index, rateBps, steps[..0]) == index;
    } else {
      assert index * (rateBps * 0) == 0;
    }
  }

  lemma WholeWeiStep(index: nat, before: nat, rateBps: nat, s: nat, t: nat)
    requires Accrued(index, rateBps, s) <= before && (before - index) * (rateBps * t) >= YEAR_BPS
    ensures Accrued(index, rateBps, s + t) <= Accrued(before, rateBps, t)
  {
    GrowthSplits(index, rateBps, s, t);
    WholeWeiMore(index, before, rateBps, t);
  }

  lemma WholeWeiMore(index: nat, before: nat, rateBps: nat, dt: nat)
    requires index <= before && (before - index) * (rateBps * dt) >= YEAR_BPS
    ensures Growth(index, rateBps, dt) + 1 <= Growth(before, rateBps, dt)
  {
    var elapsed := rateBps * dt;
    MulDist(index, before - index, elapsed);
    FloorBounds(index * elapsed, YEAR_BPS);
    FloorAtLeast(before * elapsed, YEAR_BPS, index * elapsed / YEAR_BPS + 1);
  }

  /** And a single step can be ahead: two three-second steps at one basis point lose a wei to one of six. */
  lemma SteppingCanFallBehind()
    ensures AccruedInSteps(WAD, 1, [3, 3]) + 1 == Accrued(WAD, 1, TotalTime([3, 3]))
  {
    assert [3, 3][..1] == [3] && [3][..0] == [];
    assert AccruedInSteps(WAD, 1, []) == WAD;
    assert AccruedInSteps(WAD, 1, [3]) == 1_000_000_000_009_512_937;
    assert TotalTime([]) == 0 && TotalTime([3]) == 3;
  }
}
