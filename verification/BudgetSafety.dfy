/** Every window of every run stays within its cap, and what the fee cap does and does not bound. */
module BudgetSafety {
  import opened Wrappers
  import opened BudgetLedger

  function InWindow(from: int, seconds: nat): Entry -> bool {
    (e: Entry) => Committed(e) && from <= e.effectiveAt <= from + seconds
  }

  ghost predicate SpendWithin(l: Ledger, seconds: nat, cap: Option<nat>) {
    cap.Some? ==> forall from: int :: Sum(l, InWindow(from, seconds), Amount()) <= cap.value
  }

  ghost predicate RunsWithin(l: Ledger, seconds: nat, cap: Option<nat>) {
    cap.Some? ==> forall from: int :: Sum(l, InWindow(from, seconds), One()) <= cap.value
  }

  /** Committed entries are in time order, at least the cooldown apart. */
  predicate Spaced(l: Ledger, cooldown: nat) {
    forall i, j :: 0 <= i < j < |l| && Committed(l[i]) && Committed(l[j]) ==>
      l[i].effectiveAt + cooldown <= l[j].effectiveAt
  }

  predicate UpTo(l: Ledger, clock: nat) {
    forall i :: 0 <= i < |l| ==> l[i].effectiveAt <= clock
  }

  /** Entries of one run settle together: while the first is reserved, so are the later ones. */
  predicate SettleTogether(l: Ledger) {
    forall i, j :: 0 <= i < j < |l| && l[i].runId == l[j].runId && l[i].state == Reserved ==> l[j].state == Reserved
  }

  /** Every window of each configured length, wherever it starts, is within its cap. */
  ghost predicate Safe(b: Budget, l: Ledger) {
    && (forall i :: 0 <= i < |l| && Committed(l[i]) ==> l[i].amountUsd18 <= b.maxPerRunUsd18)
    && (b.maxTotalUsd18.Some? ==> Spent(l) <= b.maxTotalUsd18.value)
    && SpendWithin(l, 86_400, b.maxPerDayUsd18)
    && (b.rollingWindow.Some? ==> SpendWithin(l, b.rollingWindow.value.seconds, Some(b.rollingWindow.value.capUsd18)))
    && RunsWithin(l, 3_600, b.maxRunsPerHour)
    && RunsWithin(l, 86_400, b.maxRunsPerDay)
    && Spaced(l, b.cooldownSeconds)
  }

  // ------------------------------------------------------------------------------------- sums

  lemma {:induction false} SumMono(l: Ledger, p: Entry -> bool, q: Entry -> bool, w: Entry -> nat)
    requires forall i :: 0 <= i < |l| && p(l[i]) ==> q(l[i])
    ensures Sum(l, p, w) <= Sum(l, q, w)
  {
    if l != [] {
      SumMono(l[..|l| - 1], p, q, w);
    }
  }

  lemma SumSnoc(l: Ledger, e: Entry, p: Entry -> bool, w: Entry -> nat)
    ensures Sum(l + [e], p, w) == Sum(l, p, w) + if p(e) then w(e) else 0
  {
    assert (l + [e])[..|l|] == l;
  }

  /** `m` commits a subset of what `l` commits, entry by entry, with everything else unchanged. */
  predicate Shrinks(l: Ledger, m: Ledger) {
    |l| == |m| && forall i :: 0 <= i < |l| ==>
      m[i] == l[i].(state := m[i].state) && (Committed(m[i]) ==> Committed(l[i]))
  }

  lemma {:induction false} ShrinkingSum(l: Ledger, m: Ledger, p: Entry -> bool, w: Entry -> nat)
    requires Shrinks(l, m)
    requires forall i :: 0 <= i < |l| ==> w(m[i]) == w(l[i]) && (p(m[i]) ==> p(l[i]))
    ensures Sum(m, p, w) <= Sum(l, p, w)
  {
    if l != [] {
      ShrinkingSum(l[..|l| - 1], m[..|m| - 1], p, w);
    }
  }

  // --------------------------------------------------------------------- confirming and releasing

  lemma {:induction false} FindFirst(l: Ledger, runId: string) returns (i: nat)
    requires Find(l, runId).Some?
    ensures i < |l| && l[i].runId == runId && Find(l, runId) == Some(l[i])
    ensures forall j :: 0 <= j < i ==> l[j].runId != runId
  {
    if l[0].runId == runId {
      i := 0;
    } else {
      i := FindFirst(l[1..], runId);
      i := i + 1;
    }
  }

  /** Settling a reserved run moves exactly its reserved entries. */
  lemma SettlingShrinks(l: Ledger, runId: string, state: EntryState)
    requires SettleTogether(l) && Find(l, runId).Some? && Find(l, runId).value.state == Reserved && state != Reserved
    ensures Shrinks(l, WithState(l, runId, state)) && SettleTogether(WithState(l, runId, state))
    ensures forall i :: 0 <= i < |l| && l[i].runId == runId ==> l[i].state == Reserved
  {
    var first := FindFirst(l, runId);
    forall i | 0 <= i < |l| && l[i].runId == runId
      ensures l[i].state == Reserved
    {
      if i != first {
        assert first < i;
      }
    }
  }

  lemma ShrinkingStaysSafe(b: Budget, l: Ledger, m: Ledger)
    requires Shrinks(l, m) && Safe(b, l)
    ensures Safe(b, m)
  {
    ShrinkingSum(l, m, IsCommitted(), Amount());
    forall from: int, seconds: nat
      ensures Sum(m, InWindow(from, seconds), Amount()) <= Sum(l, InWindow(from, seconds), Amount())
      ensures Sum(m, InWindow(from, seconds), One()) <= Sum(l, InWindow(from, seconds), One())
    {
      ShrinkingSum(l, m, InWindow(from, seconds), Amount());
      ShrinkingSum(l, m, InWindow(from, seconds), One());
    }
  }

  // ------------------------------------------------------------------------------------ reserving

  /** Adding an entry now: a window that contains now looks back no further than the check did. */
  lemma WindowAfterAppend(l: Ledger, e: Entry, seconds: nat, w: Entry -> nat, from: int)
    requires Committed(e)
    ensures from <= e.effectiveAt <= from + seconds ==>
      Sum(l + [e], InWindow(from, seconds), w) <= Sum(l, CommittedSince(e.effectiveAt - seconds), w) + w(e)
    ensures !(from <= e.effectiveAt <= from + seconds) ==>
      Sum(l + [e], InWindow(from, seconds), w) == Sum(l, InWindow(from, seconds), w)
  {
    SumSnoc(l, e, InWindow(from, seconds), w);
    if from <= e.effectiveAt <= from + seconds {
      SumMono(l, InWindow(from, seconds), CommittedSince(e.effectiveAt - seconds), w);
    }
  }

  lemma SpendStaysWithin(l: Ledger, e: Entry, seconds: nat, cap: Option<nat>)
    requires SpendWithin(l, seconds, cap) && Committed(e)
    requires !Exceeds(SpentSince(l, e.effectiveAt - seconds) + e.amountUsd18, cap)
    ensures SpendWithin(l + [e], seconds, cap)
  {
    forall from: int
      ensures cap.Some? ==> Sum(l + [e], InWindow(from, seconds), Amount()) <= cap.value
    {
      WindowAfterAppend(l, e, seconds, Amount(), from);
    }
  }

  lemma RunsStayWithin(l: Ledger, e: Entry, seconds: nat, cap: Option<nat>)
    requires RunsWithin(l, seconds, cap) && Committed(e)
    requires !Reaches(RunCountSince(l, e.effectiveAt - seconds), cap)
    ensures RunsWithin(l + [e], seconds, cap)
  {
    forall from: int
      ensures cap.Some? ==> Sum(l + [e], InWindow(from, seconds), One()) <= cap.value
    {
      WindowAfterAppend(l, e, seconds, One(), from);
    }
  }

  lemma {:induction false} LastIsLatest(l: Ledger, i: nat)
    requires i < |l| && Committed(l[i])
    ensures LastEffectiveAt(l).Some? && l[i].effectiveAt <= LastEffectiveAt(l).value
  {
    if i < |l| - 1 {
      LastIsLatest(l[..|l| - 1], i);
    }
  }

  lemma SpacedAfterAppend(b: Budget, l: Ledger, e: Entry)
    requires Spaced(l, b.cooldownSeconds) && UpTo(l, e.effectiveAt)
    requires var last := LastEffectiveAt(l);
             !(b.cooldownSeconds > 0 && last.Some? && e.effectiveAt - last.value < b.cooldownSeconds)
    ensures Spaced(l + [e], b.cooldownSeconds)
  {
    forall i | 0 <= i < |l| && Committed(l[i])
      ensures l[i].effectiveAt + b.cooldownSeconds <= e.effectiveAt
    {
      LastIsLatest(l, i);
    }
  }

  /** What the check passed is within the two caps that do not look at time. */
  lemma PassedAmountFits(b: Budget, l: Ledger, e: Entry)
    requires Blocked(b, l, e.amountUsd18, e.feeUsd18, e.effectiveAt).None?
    ensures e.amountUsd18 <= b.maxPerRunUsd18
    ensures b.maxTotalUsd18.Some? ==> Spent(l) + e.amountUsd18 <= b.maxTotalUsd18.value
  {
  }

  lemma TotalsAfterAppend(b: Budget, l: Ledger, e: Entry)
    requires Safe(b, l) && e.state == Reserved
    requires Blocked(b, l, e.amountUsd18, e.feeUsd18, e.effectiveAt).None?
    ensures forall i :: 0 <= i < |l + [e]| && Committed((l + [e])[i]) ==> (l + [e])[i].amountUsd18 <= b.maxPerRunUsd18
    ensures b.maxTotalUsd18.Some? ==> Spent(l + [e]) <= b.maxTotalUsd18.value
  {
    SumSnoc(l, e, IsCommitted(), Amount());
    PassedAmountFits(b, l, e);
    forall i | 0 <= i < |l + [e]| && Committed((l + [e])[i])
      ensures (l + [e])[i].amountUsd18 <= b.maxPerRunUsd18
    {
      if i < |l| {
        assert (l + [e])[i] == l[i];
      }
    }
  }

  lemma WindowsAfterAppend(b: Budget, l: Ledger, e: Entry)
    requires Safe(b, l) && e.state == Reserved
    requires Blocked(b, l, e.amountUsd18, e.feeUsd18, e.effectiveAt).None?
    ensures SpendWithin(l + [e], 86_400, b.maxPerDayUsd18)
    ensures b.rollingWindow.Some? ==>
      SpendWithin(l + [e], b.rollingWindow.value.seconds, Some(b.rollingWindow.value.capUsd18))
    ensures RunsWithin(l + [e], 3_600, b.maxRunsPerHour) && RunsWithin(l + [e], 86_400, b.maxRunsPerDay)
  {
    SpendStaysWithin(l, e, 86_400, b.maxPerDayUsd18);
    if b.rollingWindow.Some? {
      SpendStaysWithin(l, e, b.rollingWindow.value.seconds, Some(b.rollingWindow.value.capUsd18));
    }
    RunsStayWithin(l, e, 3_600, b.maxRunsPerHour);
    RunsStayWithin(l, e, 86_400, b.maxRunsPerDay);
  }

  lemma ReservingStaysSafe(b: Budget, l: Ledger, e: Entry)
    requires Safe(b, l) && UpTo(l, e.effectiveAt) && e.state == Reserved
    requires Blocked(b, l, e.amountUsd18, e.feeUsd18, e.effectiveAt).None?
    ensures Safe(b, l + [e])
  {
    TotalsAfterAppend(b, l, e);
    WindowsAfterAppend(b, l, e);
    SpacedAfterAppend(b, l, e);
  }

  // ------------------------------------------------------------------------------- over every run

  lemma StepStaysSafe(b: Budget, l: Ledger, op: Op, clock: nat)
    requires Safe(b, l) && SettleTogether(l) && UpTo(l, clock) && (op.Spend? ==> clock <= op.now)
    ensures Safe(b, Apply(b, l, op)) && SettleTogether(Apply(b, l, op))
    ensures UpTo(Apply(b, l, op), if op.Spend? then op.now else clock)
  {
    match op {
      case Spend(runId, amount, fee, now) =>
        var e := Entry(Lower(runId), Reserved, amount, fee, now);
        if Apply(b, l, op) == l + [e] && Blocked(b, l, amount, fee, now).None? {
          ReservingStaysSafe(b, l, e);
        }
      case Settle(runId) => SettlingStaysSafe(b, l, runId, Confirmed, clock);
      case Abandon(runId) => SettlingStaysSafe(b, l, runId, Released, clock);
    }
  }

  lemma SettlingStaysSafe(b: Budget, l: Ledger, runId: string, state: EntryState, clock: nat)
    requires Safe(b, l) && SettleTogether(l) && UpTo(l, clock) && state != Reserved
    ensures Find(l, runId).Some? && Find(l, runId).value.state == Reserved ==>
      var m := WithState(l, runId, state);
      Safe(b, m) && SettleTogether(m) && UpTo(m, clock)
  {
    if Find(l, runId).Some? && Find(l, runId).value.state == Reserved {
      SettlingShrinks(l, runId, state);
      ShrinkingStaysSafe(b, l, WithState(l, runId, state));
    }
  }

  /**
   * Sliding-window safety: after any interleaving of checked reservations, confirmations and releases
   * under a clock that does not go back, every window is within its cap.
   */
  lemma {:induction false} EveryRunIsSafe(b: Budget, ops: seq<Op>)
    requires ClockNeverGoesBack(ops)
    ensures Safe(b, After(b, ops)) && SettleTogether(After(b, ops)) && UpTo(After(b, ops), Clock(ops))
  {
    if ops != [] {
      EveryRunIsSafe(b, ops[..|ops| - 1]);
      StepStaysSafe(b, After(b, ops[..|ops| - 1]), ops[|ops| - 1], Clock(ops[..|ops| - 1]));
    }
  }

  /** What happened stays: entries are never dropped or altered, and a settled state is final. */
  predicate Extends(l: Ledger, m: Ledger) {
    |l| <= |m| && forall i :: 0 <= i < |l| ==>
      m[i] == l[i].(state := m[i].state) && (l[i].state == Reserved || m[i].state == l[i].state)
  }

  lemma {:induction false} SettledIsFinal(b: Budget, ops: seq<Op>, k: nat)
    requires ClockNeverGoesBack(ops) && k <= |ops|
    ensures Extends(After(b, ops[..k]), After(b, ops))
  {
    if k == |ops| {
      assert ops[..k] == ops;
    } else {
      var front := ops[..|ops| - 1];
      SettledIsFinal(b, front, k);
      assert front[..k] == ops[..k];
      EveryRunIsSafe(b, front);
      StepExtends(b, After(b, front), ops[|ops| - 1]);
    }
  }

  lemma StepExtends(b: Budget, l: Ledger, op: Op)
    requires SettleTogether(l)
    ensures Extends(l, Apply(b, l, op))
  {
    if !op.Spend? && Find(l, op.runId).Some? && Find(l, op.runId).value.state == Reserved {
      SettlingShrinks(l, op.runId, if op.Settle? then Confirmed else Released);
    }
  }

  // ------------------------------------------------------------------------------- idempotence

  lemma {:induction false} FindAppended(l: Ledger, e: Entry, runId: string)
    requires Find(l, runId).None?
    ensures Find(l + [e], runId) == if e.runId == runId then Some(e) else None
  {
    if l == [] {
      assert (l + [e])[1..] == [];
    } else {
      FindAppended(l[1..], e, runId);
      assert (l + [e])[1..] == l[1..] + [e];
    }
  }

  /**
   * A second reservation of a new run is a no-op, whatever its amount, exactly when the id given is
   * already in the lower case in which it is stored.
   */
  lemma ReservingTwice(l: Ledger, runId: string, amount: nat, fee: nat, at: nat, amount': nat, fee': nat, at': nat)
    requires Find(l, runId).None? && IsHex32(runId)
    ensures
      var once := Reserve(l, runId, amount, fee, at);
      && once.Ok? && |once.value| == |l| + 1
      && (Reserve(once.value, runId, amount', fee', at') == once <==> Lower(runId) == runId)
  {
    var e := Entry(Lower(runId), Reserved, amount, fee, at);
    FindAppended(l, e, runId);
    assert |l + [e] + [Entry(Lower(runId), Reserved, amount', fee', at')]| == |l| + 2;
  }

  /** Reserving an id of upper-case digits twice leaves two entries. */
  lemma UpperCaseReservesTwice()
    ensures
      var id := "0x" + seq(64, _ => 'A');
      var once := Reserve([], id, 1, 0, 0);
      IsHex32(id) && once.Ok? && Reserve(once.value, id, 1, 0, 0) != once
  {
    var id := "0x" + seq(64, _ => 'A');
    assert Lower(id)[2] != id[2];
    ReservingTwice([], id, 1, 0, 0, 1, 0, 0);
  }

  // ------------------------------------------------------------------------------------- the fee cap

  function OutstandingFees(l: Ledger): nat {
    Sum(l, InState(Reserved), FeeOf())
  }

  /** The fee part of the check. */
  predicate FeePasses(b: Budget, l: Ledger, fee: nat) {
    !Exceeds(FeeSpent(l) + fee, b.maxFeeUsd18)
  }

  /**
   * The fee check sees confirmed fees only. It keeps the fees of all committed runs within the cap
   * for every fee it passes exactly when no reserved run carries a fee.
   */
  lemma FeeCheckBoundsCommitments(b: Budget, l: Ledger)
    requires b.maxFeeUsd18.Some? && FeeSpent(l) <= b.maxFeeUsd18.value
    ensures (forall fee: nat :: FeePasses(b, l, fee) ==>
               FeeSpent(l) + OutstandingFees(l) + fee <= b.maxFeeUsd18.value)
            <==> OutstandingFees(l) == 0
  {
    var room: nat := b.maxFeeUsd18.value - FeeSpent(l);
    assert FeePasses(b, l, room);
  }

  /** Each reservation of the run is made while no other reserved run carries a fee. */
  predicate OneFeeAtATime(b: Budget, ops: seq<Op>) {
    ops != [] ==>
      && OneFeeAtATime(b, ops[..|ops| - 1])
      && (ops[|ops| - 1].Spend? ==> OutstandingFees(After(b, ops[..|ops| - 1])) == 0)
  }

  /** Settling a run moves its fees between the two sums, or out of both. */
  lemma {:induction false} FeesMove(l: Ledger, m: Ledger)
    requires |l| == |m|
    requires forall i :: 0 <= i < |l| ==>
      m[i].feeUsd18 == l[i].feeUsd18 && (m[i].state == l[i].state || l[i].state == Reserved)
    ensures FeeSpent(m) + OutstandingFees(m) <= FeeSpent(l) + OutstandingFees(l)
  {
    if l != [] {
      FeesMove(l[..|l| - 1], m[..|m| - 1]);
    }
  }

  /** With one fee outstanding at a time, confirmed and reserved fees together never exceed the cap. */
  lemma {:induction false} FeesStayCapped(b: Budget, ops: seq<Op>)
    requires b.maxFeeUsd18.Some? && ClockNeverGoesBack(ops) && OneFeeAtATime(b, ops)
    ensures FeeSpent(After(b, ops)) + OutstandingFees(After(b, ops)) <= b.maxFeeUsd18.value
  {
    if ops != [] {
      var l, op := After(b, ops[..|ops| - 1]), ops[|ops| - 1];
      FeesStayCapped(b, ops[..|ops| - 1]);
      EveryRunIsSafe(b, ops[..|ops| - 1]);
      StepExtends(b, l, op);
      var m := Apply(b, l, op);
      if |m| == |l| {
        FeesMove(l, m);
      } else {
        var e := m[|l|];
        assert m == l + [e];
        SumSnoc(l, e, InState(Confirmed), FeeOf());
        SumSnoc(l, e, InState(Reserved), FeeOf());
      }
    }
  }

  const FEE_BUDGET := Budget(10, None, None, None, None, None, Some(3), 0)

  /** The run id of 64 times the same hexadecimal digit. */
  function RunId(digit: char): (id: string)
    requires '0' <= digit <= '9' || 'a' <= digit <= 'f'
    ensures IsHex32(id) && Lower(id) == id && id[2] == digit
  {
    "0x" + seq(64, _ => digit)
  }

  /** Two reservations outstanding at once can both be confirmed and overrun the fee cap. */
  lemma TwoOutstandingFeesOverrun()
    ensures
      var x, y := RunId('a'), RunId('b');
      FeeSpent(After(FEE_BUDGET, [Spend(x, 1, 2, 0), Spend(y, 1, 2, 0), Settle(x), Settle(y)])) == 4
      && FEE_BUDGET.maxFeeUsd18 == Some(3)
  {
    var x, y := RunId('a'), RunId('b');
    var ops := [Spend(x, 1, 2, 0), Spend(y, 1, 2, 0), Settle(x), Settle(y)];
    var e, f := Entry(x, Reserved, 1, 2, 0), Entry(y, Reserved, 1, 2, 0);
    var e', f' := e.(state := Confirmed), f.(state := Confirmed);
    assert x[2] != y[2];
    TwoReserved(x, y);
    assert ops[..3][..2] == [Spend(x, 1, 2, 0), Spend(y, 1, 2, 0)];
    BothSettle(FEE_BUDGET, e, f);
    assert After(FEE_BUDGET, ops[..3]) == Apply(FEE_BUDGET, [e, f], Settle(x));
    assert After(FEE_BUDGET, ops) == Apply(FEE_BUDGET, [e', f], Settle(y));
    SumSnoc([e'], f', InState(Confirmed), FeeOf());
    SumSnoc([], e', InState(Confirmed), FeeOf());
    assert [] + [e'] == [e'] && [e'] + [f'] == [e', f'];
  }

  lemma BothSettle(b: Budget, e: Entry, f: Entry)
    requires e.state == Reserved && f.state == Reserved && e.runId != f.runId
    ensures
      var e', f' := e.(state := Confirmed), f.(state := Confirmed);
      Apply(b, [e, f], Settle(e.runId)) == [e', f] && Apply(b, [e', f], Settle(f.runId)) == [e', f']
  {
    var e', f' := e.(state := Confirmed), f.(state := Confirmed);
    PairWithState(e, f, e.runId, Confirmed);
    PairWithState(e', f, f.runId, Confirmed);
    assert [e', f][1..] == [f];
    assert Find([e, f], e.runId) == Some(e) && Find([e', f], f.runId) == Some(f);
  }

  lemma PairWithState(e: Entry, f: Entry, runId: string, state: EntryState)
    requires e.runId != f.runId
    ensures WithState([e, f], runId, state)
            == [if e.runId == runId then e.(state := state) else e, if f.runId == runId then f.(state := state) else f]
  {
    var m := WithState([e, f], runId, state);
    assert m == [m[0], m[1]];
  }

  lemma TwoReserved(x: string, y: string)
    requires IsHex32(x) && IsHex32(y) && Lower(x) == x && Lower(y) == y && x != y
    ensures After(FEE_BUDGET, [Spend(x, 1, 2, 0), Spend(y, 1, 2, 0)])
         == [Entry(x, Reserved, 1, 2, 0), Entry(y, Reserved, 1, 2, 0)]
  {
    var ops := [Spend(x, 1, 2, 0), Spend(y, 1, 2, 0)];
    var e := Entry(x, Reserved, 1, 2, 0);
    assert ops[..1][..0] == [] && After(FEE_BUDGET, []) == [];
    assert FeeSpent([]) == 0 && Find([], x).None?;
    assert After(FEE_BUDGET, ops[..1]) == Apply(FEE_BUDGET, [], Spend(x, 1, 2, 0)) == [e];
    assert [e][1..] == [] && Find([e], y).None?;
    SumSnoc([], e, InState(Confirmed), FeeOf());
    assert [] + [e] == [e] && FeeSpent([e]) == 0;
    assert After(FEE_BUDGET, ops) == Apply(FEE_BUDGET, [e], Spend(y, 1, 2, 0));
  }
}
