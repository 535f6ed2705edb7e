/**
 * What each operation does to a ledger, what the queries count, and exactly when a run is within its budget.
 */
module BudgetEffects {
  import opened Wrappers
  import opened BudgetLedger
  import opened BudgetSafety

  // ----------------------------------------------------------------------------- what is counted

  /** One more entry: reserved and confirmed amounts are spent, confirmed fees only, and runs count alike. */
  lemma OneMoreEntry(l: Ledger, e: Entry, since: int)
    ensures Spent([]) == 0 && SpentSince([], since) == 0 && FeeSpent([]) == 0 && RunCountSince([], since) == 0
    ensures Spent(l + [e]) == Spent(l) + if e.state == Released then 0 else e.amountUsd18
    ensures SpentSince(l + [e], since)
            == SpentSince(l, since) + if e.state != Released && since <= e.effectiveAt then e.amountUsd18 else 0
    ensures FeeSpent(l + [e]) == FeeSpent(l) + if e.state == Confirmed then e.feeUsd18 else 0
    ensures RunCountSince(l + [e], since)
            == RunCountSince(l, since) + if e.state != Released && since <= e.effectiveAt then 1 else 0
  {
    SumSnoc(l, e, IsCommitted(), Amount());
    SumSnoc(l, e, CommittedSince(since), Amount());
    SumSnoc(l, e, InState(Confirmed), FeeOf());
    SumSnoc(l, e, CommittedSince(since), One());
  }

  /** The latest time is that of some entry not released, and none is later; there is none without one. */
  lemma {:induction false} LatestIsLatest(l: Ledger)
    ensures LastEffectiveAt(l).Some? <==> exists i :: 0 <= i < |l| && l[i].state != Released
    ensures LastEffectiveAt(l).Some? ==>
      exists i :: 0 <= i < |l| && l[i].state != Released && l[i].effectiveAt == LastEffectiveAt(l).value
    ensures forall i :: 0 <= i < |l| && l[i].state != Released ==>
      LastEffectiveAt(l).Some? && l[i].effectiveAt <= LastEffectiveAt(l).value
  {
    if l != [] {
      var n := |l| - 1;
      LatestIsLatest(l[..n]);
      assert forall i :: 0 <= i < n ==> l[..n][i] == l[i];
      if LastEffectiveAt(l[..n]).Some? {
        var i :| 0 <= i < n && l[..n][i].state != Released
                 && l[..n][i].effectiveAt == LastEffectiveAt(l[..n]).value;
        assert l[i] == l[..n][i];
      }
    }
  }

  // --------------------------------------------------------------------------------- the check

  /** A run passes exactly when all eight limits leave room for it. */
  lemma PassesExactlyWhen(b: Budget, l: Ledger, amount: nat, fee: nat, now: int)
    ensures Blocked(b, l, amount, fee, now).None?
            <==> amount <= b.maxPerRunUsd18
                 && (b.maxTotalUsd18.Some? ==> Spent(l) + amount <= b.maxTotalUsd18.value)
                 && (b.maxPerDayUsd18.Some? ==> SpentSince(l, now - 86_400) + amount <= b.maxPerDayUsd18.value)
                 && (b.rollingWindow.Some? ==>
                       SpentSince(l, now - b.rollingWindow.value.seconds) + amount <= b.rollingWindow.value.capUsd18)
                 && (b.maxFeeUsd18.Some? ==> FeeSpent(l) + fee <= b.maxFeeUsd18.value)
                 && (b.maxRunsPerHour.Some? ==> RunCountSince(l, now - 3_600) < b.maxRunsPerHour.value)
                 && (b.maxRunsPerDay.Some? ==> RunCountSince(l, now - 86_400) < b.maxRunsPerDay.value)
                 && (forall i :: 0 <= i < |l| && l[i].state != Released ==>
                       b.cooldownSeconds == 0 || l[i].effectiveAt + b.cooldownSeconds <= now)
  {
    LatestIsLatest(l);
  }

  /** The limit that a reason names leaves no room. */
  predicate Breached(b: Budget, l: Ledger, amount: nat, fee: nat, now: int, reason: Reason) {
    match reason
    case PerRun => amount > b.maxPerRunUsd18
    case Total => b.maxTotalUsd18.Some? && Spent(l) + amount > b.maxTotalUsd18.value
    case Daily => b.maxPerDayUsd18.Some? && SpentSince(l, now - 86_400) + amount > b.maxPerDayUsd18.value
    case Rolling =>
      b.rollingWindow.Some?
      && SpentSince(l, now - b.rollingWindow.value.seconds) + amount > b.rollingWindow.value.capUsd18
    case Fee => b.maxFeeUsd18.Some? && FeeSpent(l) + fee > b.maxFeeUsd18.value
    case RunsPerHour => b.maxRunsPerHour.Some? && RunCountSince(l, now - 3_600) >= b.maxRunsPerHour.value
    case RunsPerDay => b.maxRunsPerDay.Some? && RunCountSince(l, now - 86_400) >= b.maxRunsPerDay.value
    case Cooldown => exists i :: 0 <= i < |l| && l[i].state != Released && now < l[i].effectiveAt + b.cooldownSeconds
  }

  const REASONS: seq<Reason> := [PerRun, Total, Daily, Rolling, Fee, RunsPerHour, RunsPerDay, Cooldown]

  /** The reason given is the first limit, in this order, that leaves no room. */
  lemma ReasonIsFirst(b: Budget, l: Ledger, amount: nat, fee: nat, now: int) returns (k: nat)
    requires Blocked(b, l, amount, fee, now).Some?
    ensures k < |REASONS| && Blocked(b, l, amount, fee, now) == Some(REASONS[k])
    ensures Breached(b, l, amount, fee, now, REASONS[k])
    ensures forall j :: 0 <= j < k ==> !Breached(b, l, amount, fee, now, REASONS[j])
  {
    LatestIsLatest(l);
    k := match Blocked(b, l, amount, fee, now).value
         case PerRun => 0
         case Total => 1
         case Daily => 2
         case Rolling => 3
         case Fee => 4
         case RunsPerHour => 5
         case RunsPerDay => 6
         case Cooldown => 7;
  }

  // ------------------------------------------------------------------------------ the operations

  predicate Known(l: Ledger, runId: string) {
    exists i :: 0 <= i < |l| && l[i].runId == runId
  }

  /** The state of a run is that of its first entry. */
  lemma {:induction false} FindMeans(l: Ledger, runId: string)
    ensures Find(l, runId).Some? <==> Known(l, runId)
    ensures Find(l, runId).Some? ==>
      exists i :: 0 <= i < |l| && l[i] == Find(l, runId).value && l[i].runId == runId
                  && forall j :: 0 <= j < i ==> l[j].runId != runId
  {
    if l != [] && l[0].runId != runId {
      FindMeans(l[1..], runId);
      assert forall i :: 0 < i < |l| ==> l[i] == l[1..][i - 1];
      if Known(l, runId) {
        var i :| 0 <= i < |l| && l[i].runId == runId;
        assert l[1..][i - 1].runId == runId;
      }
      if Find(l[1..], runId).Some? {
        var i :| 0 <= i < |l[1..]| && l[1..][i] == Find(l, runId).value && l[1..][i].runId == runId
                 && forall j :: 0 <= j < i ==> l[1..][j].runId != runId;
        assert l[i + 1] == l[1..][i];
      }
    } else if l != [] {
      assert l[0] == Find(l, runId).value;
    }
  }

  /** An id is stored with its letters in lower case and is as given exactly when it has no upper-case letter. */
  lemma StoredInLowerCase(id: string)
    ensures |Lower(id)| == |id|
    ensures forall i :: 0 <= i < |id| ==>
      Lower(id)[i] as int == if 65 <= id[i] as int <= 90 then id[i] as int + 32 else id[i] as int
    ensures Lower(id) == id <==> forall i :: 0 <= i < |id| ==> !(65 <= id[i] as int <= 90)
  {
    assert forall i :: 0 <= i < |id| ==> Lower(id)[i] == LowerChar(id[i]);
  }

  /** A reservation appends one reserved entry for an unknown run, and changes nothing for a known one. */
  lemma ReserveMeans(l: Ledger, runId: string, amount: nat, fee: nat, at: int)
    ensures Known(l, runId) ==> Reserve(l, runId, amount, fee, at) == Ok(l)
    ensures !Known(l, runId) && (!IsHex32(runId) || at < 0) ==> Reserve(l, runId, amount, fee, at) == Err(InvalidEntry)
    ensures !Known(l, runId) && IsHex32(runId) && 0 <= at ==>
      Reserve(l, runId, amount, fee, at) == Ok(l + [Entry(Lower(runId), Reserved, amount, fee, at)])
  {
    FindMeans(l, runId);
  }

  function OfRun(runId: string): Entry -> bool {
    (e: Entry) => e.runId == runId
  }

  /** Every entry of the run, and only those, is in the new state. */
  predicate Becomes(l: Ledger, m: Ledger, runId: string, state: EntryState) {
    |m| == |l| && forall i :: 0 <= i < |l| ==> m[i] == if l[i].runId == runId then l[i].(state := state) else l[i]
  }

  /** All entries of the run are reserved. */
  predicate AllReserved(l: Ledger, runId: string) {
    Known(l, runId) && forall i :: 0 <= i < |l| && l[i].runId == runId ==> l[i].state == Reserved
  }

  lemma {:induction false} ReleasedSums(l: Ledger, m: Ledger, runId: string)
    requires Becomes(l, m, runId, Released)
    requires forall i :: 0 <= i < |l| && l[i].runId == runId ==> l[i].state == Reserved
    ensures Spent(m) + Sum(l, OfRun(runId), Amount()) == Spent(l) && FeeSpent(m) == FeeSpent(l)
  {
    if l != [] {
      ReleasedSums(l[..|l| - 1], m[..|m| - 1], runId);
    }
  }

  lemma {:induction false} ConfirmedSums(l: Ledger, m: Ledger, runId: string)
    requires Becomes(l, m, runId, Confirmed)
    requires forall i :: 0 <= i < |l| && l[i].runId == runId ==> l[i].state == Reserved
    ensures Spent(m) == Spent(l) && FeeSpent(m) == FeeSpent(l) + Sum(l, OfRun(runId), FeeOf())
  {
    if l != [] {
      ConfirmedSums(l[..|l| - 1], m[..|m| - 1], runId);
    }
  }

  /** Releasing a reserved run releases it: its amounts are no longer spent, and no fee is. */
  lemma ReleaseMeans(l: Ledger, runId: string)
    requires AllReserved(l, runId)
    ensures
      var m := Release(l, runId);
      && m.Ok? && Becomes(l, m.value, runId, Released)
      && Spent(m.value) + Sum(l, OfRun(runId), Amount()) == Spent(l)
      && FeeSpent(m.value) == FeeSpent(l)
  {
    FindMeans(l, runId);
    ReleasedSums(l, WithState(l, runId, Released), runId);
  }

  /** Confirming a reserved run confirms it: its amounts stay spent, and its fees are spent from now on. */
  lemma ConfirmMeans(l: Ledger, runId: string)
    requires AllReserved(l, runId)
    ensures
      var m := Confirm(l, runId);
      && m.Ok? && Becomes(l, m.value, runId, Confirmed)
      && Spent(m.value) == Spent(l)
      && FeeSpent(m.value) == FeeSpent(l) + Sum(l, OfRun(runId), FeeOf())
  {
    FindMeans(l, runId);
    ConfirmedSums(l, WithState(l, runId, Confirmed), runId);
  }

  /** The first entry of a known run. */
  predicate FirstState(l: Ledger, runId: string, state: EntryState) {
    exists i :: 0 <= i < |l| && l[i].runId == runId && l[i].state == state
                && forall j :: 0 <= j < i ==> l[j].runId != runId
  }

  /** What is refused, and what is done already. */
  lemma SettlingAgain(l: Ledger, runId: string)
    ensures !Known(l, runId) ==> Confirm(l, runId) == Err(UnknownRun) && Release(l, runId) == Err(UnknownRun)
    ensures FirstState(l, runId, Confirmed) ==> Confirm(l, runId) == Ok(l) && Release(l, runId) == Err(AlreadyConfirmed)
    ensures FirstState(l, runId, Released) ==> Release(l, runId) == Ok(l) && Confirm(l, runId) == Err(AlreadyReleased)
  {
    FindMeans(l, runId);
  }

  // ----------------------------------------------------------------------------- over every run

  /** In every ledger a run can reach, a run whose first entry is reserved is reserved throughout. */
  lemma ReservedThroughout(b: Budget, ops: seq<Op>, runId: string)
    requires ClockNeverGoesBack(ops) && FirstState(After(b, ops), runId, Reserved)
    ensures AllReserved(After(b, ops), runId)
  {
    EveryRunIsSafe(b, ops);
    FindMeans(After(b, ops), runId);
    SettlingShrinks(After(b, ops), runId, Released);
  }

  /** The entry was reserved by some attempt, and its state has its reason. */
  ghost predicate HasReason(ops: seq<Op>, e: Entry) {
    && (exists runId :: Lower(runId) == e.runId && Spend(runId, e.amountUsd18, e.feeUsd18, e.effectiveAt) in ops)
    && (e.state == Confirmed ==> Settle(e.runId) in ops)
    && (e.state == Released ==> Abandon(e.runId) in ops)
  }

  /**
   * Over every run, an entry is there only because it was asked for, with that amount, fee and time; it is
   * confirmed only if its run was settled, and released only if it was abandoned.
   */
  lemma {:induction false} EveryStateHasItsReason(b: Budget, ops: seq<Op>, i: nat)
    requires i < |After(b, ops)|
    ensures HasReason(ops, After(b, ops)[i])
    decreases |ops|
  {
    var front, op := ops[..|ops| - 1], ops[|ops| - 1];
    assert ops == front + [op];
    var l, e := After(b, front), After(b, ops)[i];
    assert e == Apply(b, l, op)[i];
    if i < |l| {
      EveryStateHasItsReason(b, front, i);
    }
    StepHasReason(b, l, front, op, i);
    assert HasReason(front + [op], e);
  }

  lemma StepHasReason(b: Budget, l: Ledger, front: seq<Op>, op: Op, i: nat)
    requires i < |Apply(b, l, op)| && (i < |l| ==> HasReason(front, l[i]))
    ensures HasReason(front + [op], Apply(b, l, op)[i])
  {
    if i < |l| {
      ReasonCarriesOver(b, l, front, op, i);
    } else {
      NewEntryHasReason(b, l, front, op);
    }
  }

  lemma ReasonCarriesOver(b: Budget, l: Ledger, front: seq<Op>, op: Op, i: nat)
    requires i < |l| && HasReason(front, l[i])
    ensures i < |Apply(b, l, op)| && HasReason(front + [op], Apply(b, l, op)[i])
  {
    var runId :| Lower(runId) == l[i].runId && Spend(runId, l[i].amountUsd18, l[i].feeUsd18, l[i].effectiveAt) in front;
    assert Spend(runId, l[i].amountUsd18, l[i].feeUsd18, l[i].effectiveAt) in front + [op];
  }

  lemma NewEntryHasReason(b: Budget, l: Ledger, front: seq<Op>, op: Op)
    requires |l| < |Apply(b, l, op)|
    ensures |Apply(b, l, op)| == |l| + 1 && HasReason(front + [op], Apply(b, l, op)[|l|])
  {
    assert op.Spend? && op in front + [op];
    var e := Apply(b, l, op)[|l|];
    assert op == Spend(op.runId, e.amountUsd18, e.feeUsd18, e.effectiveAt) && Lower(op.runId) == e.runId;
  }
}
