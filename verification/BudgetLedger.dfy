/**
 * packages/schemas/src/sentinel-budget.ts: a ledger of reservations that are confirmed or released,
 * and the check a run must pass before it reserves.
 */
module BudgetLedger {
  import opened Wrappers

  datatype EntryState = Reserved | Confirmed | Released

  datatype Entry = Entry(runId: string, state: EntryState, amountUsd18: nat, feeUsd18: nat, effectiveAt: nat)

  type Ledger = seq<Entry>

  datatype Window = Window(seconds: nat, capUsd18: nat)

  datatype Budget = Budget(
    maxPerRunUsd18: nat,
    maxPerDayUsd18: Option<nat>,
    rollingWindow: Option<Window>,
    maxTotalUsd18: Option<nat>,
    maxRunsPerHour: Option<nat>,
    maxRunsPerDay: Option<nat>,
    maxFeeUsd18: Option<nat>,
    cooldownSeconds: nat)

  datatype LedgerError = InvalidEntry | UnknownRun | AlreadyReleased | AlreadyConfirmed

  datatype Reason = PerRun | Total | Daily | Rolling | Fee | RunsPerHour | RunsPerDay | Cooldown

  // ------------------------------------------------------------------------------------- run ids

  predicate IsHexDigit(c: char) {
    '0' <= c <= '9' || 'a' <= c <= 'f' || 'A' <= c <= 'F'
  }

  /** A 32-byte hex string, in either case. */
  predicate IsHex32(s: string) {
    |s| == 66 && s[0] == '0' && s[1] == 'x' && forall i :: 2 <= i < 66 ==> IsHexDigit(s[i])
  }

  function LowerChar(c: char): char {
    if 'A' <= c <= 'Z' then (c as int - 'A' as int + 'a' as int) as char else c
  }

  /** The schema stores a run id in lower case. */
  function Lower(s: string): (l: string)
    ensures |l| == |s|
  {
    seq(|s|, i requires 0 <= i < |s| => LowerChar(s[i]))
  }

  // ------------------------------------------------------------------------------- the operations

  function Find(l: Ledger, runId: string): Option<Entry> {
    if l == [] then None
    else if l[0].runId == runId then Some(l[0])
    else Find(l[1..], runId)
  }

  function Reserve(l: Ledger, runId: string, amount: nat, fee: nat, effectiveAt: int): Result<Ledger, LedgerError> {
    if Find(l, runId).Some? then Ok(l)
    else if !IsHex32(runId) || effectiveAt < 0 then Err(InvalidEntry)
    else Ok(l + [Entry(Lower(runId), Reserved, amount, fee, effectiveAt)])
  }

  function WithState(l: Ledger, runId: string, state: EntryState): (r: Ledger)
    ensures |r| == |l|
  {
    seq(|l|, i requires 0 <= i < |l| => if l[i].runId == runId then l[i].(state := state) else l[i])
  }

  function Confirm(l: Ledger, runId: string): Result<Ledger, LedgerError> {
    match Find(l, runId)
    case None => Err(UnknownRun)
    case Some(e) =>
      match e.state
      case Confirmed => Ok(l)
      case Released => Err(AlreadyReleased)
      case Reserved => Ok(WithState(l, runId, Confirmed))
  }

  function Release(l: Ledger, runId: string): Result<Ledger, LedgerError> {
    match Find(l, runId)
    case None => Err(UnknownRun)
    case Some(e) =>
      match e.state
      case Released => Ok(l)
      case Confirmed => Err(AlreadyConfirmed)
      case Reserved => Ok(WithState(l, runId, Released))
  }

  // ---------------------------------------------------------------------------------- the queries

  /** Filter and add up. */
  function Sum(l: Ledger, keep: Entry -> bool, weight: Entry -> nat): nat {
    if l == [] then 0
    else Sum(l[..|l| - 1], keep, weight) + if keep(l[|l| - 1]) then weight(l[|l| - 1]) else 0
  }

  predicate Committed(e: Entry) {
    e.state != Released
  }

  function InState(state: EntryState): Entry -> bool {
    (e: Entry) => e.state == state
  }

  function IsCommitted(): Entry -> bool {
    (e: Entry) => Committed(e)
  }

  function CommittedSince(since: int): Entry -> bool {
    (e: Entry) => Committed(e) && e.effectiveAt >= since
  }

  function Amount(): Entry -> nat {
    (e: Entry) => e.amountUsd18
  }

  function FeeOf(): Entry -> nat {
    (e: Entry) => e.feeUsd18
  }

  function One(): Entry -> nat {
    (e: Entry) => 1
  }

  function Spent(l: Ledger): nat {
    Sum(l, IsCommitted(), Amount())
  }

  function SpentSince(l: Ledger, since: int): nat {
    Sum(l, CommittedSince(since), Amount())
  }

  function FeeSpent(l: Ledger): nat {
    Sum(l, InState(Confirmed), FeeOf())
  }

  function RunCountSince(l: Ledger, since: int): nat {
    Sum(l, CommittedSince(since), One())
  }

  /** The latest time of a committed entry, if there is one. */
  function LastEffectiveAt(l: Ledger): Option<nat> {
    if l == [] then None
    else
      var before, e := LastEffectiveAt(l[..|l| - 1]), l[|l| - 1];
      if !Committed(e) then before
      else if before.Some? && before.value > e.effectiveAt then before
      else Some(e.effectiveAt)
  }

  predicate Exceeds(amount: nat, cap: Option<nat>) {
    cap.Some? && amount > cap.value
  }

  predicate Reaches(count: nat, cap: Option<nat>) {
    cap.Some? && count >= cap.value
  }

  /** Why a run of this amount and fee would leave the budget now; nothing when it stays within. */
  function Blocked(b: Budget, l: Ledger, amount: nat, fee: nat, now: int): Option<Reason> {
    if amount > b.maxPerRunUsd18 then Some(PerRun)
    else if Exceeds(Spent(l) + amount, b.maxTotalUsd18) then Some(Total)
    else if Exceeds(SpentSince(l, now - 86_400) + amount, b.maxPerDayUsd18) then Some(Daily)
    else if b.rollingWindow.Some?
            && SpentSince(l, now - b.rollingWindow.value.seconds) + amount > b.rollingWindow.value.capUsd18
    then Some(Rolling)
    else if Exceeds(FeeSpent(l) + fee, b.maxFeeUsd18) then Some(Fee)
    else if Reaches(RunCountSince(l, now - 3_600), b.maxRunsPerHour) then Some(RunsPerHour)
    else if Reaches(RunCountSince(l, now - 86_400), b.maxRunsPerDay) then Some(RunsPerDay)
    else
      var last := LastEffectiveAt(l);
      if b.cooldownSeconds > 0 && last.Some? && now - last.value < b.cooldownSeconds then Some(Cooldown)
      else None
  }

  // ---------------------------------------------------------------------------------------- runs

  datatype Op =
    | Spend(runId: string, amount: nat, fee: nat, now: nat)
    | Settle(runId: string)
    | Abandon(runId: string)

  /** One event: a reservation only after a passing check, a confirmation, or a release. */
  function Apply(b: Budget, l: Ledger, op: Op): Ledger {
    var next :=
      match op
      case Spend(runId, amount, fee, now) =>
        if Blocked(b, l, amount, fee, now).Some? then Ok(l) else Reserve(l, runId, amount, fee, now)
      case Settle(runId) => Confirm(l, runId)
      case Abandon(runId) => Release(l, runId);
    if next.Ok? then next.value else l
  }

  function After(b: Budget, ops: seq<Op>): Ledger {
    if ops == [] then [] else Apply(b, After(b, ops[..|ops| - 1]), ops[|ops| - 1])
  }

  /** The time of the latest spending attempt. */
  function Clock(ops: seq<Op>): nat {
    if ops == [] then 0
    else if ops[|ops| - 1].Spend? then ops[|ops| - 1].now
    else Clock(ops[..|ops| - 1])
  }

  /** Spending attempts carry a clock that never goes back. */
  predicate ClockNeverGoesBack(ops: seq<Op>) {
    ops != [] ==>
      && ClockNeverGoesBack(ops[..|ops| - 1])
      && Clock(ops[..|ops| - 1]) <= Clock(ops)
  }
}
