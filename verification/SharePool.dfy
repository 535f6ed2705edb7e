/**
 * packages/corp-actions/src/pool.ts: custody of a rebasing token by shares. Part of the token balance
 * backs the shares; the rest is unattributed surplus.
 */
module SharePool {
  import opened Wrappers

  const WAD: int := 1_000_000_000_000_000_000

  /** A pool state as a value; the amounts are the source's unbounded signed integers. */
  datatype Pool = Pool(totalShares: int, tokenBalance: int, surplus: int, shares: map<string, int>)

  const EMPTY := Pool(0, 0, 0, map[])

  datatype ActionKind = Deposit | Withdraw | Rebase | LiquidationSeize | Fee

  /** An absent account or provenance is the empty string, which the source treats alike. */
  datatype Action = Action(kind: ActionKind, value: int, account: string, provenance: string)

  datatype EffectKind = SharesMinted | SharesBurned | RebaseObserved | UnattributedSurplus | FeeTaken

  datatype Effect = Effect(kind: EffectKind, account: Option<string>, shares: int, rawDelta: int,
                           impliedFactorWad: Option<int>)

  datatype PoolError =
    | NeedsAccount
    | DepositNotPositive
    | MoreSharesThanHeld
    | DivisionByZero
    | UnprovenancedDecrease
    | NegativeFee

  /** Division of the source's integers: towards zero. */
  function TruncDiv(a: int, d: int): int
    requires d != 0
  {
    if (a < 0) == (d < 0) || a == 0 then Abs(a) / Abs(d) else -(Abs(a) / Abs(d))
  }

  function Abs(a: int): nat {
    if a < 0 then -a else a
  }

  function MulDivDown(a: int, b: int, d: int): Result<int, PoolError> {
    if d == 0 then Err(DivisionByZero) else Ok(TruncDiv(a * b, d))
  }

  function SharesOf(p: Pool, account: string): int {
    if account in p.shares then p.shares[account] else 0
  }

  /** Tokens that back shares. */
  function Backed(p: Pool): int {
    p.tokenBalance - p.surplus
  }

  function EffectiveOf(p: Pool, account: string): int {
    if p.totalShares == 0 then 0
    else TruncDiv(SharesOf(p, account) * Backed(p), p.totalShares)
  }

  // --------------------------------------------------------------------------------- one action

  function DepositStep(p: Pool, a: Action): Result<(Pool, Effect), PoolError> {
    if a.account == "" then Err(NeedsAccount)
    else if a.value <= 0 then Err(DepositNotPositive)
    else
      var backed := Backed(p);
      var minted :- if p.totalShares == 0 then Ok(a.value)
                    else MulDivDown(a.value, p.totalShares, if backed == 0 then a.value else backed);
      Ok((Pool(p.totalShares + minted, p.tokenBalance + a.value, p.surplus,
               p.shares[a.account := SharesOf(p, a.account) + minted]),
          Effect(SharesMinted, Some(a.account), minted, a.value, None)))
  }

  function RedeemStep(p: Pool, a: Action): Result<(Pool, Effect), PoolError> {
    if a.account == "" then Err(NeedsAccount)
    else if a.value > SharesOf(p, a.account) then Err(MoreSharesThanHeld)
    else
      var rawOut :- MulDivDown(a.value, Backed(p), p.totalShares);
      Ok((Pool(p.totalShares - a.value, p.tokenBalance - rawOut, p.surplus,
               p.shares[a.account := SharesOf(p, a.account) - a.value]),
          Effect(SharesBurned, Some(a.account), a.value, -rawOut, None)))
  }

  function RebaseStep(p: Pool, a: Action): Result<(Pool, Effect), PoolError> {
    var before := p.tokenBalance;
    var delta := a.value - before;
    if a.provenance == "" then
      if delta < 0 then Err(UnprovenancedDecrease)
      else Ok((Pool(p.totalShares, a.value, p.surplus + delta, p.shares),
               Effect(UnattributedSurplus, None, 0, delta, None)))
    else
      var factor := if before == 0 then WAD else TruncDiv(a.value * WAD, before);
      var surplus := if before == 0 then p.surplus else TruncDiv(p.surplus * a.value, before);
      Ok((Pool(p.totalShares, a.value, surplus, p.shares),
          Effect(RebaseObserved, None, 0, delta, Some(factor))))
  }

  function FeeStep(p: Pool, a: Action): Result<(Pool, Effect), PoolError> {
    if a.value < 0 then Err(NegativeFee)
    else Ok((Pool(p.totalShares, p.tokenBalance - a.value, p.surplus, p.shares),
             Effect(FeeTaken, None, 0, -a.value, None)))
  }

  function Step(p: Pool, a: Action): Result<(Pool, Effect), PoolError> {
    match a.kind
    case Deposit => DepositStep(p, a)
    case Withdraw => RedeemStep(p, a)
    case LiquidationSeize => RedeemStep(p, a)
    case Rebase => RebaseStep(p, a)
    case Fee => FeeStep(p, a)
  }

  // ------------------------------------------------------------------------------ sums over accounts

  ghost function Sum(keys: set<string>, f: string -> int): int
    decreases |keys|
  {
    if keys == {} then 0
    else
      var k :| k in keys;
      f(k) + Sum(keys - {k}, f)
  }

  lemma {:induction false} SumPick(keys: set<string>, f: string -> int, k: string)
    requires k in keys
    ensures Sum(keys, f) == f(k) + Sum(keys - {k}, f)
    decreases |keys|
  {
    var j :| j in keys && Sum(keys, f) == f(j) + Sum(keys - {j}, f);
    if j != k {
      SumPick(keys - {j}, f, k);
      SumPick(keys - {k}, f, j);
      assert keys - {j} - {k} == keys - {k} - {j};
    }
  }

  lemma {:induction false} SumAgrees(keys: set<string>, f: string -> int, g: string -> int)
    requires forall k :: k in keys ==> f(k) == g(k)
    ensures Sum(keys, f) == Sum(keys, g)
    decreases |keys|
  {
    if keys != {} {
      var k :| k in keys;
      SumPick(keys, f, k);
      SumPick(keys, g, k);
      SumAgrees(keys - {k}, f, g);
    }
  }

  function Shares(p: Pool): string -> int {
    account => SharesOf(p, account)
  }

  function Effective(p: Pool): string -> int {
    account => EffectiveOf(p, account)
  }

  ghost function TotalHeld(p: Pool): int {
    Sum(p.shares.Keys, Shares(p))
  }

  ghost function TotalEffective(p: Pool): int {
    Sum(p.shares.Keys, Effective(p))
  }

  // ------------------------------------------------------------------------------- the live object

  datatype Report = Report(ok: bool, totalEffective: int, surplus: int, dust: int, tokenBalance: int)

  /** What the pool reports of itself: the identity holds, no more is owed than backed, no surplus is negative. */
  ghost function ReportOf(p: Pool): Report {
    var te, backed := TotalEffective(p), Backed(p);
    var dust := if backed >= te then backed - te else 0;
    Report(te + p.surplus + dust == p.tokenBalance && te <= backed && p.surplus >= 0,
           te, p.surplus, dust, p.tokenBalance)
  }

  class PoolState {
    var totalShares: int
    var tokenBalance: int
    var unattributedSurplus: int
    var shares: map<string, int>

    /** The state as a value. */
    function View(): Pool
      reads this
    {
      Pool(totalShares, tokenBalance, unattributedSurplus, shares)
    }

    constructor Empty()
      ensures View() == EMPTY
    {
      totalShares, tokenBalance, unattributedSurplus, shares := 0, 0, 0, map[];
    }

    constructor Copy(other: PoolState)
      ensures View() == other.View()
    {
      totalShares, tokenBalance := other.totalShares, other.tokenBalance;
      unattributedSurplus, shares := other.unattributedSurplus, other.shares;
    }

    function BackedBalance(): int
      reads this
    {
      tokenBalance - unattributedSurplus
    }

    function Held(account: string): int
      reads this
    {
      if account in shares then shares[account] else 0
    }

    /** The sum of every account's effective ownership, account by account. */
    method SumEffective() returns (sum: int)
      ensures sum == TotalEffective(View())
    {
      sum := 0;
      var rest := shares.Keys;
      ghost var f := Effective(View());
      while rest != {}
        invariant sum + Sum(rest, f) == TotalEffective(View())
        decreases |rest|
      {
        var account :| account in rest;
        SumPick(rest, f, account);
        sum := sum + EffectiveOf(View(), account);
        rest := rest - {account};
      }
    }

    /** The conservation report the source computes from the sum. */
    method Conservation() returns (r: Report)
      ensures r == ReportOf(View())
    {
      var te := SumEffective();
      var backed := BackedBalance();
      var dust := if backed >= te then backed - te else 0;
      return Report(te + unattributedSurplus + dust == tokenBalance && te <= backed && unattributedSurplus >= 0,
                    te, unattributedSurplus, dust, tokenBalance);
    }

    /** The deposit branch on the copied state. */
    method Mint(a: Action) returns (r: Result<Effect, PoolError>)
      requires a.kind == Deposit
      modifies this
      ensures r.Err? ==> Step(old(View()), a) == Err(r.error)
      ensures r.Ok? ==> Step(old(View()), a) == Ok((View(), r.value))
    {
      if a.account == "" {
        return Err(NeedsAccount);
      }
      if a.value <= 0 {
        return Err(DepositNotPositive);
      }
      var backedBefore := BackedBalance();
      var minted := a.value;
      if totalShares != 0 {
        var m := MulDivDown(a.value, totalShares, if backedBefore == 0 then a.value else backedBefore);
        minted := m.value;
      }
      shares := shares[a.account := Held(a.account) + minted];
      totalShares := totalShares + minted;
      tokenBalance := tokenBalance + a.value;
      return Ok(Effect(SharesMinted, Some(a.account), minted, a.value, None));
    }

    /** The withdrawal and seizure branch: `value` counts shares. */
    method Burn(a: Action) returns (r: Result<Effect, PoolError>)
      requires a.kind == Withdraw || a.kind == LiquidationSeize
      modifies this
      ensures r.Err? ==> Step(old(View()), a) == Err(r.error)
      ensures r.Ok? ==> Step(old(View()), a) == Ok((View(), r.value))
    {
      if a.account == "" {
        return Err(NeedsAccount);
      }
      var have := Held(a.account);
      if a.value > have {
        return Err(MoreSharesThanHeld);
      }
      var rawOut :- MulDivDown(a.value, BackedBalance(), totalShares);
      shares := shares[a.account := have - a.value];
      totalShares := totalShares - a.value;
      tokenBalance := tokenBalance - rawOut;
      return Ok(Effect(SharesBurned, Some(a.account), a.value, -rawOut, None));
    }

    method Observe(a: Action) returns (r: Result<Effect, PoolError>)
      requires a.kind == Rebase
      modifies this
      ensures r.Err? ==> Step(old(View()), a) == Err(r.error)
      ensures r.Ok? ==> Step(old(View()), a) == Ok((View(), r.value))
    {
      var before := tokenBalance;
      var delta := a.value - before;
      if a.provenance == "" {
        if delta < 0 {
          return Err(UnprovenancedDecrease);
        }
        tokenBalance := a.value;
        unattributedSurplus := unattributedSurplus + delta;
        return Ok(Effect(UnattributedSurplus, None, 0, delta, None));
      }
      var factor := if before == 0 then WAD else TruncDiv(a.value * WAD, before);
      if before != 0 {
        unattributedSurplus := TruncDiv(unattributedSurplus * a.value, before);
      }
      tokenBalance := a.value;
      return Ok(Effect(RebaseObserved, None, 0, delta, Some(factor)));
    }

    method TakeFee(a: Action) returns (r: Result<Effect, PoolError>)
      requires a.kind == Fee
      modifies this
      ensures r.Err? ==> Step(old(View()), a) == Err(r.error)
      ensures r.Ok? ==> Step(old(View()), a) == Ok((View(), r.value))
    {
      if a.value < 0 {
        return Err(NegativeFee);
      }
      tokenBalance := tokenBalance - a.value;
      return Ok(Effect(FeeTaken, None, 0, -a.value, None));
    }
  }

  /** Applies an action to a copy; the given state never changes, and a refusal yields no state. */
  method ApplyAction(state: PoolState, a: Action) returns (r: Result<(PoolState, Effect), PoolError>)
    ensures r.Err? ==> Step(state.View(), a) == Err(r.error)
    ensures r.Ok? ==> fresh(r.value.0) && Step(state.View(), a) == Ok((r.value.0.View(), r.value.1))
    ensures state.View() == old(state.View())
  {
    var next := new PoolState.Copy(state);
    var effect: Result<Effect, PoolError>;
    match a.kind {
      case Deposit => effect := next.Mint(a);
      case Withdraw => effect := next.Burn(a);
      case LiquidationSeize => effect := next.Burn(a);
      case Rebase => effect := next.Observe(a);
      case Fee => effect := next.TakeFee(a);
    }
    if effect.Err? {
      return Err(effect.error);
    }
    return Ok((next, effect.value));
  }
}
