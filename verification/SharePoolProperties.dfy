/** What every run of the share pool keeps, and what deposits and withdrawals can never do. */
module SharePoolProperties {
  import opened Wrappers
  import opened Arithmetic
  import opened SharePool

  /** Shares add up, nobody holds a negative count, and the surplus is part of the balance. */
  ghost predicate Inv(p: Pool) {
    && (forall k :: k in p.shares ==> 0 <= p.shares[k])
    && TotalHeld(p) == p.totalShares
    && 0 <= p.surplus <= p.tokenBalance
  }

  /** What a caller can check: a rebase to a non-negative balance, a fee out of the backed balance. */
  predicate Admissible(p: Pool, a: Action) {
    match a.kind
    case Rebase => 0 <= a.value
    case Fee => a.value <= Backed(p)
    case _ => true
  }

  // ------------------------------------------------------------------------------- sums again

  lemma {:induction false} SumNonNegative(keys: set<string>, f: string -> int)
    requires forall k :: k in keys ==> 0 <= f(k)
    ensures 0 <= Sum(keys, f)
    decreases |keys|
  {
    if keys != {} {
      var k :| k in keys;
      SumPick(keys, f, k);
      SumNonNegative(keys - {k}, f);
    }
  }

  /** One account's part of a sum of non-negative parts is at most the sum. */
  lemma PartOfSum(keys: set<string>, f: string -> int, k: string)
    requires k in keys && forall j :: j in keys ==> 0 <= f(j)
    ensures f(k) <= Sum(keys, f)
  {
    SumPick(keys, f, k);
    SumNonNegative(keys - {k}, f);
  }

  /** If each part of one sum, times t, is at most b times the part of another, so are the sums. */
  lemma {:induction false} SumScaled(keys: set<string>, f: string -> int, g: string -> int, t: nat, b: nat)
    requires forall k :: k in keys ==> f(k) * t <= g(k) * b
    ensures Sum(keys, f) * t <= Sum(keys, g) * b
    decreases |keys|
  {
    if keys != {} {
      var k :| k in keys;
      SumPick(keys, f, k);
      SumPick(keys, g, k);
      SumScaled(keys - {k}, f, g, t, b);
      MulDist(f(k), Sum(keys - {k}, f), t);
      MulDist(g(k), Sum(keys - {k}, g), b);
    }
  }

  /** Changing one account's entry changes the sum by the difference. */
  lemma HeldAfterUpdate(p: Pool, q: Pool, account: string, n: int)
    requires q.shares == p.shares[account := n]
    ensures TotalHeld(q) == TotalHeld(p) - SharesOf(p, account) + n
  {
    SumPick(q.shares.Keys, Shares(q), account);
    var others := q.shares.Keys - {account};
    SumAgrees(others, Shares(p), Shares(q));
    if account in p.shares {
      SumPick(p.shares.Keys, Shares(p), account);
      assert p.shares.Keys - {account} == others;
    } else {
      assert p.shares.Keys == others;
    }
  }

  lemma SharesBounded(p: Pool, account: string)
    requires Inv(p)
    ensures 0 <= SharesOf(p, account) <= p.totalShares
  {
    SumNonNegative(p.shares.Keys, Shares(p));
    if account in p.shares {
      PartOfSum(p.shares.Keys, Shares(p), account);
    }
  }

  // ------------------------------------------------------------------------------ truncation

  lemma TruncIsFloor(a: int, d: int)
    requires 0 <= a && 0 < d
    ensures TruncDiv(a, d) == a / d && 0 <= TruncDiv(a, d)
  {
    FloorBounds(a, d);
  }

  lemma TruncOfNegative(a: int, d: int)
    requires a <= 0 && 0 < d
    ensures TruncDiv(a, d) <= 0
    ensures a <= TruncDiv(a, d) * d
  {
    FloorBounds(-a, d);
  }

  // ---------------------------------------------------------------------- conservation over runs

  lemma DepositKeepsInv(p: Pool, a: Action)
    requires Inv(p) && a.kind == Deposit && Step(p, a).Ok?
    ensures Inv(Step(p, a).value.0)
    ensures 0 <= Step(p, a).value.1.shares
  {
    var q := Step(p, a).value.0;
    var minted := Step(p, a).value.1.shares;
    SharesBounded(p, a.account);
    if p.totalShares != 0 {
      MulLe(0, a.value, p.totalShares);
      TruncIsFloor(a.value * p.totalShares, if Backed(p) == 0 then a.value else Backed(p));
    }
    HeldAfterUpdate(p, q, a.account, SharesOf(p, a.account) + minted);
  }

  /** What a redemption pays: at most its share of the backed balance, whatever the sign of the count. */
  lemma RedemptionPays(p: Pool, count: int)
    requires Inv(p) && 0 < p.totalShares && count <= p.totalShares
    ensures var out := TruncDiv(count * Backed(p), p.totalShares);
            out <= Backed(p) && (0 <= count ==> 0 <= out && out * p.totalShares <= count * Backed(p))
  {
    var b, t := Backed(p), p.totalShares;
    if 0 <= count {
      MulLe(0, count, b);
      MulLe(count, t, b);
      TruncIsFloor(count * b, t);
      FloorBounds(count * b, t);
      FloorMono(count * b, b * t, t);
      FloorExact(b, t);
    } else {
      MulLe(count, 0, b);
      TruncOfNegative(count * b, t);
    }
  }

  lemma RedeemKeepsInv(p: Pool, a: Action)
    requires Inv(p) && (a.kind == Withdraw || a.kind == LiquidationSeize) && Step(p, a).Ok?
    ensures Inv(Step(p, a).value.0)
  {
    var q := Step(p, a).value.0;
    SharesBounded(p, a.account);
    RedemptionPays(p, a.value);
    HeldAfterUpdate(p, q, a.account, SharesOf(p, a.account) - a.value);
  }

  lemma RebaseKeepsInv(p: Pool, a: Action)
    requires Inv(p) && a.kind == Rebase && Step(p, a).Ok?
    ensures Inv(Step(p, a).value.0) <==> 0 <= a.value
  {
    var q := Step(p, a).value.0;
    assert TotalHeld(q) == TotalHeld(p) by { SumAgrees(p.shares.Keys, Shares(p), Shares(q)); }
    var before := p.tokenBalance;
    if a.provenance != "" && before != 0 {
      if 0 <= a.value {
        MulLe(0, p.surplus, a.value);
        MulLe(p.surplus, before, a.value);
        TruncIsFloor(p.surplus * a.value, before);
        FloorMono(p.surplus * a.value, a.value * before, before);
        FloorExact(a.value, before);
      } else {
        MulLe(a.value, 0, p.surplus);
        TruncOfNegative(p.surplus * a.value, before);
      }
    }
  }

  /** An accepted action keeps the invariant exactly when it is admissible. */
  lemma StepKeepsInv(p: Pool, a: Action)
    requires Inv(p) && Step(p, a).Ok?
    ensures Inv(Step(p, a).value.0) <==> Admissible(p, a)
    ensures Step(p, a).value.0.tokenBalance == p.tokenBalance + Step(p, a).value.1.rawDelta
  {
    match a.kind {
      case Deposit => DepositKeepsInv(p, a);
      case Withdraw => RedeemKeepsInv(p, a);
      case LiquidationSeize => RedeemKeepsInv(p, a);
      case Rebase => RebaseKeepsInv(p, a);
      case Fee =>
        var q := Step(p, a).value.0;
        SumAgrees(p.shares.Keys, Shares(p), Shares(q));
    }
  }

  /** A run: the final state and the sum of the effects' raw deltas, if every action was accepted. */
  function Run(start: Pool, actions: seq<Action>): Option<(Pool, int)> {
    if actions == [] then Some((start, 0))
    else
      var before :- Run(start, actions[..|actions| - 1]);
      var step := Step(before.0, actions[|actions| - 1]);
      if step.Err? then None else Some((step.value.0, before.1 + step.value.1.rawDelta))
  }

  /** Every action of the run was admissible in the state it met. */
  predicate AdmissibleRun(start: Pool, actions: seq<Action>) {
    actions != [] ==>
      && AdmissibleRun(start, actions[..|actions| - 1])
      && (Run(start, actions[..|actions| - 1]).Some? ==>
            Admissible(Run(start, actions[..|actions| - 1]).value.0, actions[|actions| - 1]))
  }

  lemma {:induction false} RunKeepsInv(start: Pool, actions: seq<Action>)
    requires Inv(start) && AdmissibleRun(start, actions) && Run(start, actions).Some?
    ensures Inv(Run(start, actions).value.0)
    ensures Run(start, actions).value.0.tokenBalance == start.tokenBalance + Run(start, actions).value.1
  {
    if actions != [] {
      RunKeepsInv(start, actions[..|actions| - 1]);
      StepKeepsInv(Run(start, actions[..|actions| - 1]).value.0, actions[|actions| - 1]);
    }
  }

  lemma EffectiveIsFloor(p: Pool, account: string)
    requires Inv(p) && 0 < p.totalShares
    ensures EffectiveOf(p, account) == SharesOf(p, account) * Backed(p) / p.totalShares
    ensures 0 <= EffectiveOf(p, account)
    ensures EffectiveOf(p, account) * p.totalShares <= SharesOf(p, account) * Backed(p)
  {
    SharesBounded(p, account);
    MulLe(0, SharesOf(p, account), Backed(p));
    TruncIsFloor(SharesOf(p, account) * Backed(p), p.totalShares);
    FloorBounds(SharesOf(p, account) * Backed(p), p.totalShares);
  }

  /** The pool never owes more than backs it. */
  lemma OwedAtMostBacked(p: Pool)
    requires Inv(p)
    ensures TotalEffective(p) <= Backed(p)
  {
    var keys := p.shares.Keys;
    SumNonNegative(keys, Shares(p));
    if p.totalShares == 0 {
      SumOfZeros(keys, Effective(p));
    } else {
      forall k | k in keys
        ensures Effective(p)(k) * p.totalShares <= Shares(p)(k) * Backed(p)
      {
        EffectiveIsFloor(p, k);
      }
      SumScaled(keys, Effective(p), Shares(p), p.totalShares, Backed(p));
      MulLeCancel(TotalEffective(p), Backed(p), p.totalShares);
    }
  }

  lemma {:induction false} SumOfZeros(keys: set<string>, f: string -> int)
    requires forall k :: k in keys ==> f(k) == 0
    ensures Sum(keys, f) == 0
    decreases |keys|
  {
    if keys != {} {
      var k :| k in keys;
      SumPick(keys, f, k);
      SumOfZeros(keys - {k}, f);
    }
  }

  lemma OwedIsNotNegative(p: Pool)
    requires Inv(p)
    ensures 0 <= TotalEffective(p)
  {
    SumNonNegative(p.shares.Keys, Shares(p));
    forall k | k in p.shares.Keys
      ensures 0 <= Effective(p)(k)
    {
      if 0 < p.totalShares {
        EffectiveIsFloor(p, k);
      }
    }
    SumNonNegative(p.shares.Keys, Effective(p));
  }

  /** The report of a state with the invariant says ok. */
  lemma ReportIsOk(p: Pool)
    requires Inv(p)
    ensures ReportOf(p).ok && 0 <= ReportOf(p).totalEffective && 0 <= ReportOf(p).dust
  {
    OwedAtMostBacked(p);
    OwedIsNotNegative(p);
  }

  /** Over every admissible run from the empty pool the report says ok, and the balance is the sum of all movements. */
  lemma ConservedOverEveryRun(actions: seq<Action>)
    requires AdmissibleRun(EMPTY, actions) && Run(EMPTY, actions).Some?
    ensures
      var (p, moved) := Run(EMPTY, actions).value;
      Inv(p) && ReportOf(p).ok && p.tokenBalance == moved
  {
    RunKeepsInv(EMPTY, actions);
    ReportIsOk(Run(EMPTY, actions).value.0);
  }

  // ------------------------------------------------------------------------------- no dilution

  /** Backed balance per share is at least as high in `q` as in `p`. */
  predicate NotDiluted(p: Pool, q: Pool) {
    Backed(p) * q.totalShares <= Backed(q) * p.totalShares
  }

  /** An account that did not move keeps at least what it had, when the pool is not diluted. */
  lemma BystanderKeeps(p: Pool, q: Pool, account: string)
    requires Inv(p) && Inv(q) && 0 < p.totalShares && NotDiluted(p, q)
    requires SharesOf(q, account) == SharesOf(p, account)
    ensures EffectiveOf(p, account) <= EffectiveOf(q, account)
  {
    EffectiveIsFloor(p, account);
    SharesBounded(q, account);
    if 0 < q.totalShares {
      EffectiveIsFloor(q, account);
      FractionMono(Backed(p), p.totalShares, Backed(q), q.totalShares, SharesOf(p, account));
    } else {
      assert SharesOf(p, account) == 0;
    }
  }

  lemma MintedAtMostFair(p: Pool, a: Action)
    requires Inv(p) && 0 < p.totalShares && a.kind == Deposit && Step(p, a).Ok?
    ensures 0 <= Step(p, a).value.1.shares
    ensures Step(p, a).value.1.shares * Backed(p) <= a.value * p.totalShares
  {
    DepositKeepsInv(p, a);
    var d := if Backed(p) == 0 then a.value else Backed(p);
    MulLe(0, a.value, p.totalShares);
    TruncIsFloor(a.value * p.totalShares, d);
    FloorBounds(a.value * p.totalShares, d);
  }

  /** The identity behind the depositor's bound, over s of t shares, b backed, m minted for v. */
  lemma DepositAlgebra(s: int, t: int, b: int, m: int, v: int)
    ensures (s * b + v * t) * (t + m) - ((s + m) * (b + v)) * t == (t - s) * (v * t - m * b)
  {
    var x, y := s * b, v * t;
    MulDist(t, m, x + y);
    MulDist(s, m, b + v);
    MulDist(b, v, s);
    MulDist(b, v, m);
    MulDist(x, y, t);
    MulDist(x, y, m);
    assert (s + m) * (b + v) == s * b + s * v + m * b + m * v;
    assert ((s + m) * (b + v)) * t == x * t + (s * v) * t + (m * b) * t + (m * v) * t by {
      MulDist(x + s * v, m * b + m * v, t);
      MulDist(x, s * v, t);
      MulDist(m * b, m * v, t);
    }
    assert (t - s) * (y - m * b) == y * t - (m * b) * t - y * s + (m * b) * s;
    assert (s * v) * t == y * s by { MulSwap(s, v, t); MulSwap(v, t, s); MulSwap(s, t, v); }
    assert (m * v) * t == y * m by { MulSwap(m, v, t); MulSwap(v, t, m); MulSwap(m, t, v); }
    assert (m * b) * s == x * m by { MulSwap(m, b, s); MulSwap(s, b, m); }
  }

  lemma DepositorGain(s: nat, t: nat, b: nat, m: nat, v: nat)
    requires s <= t && 0 < t && m * b <= v * t
    ensures (s + m) * (b + v) / (t + m) <= s * b / t + v
  {
    DepositAlgebra(s, t, b, m, v);
    MulLe(0, t - s, v * t - m * b);
    var x, q := (s + m) * (b + v), s * b / t;
    FloorBounds(s * b, t);
    MulDist(q + 1, v, t);
    MulDist(q, 1, t);
    MulLt(s * b + v * t, (q + 1 + v) * t, t + m);
    MulSwap(q + 1 + v, t, t + m);
    MulLtCancel(x, (q + 1 + v) * (t + m), t);
    FloorAtMost(x, t + m, q + v);
  }

  /** What backs no share because there is none: what a provenanced rebase of a pool without shares leaves. */
  function Orphaned(p: Pool): int {
    if p.totalShares == 0 then Backed(p) else 0
  }

  predicate NoOrphanedBacking(p: Pool) {
    Orphaned(p) == 0
  }

  /** Every accepted deposit: the depositor gains at most the deposit, exactly when nothing was orphaned. */
  lemma DepositIsFair(p: Pool, a: Action)
    requires Inv(p) && a.kind == Deposit && Step(p, a).Ok?
    ensures
      var q := Step(p, a).value.0;
      && (NotDiluted(p, q) <==> NoOrphanedBacking(p))
      && (forall other :: other != a.account ==> EffectiveOf(p, other) <= EffectiveOf(q, other))
      && (EffectiveOf(q, a.account) <= EffectiveOf(p, a.account) + a.value <==> NoOrphanedBacking(p))
      && EffectiveOf(q, a.account) <= EffectiveOf(p, a.account) + Orphaned(p) + a.value
  {
    var q := Step(p, a).value.0;
    DepositKeepsInv(p, a);
    SharesBounded(p, a.account);
    if 0 < p.totalShares {
      DepositDoesNotDilute(p, a);
      DepositorGainsAtMost(p, a);
      forall other | other != a.account
        ensures EffectiveOf(p, other) <= EffectiveOf(q, other)
      {
        BystanderKeeps(p, q, other);
      }
    } else {
      FirstDeposit(p, a);
    }
  }

  /** The first deposit buys everything there is, orphaned backing included. */
  lemma FirstDeposit(p: Pool, a: Action)
    requires Inv(p) && p.totalShares == 0 && a.kind == Deposit && Step(p, a).Ok?
    ensures
      var q := Step(p, a).value.0;
      && (NotDiluted(p, q) <==> Backed(p) == 0)
      && (forall other :: EffectiveOf(p, other) == 0 <= EffectiveOf(q, other))
      && EffectiveOf(q, a.account) == Backed(p) + a.value
  {
    var q := Step(p, a).value.0;
    DepositKeepsInv(p, a);
    forall other
      ensures EffectiveOf(p, other) == 0 <= EffectiveOf(q, other)
    {
      EffectiveIsFloor(q, other);
    }
    SharesBounded(p, a.account);
    SoleHolder(q, a.account);
    PositiveProduct(Backed(p), a.value);
  }

  /** Whoever holds every share is entitled to the whole backed balance. */
  lemma SoleHolder(q: Pool, account: string)
    requires Inv(q) && 0 < q.totalShares == SharesOf(q, account)
    ensures EffectiveOf(q, account) == Backed(q)
  {
    EffectiveIsFloor(q, account);
    FloorExact(Backed(q), q.totalShares);
  }

  lemma PositiveProduct(b: nat, v: nat)
    requires 0 < v
    ensures b * v <= 0 <==> b == 0
  {
    if 0 < b {
      MulLt(0, b, v);
    }
  }

  lemma DepositDoesNotDilute(p: Pool, a: Action)
    requires Inv(p) && 0 < p.totalShares && a.kind == Deposit && Step(p, a).Ok?
    ensures NotDiluted(p, Step(p, a).value.0)
  {
    MintedAtMostFair(p, a);
    MulDist(p.totalShares, Step(p, a).value.1.shares, Backed(p));
    MulDist(Backed(p), a.value, p.totalShares);
  }

  lemma DepositorGainsAtMost(p: Pool, a: Action)
    requires Inv(p) && 0 < p.totalShares && a.kind == Deposit && Step(p, a).Ok?
    ensures EffectiveOf(Step(p, a).value.0, a.account) <= EffectiveOf(p, a.account) + a.value
  {
    DepositKeepsInv(p, a);
    MintedAtMostFair(p, a);
    SharesBounded(p, a.account);
    EffectiveIsFloor(p, a.account);
    EffectiveIsFloor(Step(p, a).value.0, a.account);
    DepositorGain(SharesOf(p, a.account), p.totalShares, Backed(p), Step(p, a).value.1.shares, a.value);
  }

  /** The identity behind the withdrawer's bound, with w of the account's s shares paying out. */
  lemma WithdrawAlgebra(s: int, t: int, b: int, w: int, out: int)
    ensures out * t * (t - w) + (s - w) * (b - out) * t == out * t * (t - s) + (s - w) * (b * t)
    ensures (w * b) * (t - s) + (s - w) * (b * t) == s * b * (t - w)
  {
    assert (s - w) * (b - out) == (s - w) * b - (s - w) * out;
    MulDist((s - w) * b, -((s - w) * out), t);
    MulSwap(s - w, out, t);
    MulSwap(s - w, t, out);
    assert ((s - w) * out) * t == (out * t) * (s - w) by { MulAssoc(s - w, out, t); }
    assert (out * t) * (t - w) - (out * t) * (s - w) == (out * t) * (t - s);
    MulAssoc(s - w, b, t);
    assert (w * b) * (t - s) == (w * b) * t - (w * b) * s;
    assert (s - w) * (b * t) == (s * b) * t - (w * b) * t by {
      MulDist(s, -w, b * t);
      MulAssoc(s, b, t);
      MulAssoc(w, b, t);
    }
    assert (w * b) * s == (s * b) * w by { MulSwap(w, b, s); MulSwap(s, b, w); }
  }

  lemma WithdrawerKeepsNoMore(s: nat, t: nat, b: nat, w: int, out: int)
    requires 0 < t && w <= s <= t && w < t && out <= b && out * t <= w * b
    ensures out + (s - w) * (b - out) / (t - w) <= s * b / t
  {
    var r := (s - w) * (b - out) / (t - w);
    MulLe(0, s - w, b - out);
    FloorBounds((s - w) * (b - out), t - w);
    KeptWithinShare(s, t, b, w, out, r);
    FloorAtLeast(s * b, t, out + r);
  }

  lemma KeptWithinShare(s: nat, t: nat, b: nat, w: int, out: int, r: int)
    requires w <= s <= t && w < t && out * t <= w * b
    requires r * (t - w) <= (s - w) * (b - out)
    ensures (out + r) * t <= s * b
  {
    MulLe(r * (t - w), (s - w) * (b - out), t);
    WithdrawAlgebra(s, t, b, w, out);
    MulLe(out * t, w * b, t - s);
    MulDist(out, r, t);
    MulDist(out * t, r * t, t - w);
    MulSwap(r, t, t - w);
    MulLeCancel((out + r) * t, s * b, t - w);
  }

  /** A count that is not negative, or whose price comes out even. */
  predicate EvenlyPaid(p: Pool, a: Action)
    requires p.totalShares != 0
  {
    0 <= a.value || a.value * Backed(p) % p.totalShares == 0
  }

  predicate Redeems(a: Action) {
    a.kind == Withdraw || a.kind == LiquidationSeize
  }

  /** A redemption pays its fair price or less exactly when it is evenly paid. */
  lemma RedemptionPrice(p: Pool, a: Action)
    requires Inv(p) && Redeems(a) && Step(p, a).Ok?
    ensures 0 < p.totalShares && a.value <= SharesOf(p, a.account) <= p.totalShares
    ensures
      var payout := -Step(p, a).value.1.rawDelta;
      && (payout * p.totalShares <= a.value * Backed(p) <==> EvenlyPaid(p, a))
      && payout <= Backed(p) && (0 <= a.value ==> 0 <= payout)
  {
    SharesBounded(p, a.account);
    RedemptionPays(p, a.value);
    TruncTimesDivisor(a.value, Backed(p), p.totalShares);
  }

  /** The source accepts a negative count. The pool is diluted exactly when such a count is not evenly paid. */
  lemma RedemptionDilutesExactlyWhen(p: Pool, a: Action)
    requires Inv(p) && Redeems(a) && Step(p, a).Ok?
    ensures 0 < p.totalShares
    ensures NotDiluted(p, Step(p, a).value.0) <==> EvenlyPaid(p, a)
  {
    RedemptionPrice(p, a);
    PriceAndDilution(p.totalShares, Backed(p), a.value, -Step(p, a).value.1.rawDelta);
  }

  lemma PriceAndDilution(t: nat, b: nat, w: int, payout: int)
    ensures b * (t - w) <= (b - payout) * t <==> payout * t <= w * b
  {
    MulDist(b, -payout, t);
    MulDist(t, -w, b);
  }

  lemma WithdrawerGainsNothing(p: Pool, a: Action)
    requires Inv(p) && Redeems(a) && Step(p, a).Ok? && p.totalShares != 0 && EvenlyPaid(p, a)
    ensures -Step(p, a).value.1.rawDelta + EffectiveOf(Step(p, a).value.0, a.account) <= EffectiveOf(p, a.account)
  {
    var q, payout := Step(p, a).value.0, -Step(p, a).value.1.rawDelta;
    RedemptionPrice(p, a);
    RedeemKeepsInv(p, a);
    EffectiveIsFloor(p, a.account);
    if a.value < p.totalShares {
      EffectiveIsFloor(q, a.account);
      WithdrawerKeepsNoMore(SharesOf(p, a.account), p.totalShares, Backed(p), a.value, payout);
    } else {
      FloorAtLeast(SharesOf(p, a.account) * Backed(p), p.totalShares, payout);
    }
  }

  /**
   * A withdrawal or seizure of any count: nobody is diluted exactly when it is evenly paid, which every
   * count but a negative one is. Then no other account loses, and payout plus what the account keeps is
   * at most what it had.
   */
  lemma WithdrawalIsFair(p: Pool, a: Action)
    requires Inv(p) && Redeems(a) && Step(p, a).Ok?
    ensures 0 < p.totalShares
    ensures
      var q, payout := Step(p, a).value.0, -Step(p, a).value.1.rawDelta;
      && (NotDiluted(p, q) <==> EvenlyPaid(p, a))
      && (0 <= a.value ==> 0 <= payout)
      && (EvenlyPaid(p, a) ==>
            && (forall other :: other != a.account ==> EffectiveOf(p, other) <= EffectiveOf(q, other))
            && payout + EffectiveOf(q, a.account) <= EffectiveOf(p, a.account))
  {
    RedemptionPrice(p, a);
    RedemptionDilutesExactlyWhen(p, a);
    RedeemKeepsInv(p, a);
    if EvenlyPaid(p, a) {
      WithdrawerGainsNothing(p, a);
      forall other | other != a.account
        ensures EffectiveOf(p, other) <= EffectiveOf(Step(p, a).value.0, other)
      {
        BystanderKeeps(p, Step(p, a).value.0, other);
      }
    }
  }

  /** Redeeming minus one of three shares backed by two tokens adds a share and no token. */
  lemma NegativeRedemptionCanDilute()
    ensures
      var p := Pool(3, 2, 0, map["a" := 3]);
      var step := Step(p, Action(Withdraw, -1, "a", ""));
      Inv(p) && step.Ok? && !NotDiluted(p, step.value.0)
  {
    var p := Pool(3, 2, 0, map["a" := 3]);
    SumPick(p.shares.Keys, Shares(p), "a");
    assert p.shares.Keys - {"a"} == {};
  }

  lemma TruncTimesDivisor(w: int, b: nat, t: nat)
    requires 0 < t
    ensures TruncDiv(w * b, t) * t <= w * b <==> 0 <= w || w * b % t == 0
  {
    if 0 <= w {
      MulLe(0, w, b);
      TruncIsFloor(w * b, t);
      FloorBounds(w * b, t);
    } else {
      MulLe(w, 0, b);
      TruncAbove(w * b, t);
    }
  }

  lemma TruncAbove(x: int, t: nat)
    requires x <= 0 && 0 < t
    ensures TruncDiv(x, t) * t <= x <==> x % t == 0
  {
    assert TruncDiv(x, t) == -(-x / t);
    MulAssoc(-1, -x / t, t);
    FloorBounds(-x, t);
    if x % t == 0 {
      NegationDivides(x, t);
    }
    if -x % t == 0 {
      NegationDivides(-x, t);
    }
  }

  lemma NegationDivides(x: int, t: nat)
    requires 0 < t && x % t == 0
    ensures -x % t == 0
  {
    FloorBounds(x, t);
    MulAssoc(-1, x / t, t);
    FloorUnique(-x, t, -(x / t));
  }

  // ------------------------------------------------------------------------------- no free tokens

  /** The run deposits and withdraws for one account only, each withdrawal evenly paid. */
  predicate OwnRun(start: Pool, account: string, actions: seq<Action>) {
    actions != [] ==>
      var front, a := actions[..|actions| - 1], actions[|actions| - 1];
      && OwnRun(start, account, front)
      && a.account == account && (a.kind == Deposit || a.kind == Withdraw)
      && (a.kind == Withdraw && Run(start, front).Some? && Run(start, front).value.0.totalShares != 0 ==>
            EvenlyPaid(Run(start, front).value.0, a))
  }

  /** Redeeming every share pays out everything that backs them. */
  lemma FullRedemptionEmpties(p: Pool, a: Action)
    requires Inv(p) && Redeems(a) && Step(p, a).Ok? && a.value == p.totalShares
    ensures Step(p, a).value.0.totalShares == 0 && Backed(Step(p, a).value.0) == 0
  {
    SharesBounded(p, a.account);
    MulLe(0, a.value, Backed(p));
    TruncIsFloor(a.value * Backed(p), p.totalShares);
    FloorExact(Backed(p), p.totalShares);
  }

  /** What the account could claim, with what a first deposit of its own would win. */
  function Claim(p: Pool, account: string): int {
    EffectiveOf(p, account) + Orphaned(p)
  }

  lemma OwnWithdrawalGainsNothing(p: Pool, a: Action)
    requires Inv(p) && a.kind == Withdraw && Step(p, a).Ok? && p.totalShares != 0 && EvenlyPaid(p, a)
    ensures
      var (q, effect) := Step(p, a).value;
      Inv(q) && Claim(q, a.account) <= Claim(p, a.account) + effect.rawDelta
  {
    RedeemKeepsInv(p, a);
    WithdrawalIsFair(p, a);
    if a.value == p.totalShares {
      FullRedemptionEmpties(p, a);
    } else {
      assert Step(p, a).value.0.totalShares != 0;
    }
  }

  lemma OwnDepositGainsNothing(p: Pool, a: Action)
    requires Inv(p) && a.kind == Deposit && Step(p, a).Ok?
    ensures
      var (q, effect) := Step(p, a).value;
      Inv(q) && Claim(q, a.account) <= Claim(p, a.account) + effect.rawDelta
  {
    DepositKeepsInv(p, a);
    DepositIsFair(p, a);
    SharesBounded(p, a.account);
  }

  /**
   * Over any number of its own deposits and evenly paid withdrawals an account ends with a claim of at
   * most its claim at the start plus what it put in, net: rounding never pays.
   */
  lemma {:induction false} RoundingNeverPays(start: Pool, account: string, actions: seq<Action>)
    requires Inv(start) && OwnRun(start, account, actions) && Run(start, actions).Some?
    ensures
      var (end, netPaidIn) := Run(start, actions).value;
      Inv(end) && Claim(end, account) <= Claim(start, account) + netPaidIn
  {
    if actions != [] {
      RoundingNeverPays(start, account, actions[..|actions| - 1]);
      var p, a := Run(start, actions[..|actions| - 1]).value.0, actions[|actions| - 1];
      if a.kind == Deposit {
        OwnDepositGainsNothing(p, a);
      } else {
        OwnWithdrawalGainsNothing(p, a);
      }
    }
  }

  /** The account ends the run entitled to no more than at its start and what it put in, net. */
  predicate GainsNothing(start: Pool, account: string, actions: seq<Action>)
    requires Run(start, actions).Some?
  {
    var (end, netPaidIn) := Run(start, actions).value;
    EffectiveOf(end, account) <= EffectiveOf(start, account) + netPaidIn
  }

  ghost predicate NoRunGains(start: Pool, account: string) {
    forall actions :: OwnRun(start, account, actions) && Run(start, actions).Some? ==>
      GainsNothing(start, account, actions)
  }

  /** No run of its own gains an account anything exactly when the start has no orphaned backing. */
  lemma NoRunGainsExactlyWhen(start: Pool, account: string)
    requires Inv(start) && account != ""
    ensures NoRunGains(start, account) <==> NoOrphanedBacking(start)
  {
    if NoOrphanedBacking(start) {
      forall actions | OwnRun(start, account, actions) && Run(start, actions).Some?
        ensures GainsNothing(start, account, actions)
      {
        RoundingNeverPays(start, account, actions);
      }
    } else {
      var deposit := Action(Deposit, 1, account, "");
      SingleRun(start, deposit);
      FirstDeposit(start, deposit);
      assert OwnRun(start, account, [deposit]);
      assert !GainsNothing(start, account, [deposit]);
    }
  }

  lemma SingleRun(start: Pool, a: Action)
    requires Step(start, a).Ok?
    ensures Run(start, [a]) == Some((Step(start, a).value.0, Step(start, a).value.1.rawDelta))
    ensures forall account :: OwnRun(start, account, [a]) <==>
      a.account == account && (a.kind == Deposit || a.kind == Withdraw)
      && (a.kind == Withdraw && start.totalShares != 0 ==> EvenlyPaid(start, a))
  {
    assert [a][..0] == [];
    assert Run(start, []) == Some((start, 0));
  }

  /** A provenanced rebase of the empty pool orphans its balance, and the first depositor is entitled to it. */
  lemma FirstDepositorCanGain()
    ensures
      var actions := [Action(Rebase, 100, "", "event"), Action(Deposit, 1, "a", "")];
      && AdmissibleRun(EMPTY, actions) && Run(EMPTY, actions).Some?
      && EffectiveOf(Run(EMPTY, actions).value.0, "a") == 101
  {
    var rebase, deposit := Action(Rebase, 100, "", "event"), Action(Deposit, 1, "a", "");
    var actions := [rebase, deposit];
    assert actions[..1] == [rebase] && [rebase][..0] == [];
    SingleRun(EMPTY, rebase);
    assert AdmissibleRun(EMPTY, []);
    assert AdmissibleRun(EMPTY, [rebase]);
  }

  // ------------------------------------------------------------------------------------- a fee

  /** A fee above the backed balance is accepted by the source, and leaves less than the surplus. */
  lemma OversizedFee()
    ensures
      var funded := Pool(10, 15, 5, map["a" := 10]);
      var step := Step(funded, Action(Fee, 11, "", ""));
      Inv(funded) && step.Ok? && Backed(step.value.0) < 0
  {
    var funded := Pool(10, 15, 5, map["a" := 10]);
    SumPick(funded.shares.Keys, Shares(funded), "a");
    assert funded.shares.Keys - {"a"} == {};
  }
}
