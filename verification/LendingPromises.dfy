/**
 What the lending ledger (src/runtime/lending.js) does not check.

 Three promises hold throughout a run exactly as long as one guard is met at every call:
 each user's collateral covers the debt (`RunCoveredExactly`, a guard on withdrawals), no
 collateral balance is negative (`RunBalancesExactly`, a guard on liquidations), and no
 market's reserves are negative (`RunReservesExactly`, a guard on removals).  For the
 collateral to stay at any given multiple of the debt, withdrawals and liquidations both
 need a guard (`RunRatioExactly`).
 `SolvencyCanFail` and `ReservesCanFail` are runs of normally returning calls in which two
 of the promises break.
 */
module LendingPromises {
  import opened JsMap
  import opened Runs
  import opened Wrappers

  import opened Lending

  // ---------- balances that are not negative ----------

  ghost predicate NonNegative(m: Amounts) {
    forall i :: 0 <= i < |m| ==> m[i].1 >= 0.0
  }

  lemma {:induction false} NonNegativeTotal(m: Amounts, asset: string)
    requires NonNegative(m)
    ensures Total(m) >= 0.0 && AmountOf(m, asset) >= 0.0
  {
    if m != [] {
      NonNegativeTotal(m[1..], asset);
    }
  }

  lemma {:induction false} PutNonNegative(m: Amounts, key: string, value: real)
    requires NonNegative(m) && value >= 0.0
    ensures NonNegative(Put(m, key, value))
  {
    if m != [] && m[0].0 != key {
      PutNonNegative(m[1..], key, value);
    }
  }

  // ---------- runs ----------

  lemma RunNext(ops: seq<Op>, n: nat)
    requires n < |ops|
    ensures Run(ops[..n + 1]) == Step(Run(ops[..n]), ops[n])
  {
    assert ops[..n + 1][..n] == ops[..n];
  }

  predicate AmountNotNegative(op: Op) {
    !op.CreateMarket? ==> op.amount >= 0.0
  }

  /** Amounts are not negative, and a market requires at least the value borrowed. */
  predicate Sensible(op: Op) {
    AmountNotNegative(op) && (op.CreateMarket? ==> op.requirement >= 1.0)
  }

  ghost predicate NoneNegative(ops: seq<Op>) {
    forall i :: 0 <= i < |ops| ==> AmountNotNegative(ops[i])
  }

  ghost predicate AllSensible(ops: seq<Op>) {
    forall i :: 0 <= i < |ops| ==> Sensible(ops[i])
  }

  // ---------- the collateral covers the debt ----------

  ghost predicate RequirementsCover(s: State) {
    forall a :: a in s.markets ==> s.markets[a].requirement >= 1.0
  }

  /** No borrow balance is negative, and the collateral covers the debt. */
  ghost predicate CoveredPosition(p: Position) {
    NonNegative(p.borrows) && Debt(p) <= Total(p.collateral)
  }

  ghost predicate Covered(s: State) {
    RequirementsCover(s) && forall user :: CoveredPosition(PositionOf(s, user))
  }

  /** A withdrawal past the balance check takes no more than the collateral beyond the debt. */
  predicate WithinSurplus(s: State, op: Op) {
    op.WithdrawCollateral? && !Refused(s, op) ==>
      op.amount <= Total(PositionOf(s, op.user).collateral) - Debt(PositionOf(s, op.user))
  }

  /** A withdrawal that passes the balance check returns normally exactly when the user
      has no debt or enough collateral is left, and enough is left exactly when it takes
      no more than the surplus: without debt it may take more. */
  lemma WithdrawalExactly(p: Position, op: Op)
    requires op.WithdrawCollateral? && NonNegative(p.borrows)
    ensures var after := PositionAfter(p, op);
            (Debt(after) <= Total(after.collateral) <==> op.amount <= Total(p.collateral) - Debt(p)) &&
            (Sufficient(after) <==> Debt(p) == 0.0 || op.amount <= Total(p.collateral) - Debt(p))
  {
    var after := PositionAfter(p, op);
    AdjustedAmounts(p.collateral, op.asset, -op.amount, op.asset);
    NonNegativeTotal(p.borrows, op.asset);
  }

  /** A liquidation moves the whole amount to the first collateral asset; that balance
      stays non-negative exactly when it held as much. */
  lemma LiquidationKeepsBalancesExactly(p: Position, op: Op)
    requires op.Liquidate? && p.collateral != [] && NonNegative(p.collateral)
    ensures var first := p.collateral[0].0;
            NonNegative(PositionAfter(p, op).collateral) <==> op.amount <= AmountOf(p.collateral, first)
  {
    var first := p.collateral[0].0;
    var after := PositionAfter(p, op).collateral;
    assert after == [(first, p.collateral[0].1 - op.amount)] + p.collateral[1..];
    if op.amount <= AmountOf(p.collateral, first) {
      PutNonNegative(p.collateral, first, AmountOf(p.collateral, first) - op.amount);
    } else {
      assert after[0].1 < 0.0;
    }
  }

  lemma BorrowsStayNonNegative(p: Position, op: Op)
    requires NonNegative(p.borrows) && !op.CreateMarket? && op.amount >= 0.0
    requires op.Repay? || op.Liquidate? ==> op.amount <= AmountOf(p.borrows, op.asset)
    ensures NonNegative(PositionAfter(p, op).borrows)
  {
    if op.Borrow? {
      NonNegativeTotal(p.borrows, op.asset);
      PutNonNegative(p.borrows, op.asset, AmountOf(p.borrows, op.asset) + op.amount);
    } else if op.Repay? || op.Liquidate? {
      PutNonNegative(p.borrows, op.asset, AmountOf(p.borrows, op.asset) - op.amount);
    }
  }

  /** A liquidation takes the same amount off debt and collateral. */
  lemma TotalsCoveredExactly(p: Position, op: Op)
    requires !op.CreateMarket? && op.amount >= 0.0 && Debt(p) <= Total(p.collateral)
    requires (op.Liquidate? ==> p.collateral != []) && (op.Borrow? ==> op.amount <= op.collateralAmount)
    ensures var after := PositionAfter(p, op);
            Debt(after) <= Total(after.collateral)
            <==> (op.WithdrawCollateral? ==> op.amount <= Total(p.collateral) - Debt(p))
  {
    match op
    case Borrow(_, asset, amount, collateralAsset, collateralAmount) =>
      AdjustedAmounts(p.borrows, asset, amount, asset);
      AdjustedAmounts(p.collateral, collateralAsset, collateralAmount, asset);
    case Repay(_, asset, amount) => AdjustedAmounts(p.borrows, asset, -amount, asset);
    case WithdrawCollateral(_, asset, amount) => AdjustedAmounts(p.collateral, asset, -amount, asset);
    case Liquidate(_, asset, amount) =>
      AdjustedAmounts(p.borrows, asset, -amount, asset);
      AdjustedAmounts(p.collateral, p.collateral[0].0, -amount, asset);
    case _ =>
  }

  lemma PositionCoveredExactly(s: State, op: Op)
    requires Covered(s) && Sensible(op) && !op.CreateMarket? && !Refused(s, op)
    ensures CoveredPosition(PositionAfter(PositionOf(s, op.user), op)) <==> WithinSurplus(s, op)
  {
    var p := PositionOf(s, op.user);
    assert CoveredPosition(p);
    BorrowsStayNonNegative(p, op);
    TotalsCoveredExactly(p, op);
  }

  /** One call leaves every debt covered exactly when it is within the surplus. */
  lemma StepCoveredExactly(s: State, op: Op)
    requires Covered(s) && Sensible(op)
    ensures Covered(Step(s, op)) <==> WithinSurplus(s, op)
  {
    if !op.CreateMarket? && !Refused(s, op) {
      PositionCoveredExactly(s, op);
      StepPosition(s, op, op.user);
    }
    if WithinSurplus(s, op) {
      forall user
        ensures CoveredPosition(PositionOf(Step(s, op), user))
      {
        StepCovers(s, op, user);
      }
    } else {
      assert !CoveredPosition(PositionOf(Step(s, op), op.user));
    }
  }

  lemma StepCovers(s: State, op: Op, user: string)
    requires Covered(s) && Sensible(op) && WithinSurplus(s, op)
    ensures CoveredPosition(PositionOf(Step(s, op), user))
  {
    assert CoveredPosition(PositionOf(s, user));
    StepPosition(s, op, user);
    if !op.CreateMarket? && op.user == user && !Refused(s, op) {
      PositionCoveredExactly(s, op);
    }
  }

  /** In any run, every user's collateral covers the debt after every call if and only if
      each withdrawal past the balance check stays within the surplus.  Liquidations do not
      matter, nor whether the calls return or throw. */
  lemma RunCoveredExactly(ops: seq<Op>)
    requires AllSensible(ops)
    ensures Throughout(Run, Covered, ops) <==> AtEveryStep(Run, WithinSurplus, ops)
  {
    forall n | 0 <= n < |ops|
      ensures Decides(Run, Covered, WithinSurplus, ops, n)
    {
      RunNext(ops, n);
      if Covered(Run(ops[..n])) {
        StepCoveredExactly(Run(ops[..n]), ops[n]);
      }
    }
    GuardDecidesRun(Run, Covered, WithinSurplus, ops);
  }

  // ---------- the collateral covers a multiple of the debt ----------

  /** No borrow balance is negative, and the collateral is at least q times the debt. */
  ghost predicate RatioPosition(p: Position, q: real) {
    NonNegative(p.borrows) && q * Debt(p) <= Total(p.collateral)
  }

  ghost predicate RatioHeld(s: State, q: real) {
    (forall a :: a in s.markets ==> s.markets[a].requirement >= q) &&
    forall user :: RatioPosition(PositionOf(s, user), q)
  }

  /** What a withdrawal takes, and a liquidation takes beyond its share, is there to spare. */
  ghost predicate Spare(p: Position, op: Op, q: real) {
    (op.WithdrawCollateral? ==> op.amount <= Total(p.collateral) - q * Debt(p)) &&
    (op.Liquidate? ==> op.amount - q * op.amount <= Total(p.collateral) - q * Debt(p))
  }

  ghost predicate WithinRatio(s: State, op: Op, q: real) {
    !op.CreateMarket? && !Refused(s, op) ==> Spare(PositionOf(s, op.user), op, q)
  }

  lemma Scaled(q: real, x: real, y: real)
    ensures q * (x + y) == q * x + q * y
    ensures q >= 0.0 && y >= 0.0 ==> q * y >= 0.0
    ensures q <= x && y >= 0.0 ==> q * y <= y * x
  {
  }

  /** What a borrow brings is at least q times what it takes. */
  lemma BorrowBringsRatio(s: State, op: Op, q: real)
    requires op.Borrow? && !Refused(s, op) && op.amount >= 0.0 && s.markets[op.asset].requirement >= q
    ensures q * op.amount <= op.collateralAmount
  {
    Scaled(q, s.markets[op.asset].requirement, op.amount);
  }

  /** What a call that goes through does to the debt and to the collateral. */
  lemma TotalsChange(p: Position, op: Op)
    requires !op.CreateMarket? && (op.Liquidate? ==> p.collateral != [])
    ensures var after := PositionAfter(p, op);
            Changes(op, Debt(after) - Debt(p), Total(after.collateral) - Total(p.collateral))
  {
    match op
    case Borrow(_, asset, amount, collateralAsset, collateralAmount) =>
      AdjustedAmounts(p.borrows, asset, amount, asset);
      AdjustedAmounts(p.collateral, collateralAsset, collateralAmount, asset);
    case Repay(_, asset, amount) => AdjustedAmounts(p.borrows, asset, -amount, asset);
    case WithdrawCollateral(_, asset, amount) => AdjustedAmounts(p.collateral, asset, -amount, asset);
    case Liquidate(_, asset, amount) =>
      AdjustedAmounts(p.borrows, asset, -amount, asset);
      AdjustedAmounts(p.collateral, p.collateral[0].0, -amount, asset);
    case _ =>
  }

  /** The comparison of the two totals after they have changed by x and y. */
  lemma RatioDecided(q: real, d: real, c: real, x: real, y: real)
    ensures q * (d + x) <= c + y <==> q * x - y <= c - q * d
  {
    assert q * (d + x) == q * d + q * x;
  }

  /** The totals d and c of a position change by x and y. */
  ghost predicate Changes(op: Op, x: real, y: real) {
    x == (if op.Borrow? then op.amount else if op.Repay? || op.Liquidate? then -op.amount else 0.0) &&
    y == (if op.Borrow? then op.collateralAmount
          else if op.WithdrawCollateral? || op.Liquidate? then -op.amount else 0.0)
  }

  lemma SpareDecides(op: Op, q: real, d: real, c: real, x: real, y: real)
    requires !op.CreateMarket? && Changes(op, x, y) && q >= 0.0 && op.amount >= 0.0 && q * d <= c
    requires op.Borrow? ==> q * op.amount <= op.collateralAmount
    ensures q * x - y <= c - q * d <==>
              (op.WithdrawCollateral? ==> op.amount <= c - q * d) &&
              (op.Liquidate? ==> op.amount - q * op.amount <= c - q * d)
  {
    assert q * op.amount >= 0.0;
    assert x == 0.0 ==> q * x == 0.0;
    assert x == -op.amount ==> q * x == -(q * op.amount);
  }

  lemma RatioAfterExactly(p: Position, op: Op, q: real)
    requires RatioPosition(p, q) && q >= 0.0 && !op.CreateMarket? && op.amount >= 0.0
    requires op.Borrow? ==> q * op.amount <= op.collateralAmount
    requires op.Repay? || op.Liquidate? ==> op.amount <= AmountOf(p.borrows, op.asset)
    requires op.Liquidate? ==> p.collateral != []
    ensures RatioPosition(PositionAfter(p, op), q) <==> Spare(p, op, q)
  {
    BorrowsStayNonNegative(p, op);
    TotalsChange(p, op);
    RatioOf(op, PositionAfter(p, op), q, Debt(p), Total(p.collateral));
  }

  lemma RatioOf(op: Op, after: Position, q: real, d: real, c: real)
    requires !op.CreateMarket? && q >= 0.0 && op.amount >= 0.0 && q * d <= c
    requires op.Borrow? ==> q * op.amount <= op.collateralAmount
    requires Changes(op, Debt(after) - d, Total(after.collateral) - c) && NonNegative(after.borrows)
    ensures RatioPosition(after, q) <==>
              (op.WithdrawCollateral? ==> op.amount <= c - q * d) &&
              (op.Liquidate? ==> op.amount - q * op.amount <= c - q * d)
  {
    var x, y := Debt(after) - d, Total(after.collateral) - c;
    RatioDecided(q, d, c, x, y);
    SpareDecides(op, q, d, c, x, y);
    assert d + x == Debt(after) && c + y == Total(after.collateral);
  }

  lemma PositionRatioExactly(s: State, op: Op, q: real)
    requires RatioHeld(s, q) && q >= 0.0 && !op.CreateMarket? && op.amount >= 0.0 && !Refused(s, op)
    ensures RatioPosition(PositionAfter(PositionOf(s, op.user), op), q) <==> WithinRatio(s, op, q)
  {
    assert RatioPosition(PositionOf(s, op.user), q);
    if op.Borrow? {
      BorrowBringsRatio(s, op, q);
    }
    RatioAfterExactly(PositionOf(s, op.user), op, q);
  }

  lemma MarketsReach(s: State, op: Op, q: real)
    requires RatioHeld(s, q) && (op.CreateMarket? ==> op.requirement >= q)
    ensures forall a :: a in Step(s, op).markets ==> Step(s, op).markets[a].requirement >= q
  {
  }

  /** One call leaves every debt q times covered exactly when it is within the ratio. */
  lemma StepRatioExactly(s: State, op: Op, q: real)
    requires RatioHeld(s, q) && q >= 0.0
    requires if op.CreateMarket? then op.requirement >= q else op.amount >= 0.0
    ensures RatioHeld(Step(s, op), q) <==> WithinRatio(s, op, q)
  {
    MarketsReach(s, op, q);
    if !op.CreateMarket? {
      if !Refused(s, op) {
        PositionRatioExactly(s, op, q);
      }
      StepPosition(s, op, op.user);
    }
    if WithinRatio(s, op, q) {
      forall user
        ensures RatioPosition(PositionOf(Step(s, op), user), q)
      {
        StepPosition(s, op, user);
        assert RatioPosition(PositionOf(s, user), q);
      }
    } else {
      assert !RatioPosition(PositionOf(Step(s, op), op.user), q);
    }
  }

  ghost function RatioPromise(q: real): State -> bool {
    s => RatioHeld(s, q)
  }

  ghost function RatioGuard(q: real): (State, Op) -> bool {
    (s, op) => WithinRatio(s, op, q)
  }

  ghost predicate RequirementsReach(ops: seq<Op>, q: real) {
    forall i :: 0 <= i < |ops| ==> ops[i].CreateMarket? ==> ops[i].requirement >= q
  }

  /** For every q that the requirements reach, every user's collateral stays at least q times
      the debt in a run if and only if each withdrawal and liquidation leaves as much. */
  lemma RunRatioExactly(ops: seq<Op>, q: real)
    requires q >= 0.0 && NoneNegative(ops) && RequirementsReach(ops, q)
    ensures Throughout(Run, RatioPromise(q), ops) <==> AtEveryStep(Run, RatioGuard(q), ops)
  {
    forall n | 0 <= n < |ops|
      ensures Decides(Run, RatioPromise(q), RatioGuard(q), ops, n)
    {
      RunNext(ops, n);
      if RatioHeld(Run(ops[..n]), q) {
        assert AmountNotNegative(ops[n]);
        StepRatioExactly(Run(ops[..n]), ops[n], q);
      }
    }
    assert RatioHeld(Run([]), q) by {
      assert q * 0.0 == 0.0;
    }
    GuardDecidesRun(Run, RatioPromise(q), RatioGuard(q), ops);
  }

  ghost predicate TakesNothing(op: Op) {
    !op.WithdrawCollateral? && !op.Liquidate?
  }

  lemma RatioAtEnd(ops: seq<Op>, q: real)
    requires Throughout(Run, RatioPromise(q), ops)
    ensures RatioHeld(Run(ops), q)
  {
    assert ops[..|ops|] == ops;
    assert RatioPromise(q)(Run(ops[..|ops|]));
  }

  lemma NothingTaken(ops: seq<Op>, q: real)
    requires forall i :: 0 <= i < |ops| ==> TakesNothing(ops[i])
    ensures AtEveryStep(Run, RatioGuard(q), ops)
  {
    forall n | 0 <= n < |ops|
      ensures RatioGuard(q)(Run(ops[..n]), ops[n])
    {
      assert TakesNothing(ops[n]);
    }
  }

  /** So deposits, removals, borrows and repayments alone always keep the ratio. */
  lemma RunKeepsRatio(ops: seq<Op>, q: real, user: string)
    requires q >= 0.0 && NoneNegative(ops) && RequirementsReach(ops, q)
    requires forall i :: 0 <= i < |ops| ==> TakesNothing(ops[i])
    ensures RatioPosition(PositionOf(Run(ops), user), q)
  {
    NothingTaken(ops, q);
    RunRatioExactly(ops, q);
    RatioAtEnd(ops, q);
  }

  // ---------- no collateral balance is negative ----------

  ghost predicate BalancesHeld(s: State) {
    RequirementsCover(s) && forall user :: NonNegative(PositionOf(s, user).collateral)
  }

  /** A liquidation that goes through takes at most what the first collateral asset holds. */
  predicate WithinFirstAsset(s: State, op: Op) {
    op.Liquidate? && !Refused(s, op) ==>
      var c := PositionOf(s, op.user).collateral; op.amount <= AmountOf(c, c[0].0)
  }

  lemma PositionBalancesExactly(s: State, op: Op)
    requires BalancesHeld(s) && Sensible(op) && !op.CreateMarket? && !Refused(s, op)
    ensures NonNegative(PositionAfter(PositionOf(s, op.user), op).collateral) <==> WithinFirstAsset(s, op)
  {
    var p := PositionOf(s, op.user);
    assert NonNegative(p.collateral);
    if op.Borrow? {
      NonNegativeTotal(p.collateral, op.collateralAsset);
      PutNonNegative(p.collateral, op.collateralAsset,
                     AmountOf(p.collateral, op.collateralAsset) + op.collateralAmount);
    } else if op.WithdrawCollateral? {
      PutNonNegative(p.collateral, op.asset, AmountOf(p.collateral, op.asset) - op.amount);
    } else if op.Liquidate? {
      LiquidationKeepsBalancesExactly(p, op);
    }
  }

  lemma StepBalancesExactly(s: State, op: Op)
    requires BalancesHeld(s) && Sensible(op)
    ensures BalancesHeld(Step(s, op)) <==> WithinFirstAsset(s, op)
  {
    if !op.CreateMarket? && !Refused(s, op) {
      PositionBalancesExactly(s, op);
      StepPosition(s, op, op.user);
    }
    if WithinFirstAsset(s, op) {
      forall user
        ensures NonNegative(PositionOf(Step(s, op), user).collateral)
      {
        StepHoldsBalances(s, op, user);
      }
    } else {
      assert !NonNegative(PositionOf(Step(s, op), op.user).collateral);
    }
  }

  lemma StepHoldsBalances(s: State, op: Op, user: string)
    requires BalancesHeld(s) && Sensible(op) && WithinFirstAsset(s, op)
    ensures NonNegative(PositionOf(Step(s, op), user).collateral)
  {
    assert NonNegative(PositionOf(s, user).collateral);
    StepPosition(s, op, user);
    if !op.CreateMarket? && op.user == user && !Refused(s, op) {
      PositionBalancesExactly(s, op);
    }
  }

  /** In any run, no collateral balance is ever negative if and only if each liquidation
      stays within the first collateral asset. */
  lemma RunBalancesExactly(ops: seq<Op>)
    requires AllSensible(ops)
    ensures Throughout(Run, BalancesHeld, ops) <==> AtEveryStep(Run, WithinFirstAsset, ops)
  {
    forall n | 0 <= n < |ops|
      ensures Decides(Run, BalancesHeld, WithinFirstAsset, ops, n)
    {
      RunNext(ops, n);
      if BalancesHeld(Run(ops[..n])) {
        StepBalancesExactly(Run(ops[..n]), ops[n]);
      }
    }
    GuardDecidesRun(Run, BalancesHeld, WithinFirstAsset, ops);
  }

  lemma {:induction false} BalanceWithinTotal(m: Amounts, asset: string)
    requires NonNegative(m)
    ensures AmountOf(m, asset) <= Total(m)
  {
    if m != [] {
      NonNegativeTotal(m[1..], asset);
      BalanceWithinTotal(m[1..], asset);
    }
  }

  /** Without negative balances a withdrawal that returns is within the surplus. */
  lemma ReturningWithdrawalWithinSurplus(s: State, op: Op)
    requires Covered(s) && BalancesHeld(s) && (Returns(s, op) || Refused(s, op))
    ensures WithinSurplus(s, op)
  {
    if op.WithdrawCollateral? && !Refused(s, op) {
      var p := PositionOf(s, op.user);
      assert CoveredPosition(p) && NonNegative(p.collateral);
      WithdrawalExactly(p, op);
      BalanceWithinTotal(p.collateral, op.asset);
    }
  }

  /** No withdrawal throws halfway, after it has subtracted. */
  predicate NotHalfway(s: State, op: Op) {
    Returns(s, op) || Refused(s, op)
  }

  /** So the one thing that can take a run without half-done withdrawals below its debts is
      a liquidation beyond the first collateral asset. */
  lemma RunKeepsSolvency(ops: seq<Op>)
    requires AllSensible(ops)
    requires AtEveryStep(Run, NotHalfway, ops) && AtEveryStep(Run, WithinFirstAsset, ops)
    ensures Throughout(Run, Covered, ops)
  {
    RunBalancesExactly(ops);
    forall n | 0 <= n <= |ops|
      ensures Covered(Run(ops[..n]))
    {
      CoveredUpTo(ops, n);
    }
  }

  lemma {:induction false} CoveredUpTo(ops: seq<Op>, n: nat)
    requires n <= |ops| && AllSensible(ops)
    requires AtEveryStep(Run, NotHalfway, ops) && Throughout(Run, BalancesHeld, ops)
    ensures Covered(Run(ops[..n]))
  {
    if n == 0 {
      assert ops[..0] == [];
    } else {
      CoveredUpTo(ops, n - 1);
      var s, op := Run(ops[..n - 1]), ops[n - 1];
      assert NotHalfway(s, op) && BalancesHeld(s);
      ReturningWithdrawalWithinSurplus(s, op);
      StepCoveredExactly(s, op);
      RunNext(ops, n - 1);
    }
  }

  // ---------- no market's reserves are negative ----------

  ghost predicate ReservesHeld(s: State) {
    forall a :: a in s.markets ==> s.markets[a].reserves >= 0.0
  }

  /** A removal that goes through takes at most what the market has in reserve; the source
      looks at the deposit alone. */
  predicate WithinReserves(s: State, op: Op) {
    op.RemoveLiquidity? && !Refused(s, op) ==> op.amount <= s.markets[op.asset].reserves
  }

  lemma StepReservesExactly(s: State, op: Op)
    requires ReservesHeld(s) && AmountNotNegative(op)
    ensures ReservesHeld(Step(s, op)) <==> WithinReserves(s, op)
  {
    if !op.CreateMarket? && !op.WithdrawCollateral? && !Refused(s, op) {
      assert Step(s, op).markets[op.asset] == MarketAfter(s.markets[op.asset], op);
      assert s.markets[op.asset].reserves >= 0.0;
    }
  }

  /** In any run, no market's reserves are ever negative if and only if each removal stays
      within them. */
  lemma RunReservesExactly(ops: seq<Op>)
    requires NoneNegative(ops)
    ensures Throughout(Run, ReservesHeld, ops) <==> AtEveryStep(Run, WithinReserves, ops)
  {
    forall n | 0 <= n < |ops|
      ensures Decides(Run, ReservesHeld, WithinReserves, ops, n)
    {
      RunNext(ops, n);
      if ReservesHeld(Run(ops[..n])) {
        StepReservesExactly(Run(ops[..n]), ops[n]);
      }
    }
    GuardDecidesRun(Run, ReservesHeld, WithinReserves, ops);
  }

  // ---------- a run in which solvency fails ----------

  ghost predicate AllReturn(ops: seq<Op>) {
    forall n :: 0 <= n < |ops| ==> Returns(Run(ops[..n]), ops[n])
  }

  /** Two markets; the user borrows 11 of a against 1 of a and 10 of b, is liquidated for
      the whole debt, and withdraws the 10 of b. */
  ghost predicate Uncovered(ops: seq<Op>, a: string, b: string, lender: string, user: string) {
    |ops| == 7 &&
    ops[0] == CreateMarket(a, 1.0, 0.0) && ops[1] == CreateMarket(b, 1.0, 0.0) &&
    ops[2] == AddLiquidity(lender, a, 11.0) &&
    ops[3] == Borrow(user, a, 1.0, a, 1.0) && ops[4] == Borrow(user, a, 10.0, b, 10.0) &&
    ops[5] == Liquidate(user, a, 11.0) && ops[6] == WithdrawCollateral(user, b, 10.0)
  }

  /** The reserves of a and the user's position, with both markets open. */
  function Books(s: State, a: string, b: string, user: string): Option<(real, Position)> {
    var p := PositionOf(s, user);
    if a in s.markets && b in s.markets && s.markets[a].requirement == 1.0 &&
       (p == NO_POSITION || Has(s.positions, user))
    then Some((s.markets[a].reserves, p)) else None
  }

  /** What these come to, step by step. */
  ghost predicate Reached(s: State, a: string, b: string, user: string, p: Position, reserves: real) {
    Books(s, a, b, user) == Some((reserves, p))
  }

  lemma UncoveredMarkets(ops: seq<Op>, a: string, b: string, lender: string, user: string)
    requires a != b && lender != user && Uncovered(ops, a, b, lender, user)
    ensures Reached(Run(ops[..3]), a, b, user, NO_POSITION, 11.0)
    ensures Returns(Run(ops[..0]), ops[0]) && Returns(Run(ops[..1]), ops[1]) && Returns(Run(ops[..2]), ops[2])
  {
    FirstThree(ops);
    LendingPhase(State(map[], []), a, b, lender, user);
  }

  lemma FirstThree(ops: seq<Op>)
    requires |ops| >= 3
    ensures Run(ops[..0]) == State(map[], []) && Run(ops[..1]) == Step(Run(ops[..0]), ops[0])
    ensures Run(ops[..2]) == Step(Run(ops[..1]), ops[1]) && Run(ops[..3]) == Step(Run(ops[..2]), ops[2])
  {
    assert Run(ops[..1]) == Step(Run(ops[..0]), ops[0]) by {
      RunNext(ops, 0);
    }
    assert Run(ops[..2]) == Step(Run(ops[..1]), ops[1]) by {
      RunNext(ops, 1);
    }
    assert Run(ops[..3]) == Step(Run(ops[..2]), ops[2]) by {
      RunNext(ops, 2);
    }
  }

  lemma LendingPhase(s: State, a: string, b: string, lender: string, user: string)
    requires a != b && lender != user && s == State(map[], [])
    ensures var first, second := CreateMarket(a, 1.0, 0.0), CreateMarket(b, 1.0, 0.0);
            var third := AddLiquidity(lender, a, 11.0);
            var s1 := Step(s, first);
            var s2 := Step(s1, second);
            Returns(s, first) && Returns(s1, second) && Returns(s2, third) &&
            Reached(Step(s2, third), a, b, user, NO_POSITION, 11.0)
  {
    var s2 := Step(Step(s, CreateMarket(a, 1.0, 0.0)), CreateMarket(b, 1.0, 0.0));
    StepPosition(s2, AddLiquidity(lender, a, 11.0), user);
  }

  /** One borrow of the run. */
  lemma UncoveredBorrow(s: State, a: string, b: string, user: string, p: Position, reserves: real, op: Op)
    requires Reached(s, a, b, user, p, reserves) && op.Borrow? && op.user == user && op.asset == a
    requires op.collateralAsset in s.markets && op.amount == op.collateralAmount <= reserves
    ensures Returns(s, op) && Reached(Step(s, op), a, b, user, PositionAfter(p, op), reserves - op.amount)
  {
    StepPosition(s, op, user);
    GetAfterPut(s.positions, user, PositionAfter(p, op), user);
  }

  lemma OneEntry(a: string, x: real, b: string, y: real)
    ensures var m := [(a, x)];
            Total(m) == x && Get(m, a) == Some(x) && Put(m, a, y) == [(a, y)] &&
            (a != b ==> Get(m, b) == None && Put(m, b, y) == [(a, x), (b, y)])
  {
    var m := [(a, x)];
    assert m[1..] == [];
    assert Put(m[1..], b, y) == [(b, y)];
    assert Total(m) == x + Total(m[1..]);
  }

  lemma TwoEntries(a: string, x: real, b: string, y: real, z: real)
    requires a != b
    ensures var m := [(a, x), (b, y)];
            Total(m) == x + y && Get(m, a) == Some(x) && Get(m, b) == Some(y) && Has(m, b) &&
            Put(m, a, z) == [(a, z), (b, y)] && Put(m, b, z) == [(a, x), (b, z)]
  {
    var m := [(a, x), (b, y)];
    assert m[1..] == [(b, y)];
    OneEntry(b, y, b, z);
    assert Total(m) == x + Total(m[1..]);
    HasIsSome(m, b);
  }

  lemma TwoLoans(a: string, b: string, user: string)
    requires a != b
    ensures var p := PositionAfter(PositionAfter(NO_POSITION, Borrow(user, a, 1.0, a, 1.0)),
                                   Borrow(user, a, 10.0, b, 10.0));
            p == Position([], [(a, 11.0)], [(a, 1.0), (b, 10.0)])
  {
    assert PositionAfter(NO_POSITION, Borrow(user, a, 1.0, a, 1.0)) == Position([], [(a, 1.0)], [(a, 1.0)]);
    OneEntry(a, 1.0, a, 11.0);
    OneEntry(a, 1.0, b, 10.0);
  }

  lemma LiquidatedLoans(a: string, b: string, user: string)
    requires a != b
    ensures var p := Position([], [(a, 11.0)], [(a, 1.0), (b, 10.0)]);
            !AboveWater(p) && AmountOf(p.borrows, a) == 11.0 && Has(p.borrows, a) &&
            PositionAfter(p, Liquidate(user, a, 11.0)) == Position([], [(a, 0.0)], [(a, -10.0), (b, 10.0)])
  {
    OneEntry(a, 11.0, a, 0.0);
    TwoEntries(a, 1.0, b, 10.0, -10.0);
  }

  lemma EmptiedPosition(a: string, b: string, user: string)
    requires a != b
    ensures var p := Position([], [(a, 0.0)], [(a, -10.0), (b, 10.0)]);
            var after := PositionAfter(p, WithdrawCollateral(user, b, 10.0));
            AmountOf(p.collateral, b) == 10.0 && Has(p.collateral, b) &&
            Debt(after) == 0.0 && Total(after.collateral) == -10.0
  {
    OneEntry(a, 0.0, a, 0.0);
    TwoEntries(a, -10.0, b, 10.0, 0.0);
    TwoEntries(a, -10.0, b, 0.0, 0.0);
  }

  lemma LoanPhase(s: State, a: string, b: string, user: string)
    requires a != b && Reached(s, a, b, user, NO_POSITION, 11.0)
    ensures var first, second := Borrow(user, a, 1.0, a, 1.0), Borrow(user, a, 10.0, b, 10.0);
            Returns(s, first) && Returns(Step(s, first), second) &&
            Reached(Step(Step(s, first), second), a, b, user, Position([], [(a, 11.0)], [(a, 1.0), (b, 10.0)]), 0.0)
  {
    var first, second := Borrow(user, a, 1.0, a, 1.0), Borrow(user, a, 10.0, b, 10.0);
    UncoveredBorrow(s, a, b, user, NO_POSITION, 11.0, first);
    UncoveredBorrow(Step(s, first), a, b, user, PositionAfter(NO_POSITION, first), 10.0, second);
    TwoLoans(a, b, user);
  }

  lemma ClosingPhase(s: State, a: string, b: string, user: string)
    requires a != b && Reached(s, a, b, user, Position([], [(a, 11.0)], [(a, 1.0), (b, 10.0)]), 0.0)
    ensures var liquidation, withdrawal := Liquidate(user, a, 11.0), WithdrawCollateral(user, b, 10.0);
            var after := Step(Step(s, liquidation), withdrawal);
            Returns(s, liquidation) && Returns(Step(s, liquidation), withdrawal) &&
            Debt(PositionOf(after, user)) == 0.0 && Total(PositionOf(after, user).collateral) == -10.0
  {
    var liquidation, withdrawal := Liquidate(user, a, 11.0), WithdrawCollateral(user, b, 10.0);
    LiquidatedLoans(a, b, user);
    EmptiedPosition(a, b, user);
    StepPosition(s, liquidation, user);
    StepPosition(Step(s, liquidation), withdrawal, user);
  }

  lemma UncoveredLoans(ops: seq<Op>, a: string, b: string, lender: string, user: string)
    requires a != b && lender != user && Uncovered(ops, a, b, lender, user)
    ensures Returns(Run(ops[..3]), ops[3]) && Returns(Run(ops[..4]), ops[4])
    ensures Reached(Run(ops[..5]), a, b, user, Position([], [(a, 11.0)], [(a, 1.0), (b, 10.0)]), 0.0)
  {
    UncoveredMarkets(ops, a, b, lender, user);
    RunNext(ops, 3);
    RunNext(ops, 4);
    LoanPhase(Run(ops[..3]), a, b, user);
  }

  lemma UncoveredReturns(ops: seq<Op>, a: string, b: string, lender: string, user: string)
    requires a != b && lender != user && Uncovered(ops, a, b, lender, user)
    ensures AllReturn(ops)
  {
    UncoveredMarkets(ops, a, b, lender, user);
    UncoveredLoans(ops, a, b, lender, user);
    LastTwo(ops);
    ClosingPhase(Run(ops[..5]), a, b, user);
    forall n | 0 <= n < |ops|
      ensures Returns(Run(ops[..n]), ops[n])
    {
      assert n == 0 || n == 1 || n == 2 || n == 3 || n == 4 || n == 5 || n == 6;
    }
  }

  /** Non-negative amounts, requirements of 1 and calls that all return normally; yet the
      collateral ends below the debt: the liquidation drives the first collateral asset
      below zero, and without debt the rest can be withdrawn. */
  lemma SolvencyCanFail(ops: seq<Op>, a: string, b: string, lender: string, user: string)
    requires a != b && lender != user && Uncovered(ops, a, b, lender, user)
    ensures AllReturn(ops)
    ensures Total(PositionOf(Run(ops), user).collateral) < Debt(PositionOf(Run(ops), user))
  {
    UncoveredReturns(ops, a, b, lender, user);
    UncoveredLoans(ops, a, b, lender, user);
    LastTwo(ops);
    ClosingPhase(Run(ops[..5]), a, b, user);
  }

  lemma LastTwo(ops: seq<Op>)
    requires |ops| == 7
    ensures Run(ops[..6]) == Step(Run(ops[..5]), ops[5]) && Run(ops) == Step(Run(ops[..6]), ops[6])
  {
    assert ops[..7] == ops;
    RunNext(ops, 5);
    RunNext(ops, 6);
  }

  // ---------- a run in which the reserves fail ----------

  /** A lender deposits 10, a borrower takes all of it, and the lender removes the deposit. */
  ghost predicate Drained(ops: seq<Op>, a: string, lender: string, borrower: string) {
    |ops| == 4 && ops[0] == CreateMarket(a, 1.0, 0.0) && ops[1] == AddLiquidity(lender, a, 10.0) &&
    ops[2] == Borrow(borrower, a, 10.0, a, 10.0) && ops[3] == RemoveLiquidity(lender, a, 10.0)
  }

  /** The market's reserves, with the lender's deposit still in the books. */
  function LentBooks(s: State, a: string, lender: string): Option<(real, Amounts)> {
    if a in s.markets && s.markets[a].requirement == 1.0
    then Some((s.markets[a].reserves, PositionOf(s, lender).deposits)) else None
  }

  ghost predicate Lent(s: State, a: string, lender: string, reserves: real) {
    LentBooks(s, a, lender) == Some((reserves, [(a, 10.0)]))
  }

  lemma BorrowTen(s: State, a: string, lender: string, borrower: string)
    requires lender != borrower && Lent(s, a, lender, 10.0)
    ensures var loan := Borrow(borrower, a, 10.0, a, 10.0); Returns(s, loan) && Lent(Step(s, loan), a, lender, 0.0)
  {
    StepPosition(s, Borrow(borrower, a, 10.0, a, 10.0), lender);
  }

  lemma DrainedStates(ops: seq<Op>, a: string, lender: string, borrower: string)
    requires lender != borrower && Drained(ops, a, lender, borrower)
    ensures Returns(Run(ops[..0]), ops[0]) && Returns(Run(ops[..1]), ops[1]) && Returns(Run(ops[..2]), ops[2])
    ensures Lent(Run(ops[..3]), a, lender, 0.0)
  {
    FirstThree(ops);
    BorrowTen(Run(ops[..2]), a, lender, borrower);
  }

  /** Every call returns, yet the market ends 10 below zero. */
  lemma ReservesCanFail(ops: seq<Op>, a: string, lender: string, borrower: string)
    requires lender != borrower && Drained(ops, a, lender, borrower)
    ensures AllReturn(ops)
    ensures a in Run(ops).markets && Run(ops).markets[a].reserves == -10.0
  {
    DrainedStates(ops, a, lender, borrower);
    RunNext(ops, 3);
    assert ops[..4] == ops;
    forall n | 0 <= n < |ops|
      ensures Returns(Run(ops[..n]), ops[n])
    {
      assert n == 0 || n == 1 || n == 2 || n == 3;
    }
  }
}
