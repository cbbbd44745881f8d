/**
 What each call of the lending ledger (src/runtime/lending.js) does, in amounts: exactly
 when it returns, what it moves then, and that nothing else moves.
 */
module LendingCalls {
  import opened JsMap
  import opened Wrappers

  import opened Lending

  // ---------- amounts ----------

  function DepositOf(s: State, user: string, asset: string): real {
    AmountOf(PositionOf(s, user).deposits, asset)
  }

  function BorrowOf(s: State, user: string, asset: string): real {
    AmountOf(PositionOf(s, user).borrows, asset)
  }

  function CollateralOf(s: State, user: string, asset: string): real {
    AmountOf(PositionOf(s, user).collateral, asset)
  }

  /** Between two states only these amounts of one user and one asset differ. */
  ghost predicate Moved(s: State, t: State, user: string, asset: string, deposit: real, borrow: real,
                        collateralAsset: string, collateral: real) {
    forall u, a ::
      DepositOf(t, u, a) == DepositOf(s, u, a) + (if u == user && a == asset then deposit else 0.0) &&
      BorrowOf(t, u, a) == BorrowOf(s, u, a) + (if u == user && a == asset then borrow else 0.0) &&
      CollateralOf(t, u, a) == CollateralOf(s, u, a) + (if u == user && a == collateralAsset then collateral else 0.0)
  }

  /** Only this market differs, and in no more than these totals and its utilization. */
  ghost predicate Traded(s: State, t: State, asset: string, supply: real, borrowed: real, reserves: real) {
    t.markets.Keys == s.markets.Keys && asset in s.markets &&
    (forall a :: a in s.markets && a != asset ==> t.markets[a] == s.markets[a]) &&
    var m, m' := s.markets[asset], t.markets[asset];
    m'.supply == m.supply + supply && m'.borrowed == m.borrowed + borrowed && m'.reserves == m.reserves + reserves &&
    m'.requirement == m.requirement && m'.interestRate == m.interestRate
  }

  /** The share of the supply that is lent out, and none without supply. */
  ghost predicate UtilizationCurrent(m: Market) {
    (m.supply == 0.0 ==> m.utilization == 0.0) && (m.supply != 0.0 ==> m.utilization * m.supply == m.borrowed)
  }

  ghost predicate NothingMoved(s: State, t: State) {
    t.markets == s.markets && forall u :: PositionOf(t, u) == PositionOf(s, u)
  }

  // ---------- the calls ----------

  lemma RefusedMovesNothing(s: State, op: Op)
    requires Refused(s, op)
    ensures NothingMoved(s, Step(s, op))
  {
    forall u
      ensures PositionOf(Step(s, op), u) == PositionOf(s, u)
    {
      StepPosition(s, op, u);
    }
  }

  lemma UtilizedCurrent(m: Market)
    ensures UtilizationCurrent(Utilized(m))
  {
    if m.supply != 0.0 {
      assert m.borrowed / m.supply * m.supply == m.borrowed;
    }
  }

  lemma CreationExactly(s: State, asset: string, requirement: real, rate: real)
    ensures var op := CreateMarket(asset, requirement, rate);
            (Returns(s, op) <==> asset !in s.markets) && Step(s, op).positions == s.positions &&
            Step(s, op).markets ==
              if asset in s.markets then s.markets
              else s.markets[asset := Market(requirement, rate, 0.0, 0.0, 0.0, 0.0)]
  {
  }

  lemma DepositMoves(s: State, user: string, asset: string, amount: real)
    requires Returns(s, AddLiquidity(user, asset, amount))
    ensures Moved(s, Step(s, AddLiquidity(user, asset, amount)), user, asset, amount, 0.0, asset, 0.0)
  {
    var op := AddLiquidity(user, asset, amount);
    forall u, a
      ensures DepositOf(Step(s, op), u, a) ==
              DepositOf(s, u, a) + (if u == user && a == asset then amount else 0.0)
      ensures BorrowOf(Step(s, op), u, a) == BorrowOf(s, u, a)
      ensures CollateralOf(Step(s, op), u, a) == CollateralOf(s, u, a)
    {
      StepPosition(s, op, u);
      AdjustedAmounts(PositionOf(s, user).deposits, asset, amount, a);
    }
  }

  lemma DepositExactly(s: State, user: string, asset: string, amount: real)
    ensures var op := AddLiquidity(user, asset, amount);
            var t := Step(s, op);
            (Returns(s, op) <==> asset in s.markets) &&
            if asset in s.markets then
              Moved(s, t, user, asset, amount, 0.0, asset, 0.0) && Traded(s, t, asset, amount, 0.0, amount) &&
              UtilizationCurrent(t.markets[asset])
            else NothingMoved(s, t)
  {
    var op := AddLiquidity(user, asset, amount);
    if asset in s.markets {
      DepositMoves(s, user, asset, amount);
      UtilizedCurrent(s.markets[asset].(supply := s.markets[asset].supply + amount,
                                        reserves := s.markets[asset].reserves + amount));
    } else {
      RefusedMovesNothing(s, op);
    }
  }

  lemma RemovalMoves(s: State, user: string, asset: string, amount: real)
    requires Returns(s, RemoveLiquidity(user, asset, amount))
    ensures Moved(s, Step(s, RemoveLiquidity(user, asset, amount)), user, asset, -amount, 0.0, asset, 0.0)
  {
    var op := RemoveLiquidity(user, asset, amount);
    forall u, a
      ensures DepositOf(Step(s, op), u, a) ==
              DepositOf(s, u, a) + (if u == user && a == asset then -amount else 0.0)
      ensures BorrowOf(Step(s, op), u, a) == BorrowOf(s, u, a)
      ensures CollateralOf(Step(s, op), u, a) == CollateralOf(s, u, a)
    {
      StepPosition(s, op, u);
      AdjustedAmounts(PositionOf(s, user).deposits, asset, -amount, a);
    }
  }

  /** The reserves are not looked at. */
  lemma RemovalExactly(s: State, user: string, asset: string, amount: real)
    ensures var op := RemoveLiquidity(user, asset, amount);
            var t := Step(s, op);
            (Returns(s, op) <==> asset in s.markets && Has(PositionOf(s, user).deposits, asset) &&
                                 amount <= DepositOf(s, user, asset)) &&
            if Returns(s, op) then
              Moved(s, t, user, asset, -amount, 0.0, asset, 0.0) && Traded(s, t, asset, -amount, 0.0, -amount) &&
              UtilizationCurrent(t.markets[asset])
            else NothingMoved(s, t)
  {
    var op := RemoveLiquidity(user, asset, amount);
    if Returns(s, op) {
      RemovalMoves(s, user, asset, amount);
      UtilizedCurrent(s.markets[asset].(supply := s.markets[asset].supply - amount,
                                        reserves := s.markets[asset].reserves - amount));
    } else {
      RefusedMovesNothing(s, op);
    }
  }

  lemma LoanMoves(s: State, user: string, asset: string, amount: real, collateralAsset: string, collateral: real)
    requires Returns(s, Borrow(user, asset, amount, collateralAsset, collateral))
    ensures Moved(s, Step(s, Borrow(user, asset, amount, collateralAsset, collateral)), user, asset, 0.0, amount,
                  collateralAsset, collateral)
  {
    var op := Borrow(user, asset, amount, collateralAsset, collateral);
    forall u, a
      ensures DepositOf(Step(s, op), u, a) == DepositOf(s, u, a)
      ensures BorrowOf(Step(s, op), u, a) ==
              BorrowOf(s, u, a) + (if u == user && a == asset then amount else 0.0)
      ensures CollateralOf(Step(s, op), u, a) ==
              CollateralOf(s, u, a) + (if u == user && a == collateralAsset then collateral else 0.0)
    {
      StepPosition(s, op, u);
      AdjustedAmounts(PositionOf(s, user).borrows, asset, amount, a);
      AdjustedAmounts(PositionOf(s, user).collateral, collateralAsset, collateral, a);
    }
  }

  /** A loan is given if and only if both assets have a market, the reserves hold the amount,
      and the collateral brought is the amount times the market's requirement. */
  lemma LoanExactly(s: State, user: string, asset: string, amount: real, collateralAsset: string, collateral: real)
    ensures var op := Borrow(user, asset, amount, collateralAsset, collateral);
            var t := Step(s, op);
            (Returns(s, op) <==> asset in s.markets && collateralAsset in s.markets &&
                                 amount <= s.markets[asset].reserves &&
                                 amount * s.markets[asset].requirement <= collateral) &&
            if Returns(s, op) then
              Moved(s, t, user, asset, 0.0, amount, collateralAsset, collateral) &&
              Traded(s, t, asset, 0.0, amount, -amount) && UtilizationCurrent(t.markets[asset])
            else NothingMoved(s, t)
  {
    var op := Borrow(user, asset, amount, collateralAsset, collateral);
    if Returns(s, op) {
      LoanMoves(s, user, asset, amount, collateralAsset, collateral);
      UtilizedCurrent(s.markets[asset].(borrowed := s.markets[asset].borrowed + amount,
                                        reserves := s.markets[asset].reserves - amount));
    } else {
      RefusedMovesNothing(s, op);
    }
  }

  /** A refused loan still registers a stranger once the markets and the reserves would do. */
  lemma LoanRegisters(s: State, user: string, asset: string, amount: real, collateralAsset: string, collateral: real,
                      other: string)
    ensures var t := Step(s, Borrow(user, asset, amount, collateralAsset, collateral));
            Has(t.positions, other) <==>
              Has(s.positions, other) ||
              (other == user && asset in s.markets && collateralAsset in s.markets &&
               amount <= s.markets[asset].reserves)
  {
    var op := Borrow(user, asset, amount, collateralAsset, collateral);
    GetAfterPut(s.positions, user, PositionOf(s, user), other);
    GetAfterPut(s.positions, user, PositionAfter(PositionOf(s, user), op), other);
  }

  lemma RepaymentMoves(s: State, user: string, asset: string, amount: real)
    requires Returns(s, Repay(user, asset, amount))
    ensures Moved(s, Step(s, Repay(user, asset, amount)), user, asset, 0.0, -amount, asset, 0.0)
  {
    var op := Repay(user, asset, amount);
    forall u, a
      ensures DepositOf(Step(s, op), u, a) == DepositOf(s, u, a)
      ensures BorrowOf(Step(s, op), u, a) == BorrowOf(s, u, a) + (if u == user && a == asset then -amount else 0.0)
      ensures CollateralOf(Step(s, op), u, a) == CollateralOf(s, u, a)
    {
      StepPosition(s, op, u);
      AdjustedAmounts(PositionOf(s, user).borrows, asset, -amount, a);
    }
  }

  lemma RepaymentExactly(s: State, user: string, asset: string, amount: real)
    ensures var op := Repay(user, asset, amount);
            var t := Step(s, op);
            (Returns(s, op) <==> asset in s.markets && Has(PositionOf(s, user).borrows, asset) &&
                                 amount <= BorrowOf(s, user, asset)) &&
            if Returns(s, op) then
              Moved(s, t, user, asset, 0.0, -amount, asset, 0.0) && Traded(s, t, asset, 0.0, -amount, amount) &&
              UtilizationCurrent(t.markets[asset])
            else NothingMoved(s, t)
  {
    var op := Repay(user, asset, amount);
    if Returns(s, op) {
      RepaymentMoves(s, user, asset, amount);
      UtilizedCurrent(s.markets[asset].(borrowed := s.markets[asset].borrowed - amount,
                                        reserves := s.markets[asset].reserves + amount));
    } else {
      RefusedMovesNothing(s, op);
    }
  }

  /** Past the balance check the collateral is gone, whether or not the call then throws;
      it returns if and only if there is no debt or the quotient stays at least 1. */
  lemma CollateralWithdrawalExactly(s: State, user: string, asset: string, amount: real)
    ensures var op := WithdrawCollateral(user, asset, amount);
            var t := Step(s, op);
            var debt, left := Debt(PositionOf(s, user)), Total(PositionOf(s, user).collateral) - amount;
            var held := Has(PositionOf(s, user).collateral, asset) && amount <= CollateralOf(s, user, asset);
            t.markets == s.markets &&
            (Returns(s, op) <==> held && (debt == 0.0 || left / debt >= 1.0)) &&
            if held then Moved(s, t, user, asset, 0.0, 0.0, asset, -amount) else NothingMoved(s, t)
  {
    var op := WithdrawCollateral(user, asset, amount);
    var p := PositionOf(s, user);
    AdjustedAmounts(p.collateral, asset, -amount, asset);
    if Debt(p) != 0.0 {
      FactorComparison(Total(p.collateral) - amount, Debt(p));
    }
    if Refused(s, op) {
      RefusedMovesNothing(s, op);
    } else {
      forall u, a
        ensures DepositOf(Step(s, op), u, a) == DepositOf(s, u, a)
        ensures BorrowOf(Step(s, op), u, a) == BorrowOf(s, u, a)
        ensures CollateralOf(Step(s, op), u, a) ==
                CollateralOf(s, u, a) + (if u == user && a == asset then -amount else 0.0)
      {
        StepPosition(s, op, u);
        AdjustedAmounts(p.collateral, asset, -amount, a);
      }
    }
  }

  lemma LiquidationMoves(s: State, user: string, asset: string, amount: real)
    requires Returns(s, Liquidate(user, asset, amount))
    ensures var p, t := PositionOf(s, user), Step(s, Liquidate(user, asset, amount));
            p.collateral != [] && Moved(s, t, user, asset, 0.0, -amount, p.collateral[0].0, -amount)
  {
    var op, p := Liquidate(user, asset, amount), PositionOf(s, user);
    forall u, a
      ensures DepositOf(Step(s, op), u, a) == DepositOf(s, u, a)
      ensures BorrowOf(Step(s, op), u, a) == BorrowOf(s, u, a) + (if u == user && a == asset then -amount else 0.0)
      ensures CollateralOf(Step(s, op), u, a) ==
              CollateralOf(s, u, a) + (if u == user && a == p.collateral[0].0 then -amount else 0.0)
    {
      StepPosition(s, op, u);
      AdjustedAmounts(p.borrows, asset, -amount, a);
      AdjustedAmounts(p.collateral, p.collateral[0].0, -amount, a);
    }
  }

  /** Exactly when a liquidation returns: the quotient of collateral and debt is at most 1. */
  lemma LiquidationReturnsExactly(s: State, user: string, asset: string, amount: real)
    requires Proper(s)
    ensures var p := PositionOf(s, user);
            Returns(s, Liquidate(user, asset, amount)) <==>
              Debt(p) != 0.0 && Total(p.collateral) / Debt(p) <= 1.0 && Has(p.borrows, asset) &&
              amount <= BorrowOf(s, user, asset)
  {
    var p := PositionOf(s, user);
    assert ProperPosition(s.markets, p);
    HasIsSome(s.positions, user);
    HasIsSome(p.borrows, asset);
    if Debt(p) != 0.0 {
      FactorComparison(Total(p.collateral), Debt(p));
    }
  }

  /** On a reachable state a liquidation pays the debt from the first collateral asset, and
      leaves the reserves and the utilization as they were. */
  lemma LiquidationExactly(s: State, user: string, asset: string, amount: real)
    requires Proper(s)
    ensures var op, p := Liquidate(user, asset, amount), PositionOf(s, user);
            var t := Step(s, op);
            (Returns(s, op) <==> Debt(p) != 0.0 && Total(p.collateral) / Debt(p) <= 1.0 && Has(p.borrows, asset) &&
                                 amount <= BorrowOf(s, user, asset)) &&
            if Returns(s, op) then
              p.collateral != [] && Moved(s, t, user, asset, 0.0, -amount, p.collateral[0].0, -amount) &&
              Traded(s, t, asset, 0.0, -amount, 0.0) &&
              t.markets[asset].utilization == s.markets[asset].utilization
            else NothingMoved(s, t)
  {
    var op := Liquidate(user, asset, amount);
    LiquidationReturnsExactly(s, user, asset, amount);
    if Returns(s, op) {
      LiquidationMoves(s, user, asset, amount);
    } else {
      RefusedMovesNothing(s, op);
    }
  }
}
