/**
 The lending ledger (src/runtime/lending.js), over real numbers.  Every price is 1, as in
 the source.

 `RunKeepsLedger`: in every run the users' deposits and borrows add up to the market's
 totals, and reserves, borrows and what was liquidated add up to the supply.
 `LendingPromises` is about what the ledger does not check.
 */
module Lending {
  import opened Wrappers
  import opened JsMap

  type Amounts = Map<string, real>

  datatype Market = Market(
    requirement: real, interestRate: real, supply: real, borrowed: real, reserves: real, utilization: real)

  datatype Position = Position(deposits: Amounts, borrows: Amounts, collateral: Amounts)

  datatype State = State(markets: map<string, Market>, positions: Map<string, Position>)

  datatype Op =
    | CreateMarket(asset: string, requirement: real, rate: real)
    | AddLiquidity(user: string, asset: string, amount: real)
    | RemoveLiquidity(user: string, asset: string, amount: real)
    | Borrow(user: string, asset: string, amount: real, collateralAsset: string, collateralAmount: real)
    | Repay(user: string, asset: string, amount: real)
    | WithdrawCollateral(user: string, asset: string, amount: real)
    | Liquidate(user: string, asset: string, amount: real)

  const NO_POSITION: Position := Position([], [], [])

  // ---------- sums ----------

  function SumBy<V(!new)>(m: Map<string, V>, weight: V -> real): real {
    if m == [] then 0.0 else weight(m[0].1) + SumBy(m[1..], weight)
  }

  function Total(m: Amounts): real {
    SumBy(m, (x: real) => x)
  }

  function AmountOf(m: Amounts, asset: string): real {
    var found := Get(m, asset);
    if found.Some? then found.value else 0.0
  }

  function PositionOf(s: State, user: string): Position {
    var found := Get(s.positions, user);
    if found.Some? then found.value else NO_POSITION
  }

  /** Setting one entry changes a sum by the difference of the two weights. */
  lemma {:induction false} SumAfterPut<V(!new)>(m: Map<string, V>, weight: V -> real, key: string, value: V)
    ensures SumBy(Put(m, key, value), weight)
         == SumBy(m, weight) + weight(value) - (if Get(m, key).Some? then weight(Get(m, key).value) else 0.0)
  {
    if m != [] && m[0].0 != key {
      SumAfterPut(m[1..], weight, key, value);
      assert Put(m, key, value)[1..] == Put(m[1..], key, value);
    } else if m != [] {
      assert Put(m, key, value)[1..] == m[1..];
    }
  }

  function Adjusted(m: Amounts, asset: string, change: real): Amounts {
    Put(m, asset, AmountOf(m, asset) + change)
  }

  lemma AdjustedAmounts(m: Amounts, asset: string, change: real, other: string)
    ensures AmountOf(Adjusted(m, asset, change), other) == AmountOf(m, other) + if other == asset then change else 0.0
    ensures Total(Adjusted(m, asset, change)) == Total(m) + change
    ensures Has(Adjusted(m, asset, change), other) <==> other == asset || Has(m, other)
    ensures Adjusted(m, asset, change) != []
  {
    GetAfterPut(m, asset, AmountOf(m, asset) + change, other);
    SumAfterPut(m, (x: real) => x, asset, AmountOf(m, asset) + change);
  }

  // ---------- the operations ----------

  function Utilized(m: Market): Market {
    m.(utilization := if m.supply == 0.0 then 0.0 else m.borrowed / m.supply)
  }

  function WithPosition(s: State, user: string, p: Position): State {
    s.(positions := Put(s.positions, user, p))
  }

  /** One market and one position change together. */
  function Booked(s: State, asset: string, m: Market, user: string, p: Position): State {
    State(s.markets[asset := m], Put(s.positions, user, p))
  }

  function Debt(p: Position): real {
    Total(p.borrows)
  }

  /** `get_health_factor(user) >= 1`, without dividing; the factor is infinite without debt. */
  predicate Sufficient(p: Position) {
    var c, d := Total(p.collateral), Debt(p);
    d == 0.0 || (d > 0.0 && c >= d) || (d < 0.0 && c <= d)
  }

  /** `get_health_factor(user) > 1`. */
  predicate AboveWater(p: Position) {
    var c, d := Total(p.collateral), Debt(p);
    d == 0.0 || (d > 0.0 && c > d) || (d < 0.0 && c < d)
  }

  /** The call throws before it changes any amount. */
  predicate Refused(s: State, op: Op) {
    match op
    case CreateMarket(asset, _, _) => asset in s.markets
    case AddLiquidity(_, asset, _) => asset !in s.markets
    case RemoveLiquidity(user, asset, amount) =>
      asset !in s.markets || !Has(PositionOf(s, user).deposits, asset) ||
      AmountOf(PositionOf(s, user).deposits, asset) < amount
    case Borrow(_, asset, amount, collateralAsset, collateralAmount) =>
      asset !in s.markets || collateralAsset !in s.markets || s.markets[asset].reserves < amount ||
      collateralAmount < amount * s.markets[asset].requirement
    case Repay(user, asset, amount) =>
      asset !in s.markets || !Has(PositionOf(s, user).borrows, asset) ||
      AmountOf(PositionOf(s, user).borrows, asset) < amount
    case WithdrawCollateral(user, asset, amount) =>
      !Has(PositionOf(s, user).collateral, asset) || AmountOf(PositionOf(s, user).collateral, asset) < amount
    case Liquidate(user, asset, amount) =>
      !Has(s.positions, user) || AboveWater(PositionOf(s, user)) || !Has(PositionOf(s, user).borrows, asset) ||
      AmountOf(PositionOf(s, user).borrows, asset) < amount ||
      // never the reason, by RunIsProper
      asset !in s.markets || PositionOf(s, user).collateral == []
  }

  function MarketAfter(m: Market, op: Op): Market {
    match op
    case AddLiquidity(_, _, amount) => Utilized(m.(supply := m.supply + amount, reserves := m.reserves + amount))
    case RemoveLiquidity(_, _, amount) => Utilized(m.(supply := m.supply - amount, reserves := m.reserves - amount))
    case Borrow(_, _, amount, _, _) => Utilized(m.(borrowed := m.borrowed + amount, reserves := m.reserves - amount))
    case Repay(_, _, amount) => Utilized(m.(borrowed := m.borrowed - amount, reserves := m.reserves + amount))
    case Liquidate(_, _, amount) => m.(borrowed := m.borrowed - amount)
    case _ => m
  }

  function PositionAfter(p: Position, op: Op): Position {
    match op
    case AddLiquidity(_, asset, amount) => p.(deposits := Adjusted(p.deposits, asset, amount))
    case RemoveLiquidity(_, asset, amount) => p.(deposits := Adjusted(p.deposits, asset, -amount))
    case Borrow(_, asset, amount, collateralAsset, collateralAmount) =>
      p.(borrows := Adjusted(p.borrows, asset, amount),
         collateral := Adjusted(p.collateral, collateralAsset, collateralAmount))
    case Repay(_, asset, amount) => p.(borrows := Adjusted(p.borrows, asset, -amount))
    case WithdrawCollateral(_, asset, amount) => p.(collateral := Adjusted(p.collateral, asset, -amount))
    case Liquidate(_, asset, amount) =>
      if p.collateral == [] then p
      else p.(borrows := Adjusted(p.borrows, asset, -amount),
              collateral := Adjusted(p.collateral, p.collateral[0].0, -amount))
    case CreateMarket(_, _, _) => p
  }

  /** A borrow refused for want of collateral alone has created the user's position. */
  predicate CreatesPosition(s: State, op: Op) {
    op.Borrow? && op.asset in s.markets && op.collateralAsset in s.markets && s.markets[op.asset].reserves >= op.amount
  }

  /** The state that a call leaves. */
  function Step(s: State, op: Op): State {
    if op.CreateMarket? then
      if Refused(s, op) then s
      else s.(markets := s.markets[op.asset := Market(op.requirement, op.rate, 0.0, 0.0, 0.0, 0.0)])
    else
      var p := PositionOf(s, op.user);
      if Refused(s, op) then (if CreatesPosition(s, op) then WithPosition(s, op.user, p) else s)
      else if op.WithdrawCollateral? then WithPosition(s, op.user, PositionAfter(p, op))
      else Booked(s, op.asset, MarketAfter(s.markets[op.asset], op), op.user, PositionAfter(p, op))
  }

  /** The call returns normally; a withdrawal that leaves too little has already
      subtracted when it throws. */
  predicate Returns(s: State, op: Op) {
    !Refused(s, op) && (op.WithdrawCollateral? ==> Sufficient(PositionAfter(PositionOf(s, op.user), op)))
  }

  function Run(ops: seq<Op>): State {
    if ops == [] then State(map[], []) else Step(Run(ops[..|ops| - 1]), ops[|ops| - 1])
  }

  // ---------- the ledger ----------

  function DepositWeight(asset: string): Position -> real {
    (p: Position) => AmountOf(p.deposits, asset)
  }

  function BorrowWeight(asset: string): Position -> real {
    (p: Position) => AmountOf(p.borrows, asset)
  }

  function LiquidatedBy(s: State, op: Op, asset: string): real {
    if op.Liquidate? && op.asset == asset && Returns(s, op) then op.amount else 0.0
  }

  /** The amounts of an asset that were liquidated during a run. */
  function Liquidated(ops: seq<Op>, asset: string): real {
    if ops == [] then 0.0
    else
      var init := ops[..|ops| - 1];
      Liquidated(init, asset) + LiquidatedBy(Run(init), ops[|ops| - 1], asset)
  }

  ghost predicate MarketBalanced(s: State, asset: string, liquidated: real) {
    var deposits, borrows := SumBy(s.positions, DepositWeight(asset)), SumBy(s.positions, BorrowWeight(asset));
    if asset in s.markets then
      var m := s.markets[asset];
      deposits == m.supply && borrows == m.borrowed && m.reserves + m.borrowed + liquidated == m.supply
    else
      deposits == 0.0 && borrows == 0.0 && liquidated == 0.0
  }

  lemma PositionChange(s: State, user: string, p: Position, asset: string)
    ensures SumBy(Put(s.positions, user, p), DepositWeight(asset))
         == SumBy(s.positions, DepositWeight(asset)) + AmountOf(p.deposits, asset)
         - AmountOf(PositionOf(s, user).deposits, asset)
    ensures SumBy(Put(s.positions, user, p), BorrowWeight(asset))
         == SumBy(s.positions, BorrowWeight(asset)) + AmountOf(p.borrows, asset)
         - AmountOf(PositionOf(s, user).borrows, asset)
  {
    SumAfterPut(s.positions, DepositWeight(asset), user, p);
    SumAfterPut(s.positions, BorrowWeight(asset), user, p);
  }

  /** What the operation does to the amounts of one asset in a position and in its market. */
  lemma AmountsAfter(p: Position, op: Op, asset: string)
    requires !op.CreateMarket?
    ensures var p', mine := PositionAfter(p, op), op.asset == asset;
            var deposited := AmountOf(p'.deposits, asset) - AmountOf(p.deposits, asset);
            var borrowed := AmountOf(p'.borrows, asset) - AmountOf(p.borrows, asset);
            match op
            case AddLiquidity(_, _, amount) => borrowed == 0.0 && deposited == if mine then amount else 0.0
            case RemoveLiquidity(_, _, amount) => borrowed == 0.0 && deposited == if mine then -amount else 0.0
            case Borrow(_, _, amount, _, _) => deposited == 0.0 && borrowed == if mine then amount else 0.0
            case Repay(_, _, amount) => deposited == 0.0 && borrowed == if mine then -amount else 0.0
            case Liquidate(_, _, amount) =>
              p.collateral != [] ==> deposited == 0.0 && borrowed == if mine then -amount else 0.0
            case WithdrawCollateral(_, _, _) => deposited == 0.0 && borrowed == 0.0
  {
    match op
    case AddLiquidity(_, _, amount) => AdjustedAmounts(p.deposits, op.asset, amount, asset);
    case RemoveLiquidity(_, _, amount) => AdjustedAmounts(p.deposits, op.asset, -amount, asset);
    case Borrow(_, _, amount, _, _) => AdjustedAmounts(p.borrows, op.asset, amount, asset);
    case Repay(_, _, amount) => AdjustedAmounts(p.borrows, op.asset, -amount, asset);
    case Liquidate(_, _, amount) => AdjustedAmounts(p.borrows, op.asset, -amount, asset);
    case WithdrawCollateral(_, _, _) =>
  }

  /** Books stay balanced when a position and its market change by the same amounts. */
  lemma BookedBalanced(s: State, op: Op, m': Market, p': Position, asset: string, liquidated: real, more: real)
    requires !op.CreateMarket? && op.asset in s.markets && MarketBalanced(s, asset, liquidated)
    requires var p, m, mine := PositionOf(s, op.user), s.markets[op.asset], op.asset == asset;
             AmountOf(p'.deposits, asset) - AmountOf(p.deposits, asset)
               == (if mine then m'.supply - m.supply else 0.0) &&
             AmountOf(p'.borrows, asset) - AmountOf(p.borrows, asset)
               == (if mine then m'.borrowed - m.borrowed else 0.0) &&
             (if mine then m'.reserves - m.reserves + (m'.borrowed - m.borrowed) + more == m'.supply - m.supply
              else more == 0.0)
    ensures MarketBalanced(Booked(s, op.asset, m', op.user, p'), asset, liquidated + more)
  {
    PositionChange(s, op.user, p', asset);
  }

  lemma StepBalanced(s: State, op: Op, asset: string, liquidated: real)
    requires MarketBalanced(s, asset, liquidated)
    ensures MarketBalanced(Step(s, op), asset, liquidated + LiquidatedBy(s, op, asset))
  {
    if !op.CreateMarket? {
      var p, p' := PositionOf(s, op.user), PositionAfter(PositionOf(s, op.user), op);
      if Refused(s, op) {
        PositionChange(s, op.user, p, asset);
      } else {
        AmountsAfter(p, op, asset);
        if op.WithdrawCollateral? {
          PositionChange(s, op.user, p', asset);
        } else {
          BookedBalanced(s, op, MarketAfter(s.markets[op.asset], op), p', asset, liquidated,
                         LiquidatedBy(s, op, asset));
        }
      }
    }
  }

  /** Every market's books balance in every run, whatever the amounts. */
  lemma {:induction false} RunKeepsLedger(ops: seq<Op>, asset: string)
    ensures MarketBalanced(Run(ops), asset, Liquidated(ops, asset))
  {
    if ops != [] {
      var init := ops[..|ops| - 1];
      RunKeepsLedger(init, asset);
      StepBalanced(Run(init), ops[|ops| - 1], asset, Liquidated(init, asset));
    }
  }

  // ---------- borrows have a market and collateral ----------

  /** Only existing markets are borrowed from, and never without collateral. */
  ghost predicate ProperPosition(markets: map<string, Market>, p: Position) {
    (forall a :: Has(p.borrows, a) ==> a in markets) && (p.borrows != [] ==> p.collateral != [])
  }

  ghost predicate Proper(s: State) {
    forall user :: ProperPosition(s.markets, PositionOf(s, user))
  }

  lemma StepPosition(s: State, op: Op, user: string)
    ensures PositionOf(Step(s, op), user)
         == if op.CreateMarket? || op.user != user || Refused(s, op) then PositionOf(s, user)
            else PositionAfter(PositionOf(s, user), op)
  {
    if !op.CreateMarket? {
      GetAfterPut(s.positions, op.user, PositionOf(s, op.user), user);
      GetAfterPut(s.positions, op.user, PositionAfter(PositionOf(s, op.user), op), user);
    }
  }

  lemma StepProper(s: State, op: Op)
    requires Proper(s)
    ensures Proper(Step(s, op))
  {
    forall user
      ensures ProperPosition(Step(s, op).markets, PositionOf(Step(s, op), user))
    {
      var p := PositionOf(s, user);
      assert ProperPosition(s.markets, p);
      StepPosition(s, op, user);
      if !op.CreateMarket? && op.user == user && !Refused(s, op) {
        PositionAfterProper(s.markets, p, op);
      }
    }
  }

  lemma PositionAfterProper(markets: map<string, Market>, p: Position, op: Op)
    requires ProperPosition(markets, p) && !op.CreateMarket? && (op.WithdrawCollateral? || op.asset in markets)
    requires op.Repay? || op.Liquidate? ==> Has(p.borrows, op.asset)
    ensures ProperPosition(markets, PositionAfter(p, op))
  {
    if op.Borrow? {
      AdjustedAmounts(p.collateral, op.collateralAsset, op.collateralAmount, op.asset);
    } else if op.WithdrawCollateral? {
      AdjustedAmounts(p.collateral, op.asset, -op.amount, op.asset);
    } else if op.Liquidate? {
      AdjustedAmounts(p.collateral, p.collateral[0].0, -op.amount, op.asset);
    }
    forall a | Has(PositionAfter(p, op).borrows, a)
      ensures a in markets
    {
      if op.Borrow? {
        AdjustedAmounts(p.borrows, op.asset, op.amount, a);
      } else if op.Repay? || op.Liquidate? {
        AdjustedAmounts(p.borrows, op.asset, -op.amount, a);
      }
    }
  }

  /** So the two last conditions of `Refused` for a liquidation never decide. */
  lemma {:induction false} RunIsProper(ops: seq<Op>)
    ensures Proper(Run(ops))
    ensures forall user, asset :: Has(PositionOf(Run(ops), user).borrows, asset) ==>
              asset in Run(ops).markets && PositionOf(Run(ops), user).collateral != []
  {
    if ops != [] {
      RunIsProper(ops[..|ops| - 1]);
      StepProper(Run(ops[..|ops| - 1]), ops[|ops| - 1]);
    }
    forall user, asset | Has(PositionOf(Run(ops), user).borrows, asset)
      ensures asset in Run(ops).markets && PositionOf(Run(ops), user).collateral != []
    {
      assert ProperPosition(Run(ops).markets, PositionOf(Run(ops), user));
    }
  }

  // ---------- the class ----------

  datatype HealthFactor = Infinite | Finite(value: real)

  lemma FactorComparison(c: real, d: real)
    requires d != 0.0
    ensures c / d > 1.0 <==> (d > 0.0 && c > d) || (d < 0.0 && c < d)
    ensures c / d >= 1.0 <==> (d > 0.0 && c >= d) || (d < 0.0 && c <= d)
  {
    var q := c / d;
    assert q * d == c;
    assert (q - 1.0) * d == c - d;
    if d > 0.0 {
    } else {
      assert (q - 1.0) * -d == -(c - d);
    }
  }

  /** A method returns `None` where the source throws. */
  class LendingProtocol {
    var markets: map<string, Market>
    var userPositions: Map<string, Position>

    ghost function View(): State
      reads this
    {
      State(markets, userPositions)
    }

    constructor ()
      ensures View() == State(map[], [])
    {
      markets, userPositions := map[], [];
    }

    method CreateMarketFor(asset: string, requirement: real, rate: real) returns (r: Option<()>)
      modifies this
      ensures View() == Step(old(View()), CreateMarket(asset, requirement, rate))
      ensures r.Some? <==> Returns(old(View()), CreateMarket(asset, requirement, rate))
    {
      if asset in markets {
        return None;
      }
      markets := markets[asset := Market(requirement, rate, 0.0, 0.0, 0.0, 0.0)];
      return Some(());
    }

    function Interest(asset: string, amount: real): real
      requires asset in markets
      reads this
    {
      amount * markets[asset].interestRate
    }

    /** Creates the position of a new user. */
    method EnsurePosition(user: string) returns (p: Position)
      modifies this`userPositions
      ensures p == PositionOf(old(View()), user) && Get(userPositions, user) == Some(p)
      ensures userPositions == Put(old(userPositions), user, p)
    {
      HasIsSome(userPositions, user);
      GetAfterPut(userPositions, user, NO_POSITION, user);
      if !Has(userPositions, user) {
        userPositions := Put(userPositions, user, NO_POSITION);
      } else {
        PutSame(userPositions, user);
      }
      p := Get(userPositions, user).value;
    }

    method Deposit(user: string, asset: string, amount: real) returns (r: Option<real>)
      modifies this
      ensures View() == Step(old(View()), AddLiquidity(user, asset, amount))
      ensures r.Some? <==> Returns(old(View()), AddLiquidity(user, asset, amount))
      ensures r.Some? ==> r.value == amount * old(markets)[asset].interestRate
    {
      if asset !in markets {
        return None;
      }
      var market := markets[asset];
      market := market.(supply := market.supply + amount, reserves := market.reserves + amount);
      market := UpdateUtilizationRate(market);
      markets := markets[asset := market];
      var p := EnsurePosition(user);
      PutTwice(old(userPositions), user, p, PositionAfter(p, AddLiquidity(user, asset, amount)));
      userPositions := Put(userPositions, user, p.(deposits := Adjusted(p.deposits, asset, amount)));
      return Some(Interest(asset, amount));
    }

    method Remove(user: string, asset: string, amount: real) returns (r: Option<real>)
      modifies this
      ensures View() == Step(old(View()), RemoveLiquidity(user, asset, amount))
      ensures r.Some? <==> Returns(old(View()), RemoveLiquidity(user, asset, amount))
      ensures r.Some? ==> r.value == amount * old(markets)[asset].interestRate
    {
      if asset !in markets {
        return None;
      }
      var p := GetUserPosition(user);
      if !Has(p.deposits, asset) || AmountOf(p.deposits, asset) < amount {
        return None;
      }
      var market := markets[asset];
      market := market.(supply := market.supply - amount, reserves := market.reserves - amount);
      market := UpdateUtilizationRate(market);
      markets := markets[asset := market];
      userPositions := Put(userPositions, user, p.(deposits := Adjusted(p.deposits, asset, -amount)));
      return Some(Interest(asset, amount));
    }

    method BorrowAgainst(user: string, asset: string, amount: real, collateralAsset: string, collateralAmount: real)
      returns (r: Option<real>)
      modifies this
      ensures View() == Step(old(View()), Borrow(user, asset, amount, collateralAsset, collateralAmount))
      ensures r.Some? <==> Returns(old(View()), Borrow(user, asset, amount, collateralAsset, collateralAmount))
      ensures r.Some? ==> r.value == amount * old(markets)[asset].interestRate
    {
      if asset !in markets || collateralAsset !in markets {
        return None;
      }
      var market := markets[asset];
      if market.reserves < amount {
        return None;
      }
      var p := EnsurePosition(user);
      if collateralAmount < amount * market.requirement {
        return None;
      }
      market := market.(borrowed := market.borrowed + amount, reserves := market.reserves - amount);
      market := UpdateUtilizationRate(market);
      markets := markets[asset := market];
      var p' := p.(borrows := Adjusted(p.borrows, asset, amount));
      p' := p'.(collateral := Adjusted(p'.collateral, collateralAsset, collateralAmount));
      PutTwice(old(userPositions), user, p, p');
      userPositions := Put(userPositions, user, p');
      return Some(Interest(asset, amount));
    }

    method RepayLoan(user: string, asset: string, amount: real) returns (r: Option<real>)
      modifies this
      ensures View() == Step(old(View()), Repay(user, asset, amount))
      ensures r.Some? <==> Returns(old(View()), Repay(user, asset, amount))
      ensures r.Some? ==> r.value == amount * old(markets)[asset].interestRate
    {
      if asset !in markets {
        return None;
      }
      var p := GetUserPosition(user);
      if !Has(p.borrows, asset) || AmountOf(p.borrows, asset) < amount {
        return None;
      }
      var market := markets[asset];
      market := market.(borrowed := market.borrowed - amount, reserves := market.reserves + amount);
      market := UpdateUtilizationRate(market);
      markets := markets[asset := market];
      userPositions := Put(userPositions, user, p.(borrows := Adjusted(p.borrows, asset, -amount)));
      return Some(Interest(asset, amount));
    }

    /** Subtracts first and checks afterwards. */
    method Withdraw(user: string, asset: string, amount: real) returns (r: Option<()>)
      modifies this`userPositions
      ensures View() == Step(old(View()), WithdrawCollateral(user, asset, amount))
      ensures r.Some? <==> Returns(old(View()), WithdrawCollateral(user, asset, amount))
    {
      var p := GetUserPosition(user);
      if !Has(p.collateral, asset) || AmountOf(p.collateral, asset) < amount {
        return None;
      }
      p := p.(collateral := Adjusted(p.collateral, asset, -amount));
      userPositions := Put(userPositions, user, p);
      var factor := HealthFactorOf(p);
      if factor.Finite? && !(factor.value >= 1.0) {
        return None;
      }
      return Some(());
    }

    /** Debt is paid off from the first collateral asset; the reserves are not refilled. */
    method LiquidateLoan(user: string, asset: string, amount: real) returns (r: Option<real>)
      requires Proper(View())
      modifies this
      ensures View() == Step(old(View()), Liquidate(user, asset, amount))
      ensures r.Some? <==> Returns(old(View()), Liquidate(user, asset, amount))
      ensures r.Some? ==> r.value == amount
    {
      assert ProperPosition(markets, PositionOf(View(), user));
      HasIsSome(userPositions, user);
      if !Has(userPositions, user) {
        return None;
      }
      var p := GetUserPosition(user);
      var factor := HealthFactorOf(p);
      if factor.Infinite? || factor.value > 1.0 {
        return None;
      }
      if !Has(p.borrows, asset) || AmountOf(p.borrows, asset) < amount {
        return None;
      }
      var market := markets[asset];
      markets := markets[asset := market.(borrowed := market.borrowed - amount)];
      var collateralAsset := p.collateral[0].0;
      var p' := p.(borrows := Adjusted(p.borrows, asset, -amount));
      p' := p'.(collateral := Adjusted(p'.collateral, collateralAsset, -amount));
      userPositions := Put(userPositions, user, p');
      return Some(amount);
    }

    method GetUserPosition(user: string) returns (p: Position)
      ensures p == PositionOf(View(), user)
    {
      HasIsSome(userPositions, user);
      p := if Has(userPositions, user) then Get(userPositions, user).value else NO_POSITION;
    }
  }

  method HealthFactorOf(p: Position) returns (factor: HealthFactor)
    ensures factor == if Debt(p) == 0.0 then Infinite else Finite(Total(p.collateral) / Debt(p))
    ensures factor.Infinite? ==> AboveWater(p) && Sufficient(p)
    ensures factor.Finite? ==> (factor.value > 1.0 <==> AboveWater(p)) && (factor.value >= 1.0 <==> Sufficient(p))
  {
    var totalCollateral, totalDebt := Total(p.collateral), Total(p.borrows);
    if totalDebt == 0.0 {
      return Infinite;
    }
    FactorComparison(totalCollateral, totalDebt);
    return Finite(totalCollateral / totalDebt);
  }

  lemma {:induction false} PutTwice<V>(m: Map<string, V>, key: string, x: V, y: V)
    ensures Put(Put(m, key, x), key, y) == Put(m, key, y)
  {
    if m != [] && m[0].0 != key {
      PutTwice(m[1..], key, x, y);
      assert Put(m, key, x)[1..] == Put(m[1..], key, x);
    }
  }

  lemma {:induction false} PutSame<V>(m: Map<string, V>, key: string)
    requires Has(m, key) && Get(m, key).Some?
    ensures Put(m, key, Get(m, key).value) == m
  {
    if m[0].0 != key {
      HasIsSome(m[1..], key);
      PutSame(m[1..], key);
    }
  }

  method UpdateUtilizationRate(m: Market) returns (r: Market)
    ensures r == Utilized(m)
  {
    if m.supply == 0.0 {
      r := m.(utilization := 0.0);
    } else {
      r := m.(utilization := m.borrowed / m.supply);
    }
  }
}
