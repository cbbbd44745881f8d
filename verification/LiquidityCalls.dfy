/**
 What each call on the pool (src/runtime/liquidity.js) is refused for and what it moves, by
 the equations that the amounts satisfy rather than by the quotients that are computed.
 */
module LiquidityCalls {
  import opened Liquidity

  /** A swap is made for a positive amount; the whole amount comes in, and what stays of the
      other reserve is in proportion to the amount without its fee. */
  lemma SwapExactly(p: Pool, amount: real)
    requires p.reserve0 >= 0.0 && p.reserve1 >= 0.0 && 0.0 <= p.fee <= 0.01
    ensures amount <= 0.0 ==> Step(p, Swap0(amount)) == p && Step(p, Swap1(amount)) == p
    ensures amount > 0.0 ==>
              var after := Step(p, Swap0(amount));
              after == p.(reserve0 := p.reserve0 + amount, reserve1 := after.reserve1) &&
              after.reserve1 * (p.reserve0 + amount * (1.0 - p.fee)) == p.reserve0 * p.reserve1
    ensures amount > 0.0 ==>
              var after := Step(p, Swap1(amount));
              after == p.(reserve1 := p.reserve1 + amount, reserve0 := after.reserve0) &&
              after.reserve0 * (p.reserve1 + amount * (1.0 - p.fee)) == p.reserve1 * p.reserve0
  {
    if amount > 0.0 {
      PayoutLeaves(p.reserve0, p.reserve1, amount, p.fee);
      PayoutLeaves(p.reserve1, p.reserve0, amount, p.fee);
    }
  }

  /** Fees from 0 to 1% are taken, others not. */
  lemma FeeExactly(p: Pool, fee: real)
    requires p.reserve0 >= 0.0 && p.reserve1 >= 0.0 && 0.0 <= p.fee <= 0.01
    ensures 0.0 <= fee && 100.0 * fee <= 1.0 ==> Step(p, SetFee(fee)) == p.(fee := fee)
    ensures fee < 0.0 || 100.0 * fee > 1.0 ==> Step(p, SetFee(fee)) == p
  {
  }

  /** The first deposit sets both reserves, token0 to its own amount and token1 to its own,
      and its shares are the root of the product. */
  lemma FirstDepositExactly(p: Pool, amount0: real, amount1: real, root: real)
    requires p.reserve0 >= 0.0 && p.reserve1 >= 0.0 && 0.0 <= p.fee <= 0.01 && p.supply == 0.0
    requires amount0 > 0.0 && amount1 > 0.0 && root >= 0.0 && root * root == amount0 * amount1
    ensures Step(p, Add(amount0, amount1, root)) == Pool(amount0, amount1, root, p.fee, amount0, amount1)
  {
  }

  /** A later deposit is accepted if and only if both amounts are positive and token1 is off
      the exact ratio by at most half a percent of it. */
  lemma DepositAcceptedExactly(p: Pool, amount0: real, amount1: real, root: real)
    requires p.reserve0 > 0.0 && p.reserve1 > 0.0 && p.supply > 0.0
    ensures Enabled(p, Add(amount0, amount1, root)) <==>
              amount0 > 0.0 && amount1 > 0.0 &&
              amount1 * p.reserve0 <= 1.005 * (amount0 * p.reserve1) &&
              0.995 * (amount0 * p.reserve1) <= amount1 * p.reserve0
  {
    if amount0 > 0.0 {
      ToleranceExactly(p, amount0, amount1);
    }
  }

  lemma ToleranceExactly(p: Pool, amount0: real, amount1: real)
    requires p.reserve0 > 0.0 && p.reserve1 > 0.0 && amount0 > 0.0
    ensures WithinTolerance(p, amount0, amount1) <==>
              amount1 * p.reserve0 <= 1.005 * (amount0 * p.reserve1) &&
              0.995 * (amount0 * p.reserve1) <= amount1 * p.reserve0
  {
    ExpectedPositive(p, amount0);
    var e := Expected1(p, amount0);
    OffByAtMost(amount1, e);
    ScaledOrder(p.reserve0, amount1, 1.005 * e);
    ScaledOrder(p.reserve0, 0.995 * e, amount1);
    Commute(p.reserve0, amount1);
    assert p.reserve0 * (1.005 * e) == 1.005 * (e * p.reserve0);
    assert p.reserve0 * (0.995 * e) == 0.995 * (e * p.reserve0);
  }

  lemma OffByAtMost(x: real, e: real)
    requires e > 0.0
    ensures Abs(x - e) / e <= 0.005 <==> x <= 1.005 * e && 0.995 * e <= x
  {
    var off := Abs(x - e);
    Quotient(off, e);
    Sign(0.005 - off / e, e);
    assert (0.005 - off / e) * e == 0.005 * e - off;
  }

  /** It then adds both amounts, and the shares in proportion to token0. */
  lemma DepositExactly(p: Pool, amount0: real, amount1: real, root: real)
    requires p.reserve0 > 0.0 && p.reserve1 > 0.0 && p.supply > 0.0 && 0.0 <= p.fee <= 0.01
    ensures var after := Step(p, Add(amount0, amount1, root));
            if Enabled(p, Add(amount0, amount1, root)) then
              after == Pool(p.reserve0 + amount0, p.reserve1 + amount1, after.supply, p.fee,
                            p.tracked0 + amount0, p.tracked1 + amount1) &&
              (after.supply - p.supply) * p.reserve0 == amount0 * p.supply
            else after == p
  {
    if Enabled(p, Add(amount0, amount1, root)) {
      Quotient(amount0, p.reserve0);
      assert amount0 / p.reserve0 * p.supply * p.reserve0 == amount0 / p.reserve0 * p.reserve0 * p.supply;
    }
  }

  /** Shares from above 0 to all of them can be given back, for that part of each reserve. */
  lemma RemovalExactly(p: Pool, shares: real)
    requires p.reserve0 >= 0.0 && p.reserve1 >= 0.0 && 0.0 <= p.fee <= 0.01
    ensures var after := Step(p, Remove(shares));
            if 0.0 < shares <= p.supply then
              after == Pool(after.reserve0, after.reserve1, p.supply - shares, p.fee,
                            p.tracked0 - (p.reserve0 - after.reserve0), p.tracked1 - (p.reserve1 - after.reserve1)) &&
              (p.reserve0 - after.reserve0) * p.supply == shares * p.reserve0 &&
              (p.reserve1 - after.reserve1) * p.supply == shares * p.reserve1
            else after == p
  {
    if 0.0 < shares <= p.supply {
      Quotient(shares, p.supply);
      var fraction := shares / p.supply;
      assert fraction * p.reserve0 * p.supply == fraction * p.supply * p.reserve0;
      assert fraction * p.reserve1 * p.supply == fraction * p.supply * p.reserve1;
    }
  }
}
