/**
 The constant-product pool (src/runtime/liquidity.js), over real numbers.

 `SwapRunKeepsProduct` and `NoFreeReserves` are about any sequence of swaps in either
 direction, `SplitNeverPaysMore` about cutting a swap in two, and `RunStaysBacked`,
 `AddKeepsBackingExactly` and `RunDilutes` about what a share is worth.
 A square root is passed in together with the fact that it is one.
 */
module Liquidity {
  import opened Wrappers

  datatype Pool = Pool(reserve0: real, reserve1: real, supply: real, fee: real, tracked0: real, tracked1: real) {
    function Product(): real {
      reserve0 * reserve1
    }
  }

  datatype Op =
    | Swap0(amount: real)
    | Swap1(amount: real)
    | SetFee(fee: real)
    | Add(amount0: real, amount1: real, root: real)
    | Remove(shares: real)

  // ---------- the operations ----------

  ghost predicate IsRoot(root: real, x: real) {
    root >= 0.0 && root * root == x
  }

  predicate FeeAllowed(fee: real) {
    0.0 <= fee <= 0.01
  }

  /** What a swap pays out of reserve `rout` for `amount` put into reserve `rin`. */
  function Payout(rin: real, rout: real, amount: real, fee: real): real
    requires rin >= 0.0 && amount > 0.0 && FeeAllowed(fee)
  {
    var afterFee := amount * (1.0 - fee);
    FeePositive(amount, fee);
    rout * afterFee / (rin + afterFee)
  }

  lemma FeePositive(amount: real, fee: real)
    requires amount > 0.0 && FeeAllowed(fee)
    ensures 0.0 < amount * (1.0 - fee) <= amount
    ensures fee == 0.0 ==> amount * (1.0 - fee) == amount
  {
  }

  function AfterSwap0(p: Pool, amount: real): Pool
    requires p.reserve0 >= 0.0 && amount > 0.0 && FeeAllowed(p.fee)
  {
    p.(reserve0 := p.reserve0 + amount, reserve1 := p.reserve1 - Payout(p.reserve0, p.reserve1, amount, p.fee))
  }

  function AfterSwap1(p: Pool, amount: real): Pool
    requires p.reserve1 >= 0.0 && amount > 0.0 && FeeAllowed(p.fee)
  {
    p.(reserve1 := p.reserve1 + amount, reserve0 := p.reserve0 - Payout(p.reserve1, p.reserve0, amount, p.fee))
  }

  /** Token1 due for `amount0` at the present ratio. */
  function Expected1(p: Pool, amount0: real): real
    requires p.reserve0 > 0.0
  {
    amount0 * p.reserve1 / p.reserve0
  }

  function Abs(x: real): real {
    if x < 0.0 then -x else x
  }

  /** The ratio check of a pool that has shares outstanding. */
  predicate WithinTolerance(p: Pool, amount0: real, amount1: real)
    requires p.reserve0 > 0.0 && p.reserve1 > 0.0 && amount0 > 0.0
  {
    ExpectedPositive(p, amount0);
    Abs(amount1 - Expected1(p, amount0)) / Expected1(p, amount0) <= 0.005
  }

  lemma ExpectedPositive(p: Pool, amount0: real)
    requires p.reserve0 > 0.0 && p.reserve1 > 0.0 && amount0 > 0.0
    ensures Expected1(p, amount0) > 0.0 && Expected1(p, amount0) * p.reserve0 == amount0 * p.reserve1
  {
    assert amount0 * p.reserve1 > 0.0;
  }

  function Minted(p: Pool, amount0: real): real
    requires p.reserve0 > 0.0
  {
    amount0 / p.reserve0 * p.supply
  }

  function AfterAdd(p: Pool, amount0: real, amount1: real): Pool
    requires p.reserve0 > 0.0
  {
    p.(reserve0 := p.reserve0 + amount0, reserve1 := p.reserve1 + amount1, supply := p.supply + Minted(p, amount0),
       tracked0 := p.tracked0 + amount0, tracked1 := p.tracked1 + amount1)
  }

  function AfterFirstAdd(p: Pool, amount0: real, amount1: real, root: real): Pool {
    p.(reserve0 := amount0, reserve1 := amount1, supply := root, tracked0 := amount0, tracked1 := amount1)
  }

  function AfterRemove(p: Pool, shares: real): Pool
    requires p.supply > 0.0
  {
    var fraction := shares / p.supply;
    p.(reserve0 := p.reserve0 - fraction * p.reserve0, reserve1 := p.reserve1 - fraction * p.reserve1,
       supply := p.supply - shares,
       tracked0 := p.tracked0 - fraction * p.reserve0, tracked1 := p.tracked1 - fraction * p.reserve1)
  }

  // ---------- swaps ----------

  /** The paying reserve keeps rin / (rin + afterFee) of itself. */
  lemma PayoutLeaves(rin: real, rout: real, amount: real, fee: real)
    requires rin >= 0.0 && rout >= 0.0 && amount > 0.0 && FeeAllowed(fee)
    ensures var afterFee := amount * (1.0 - fee);
            afterFee > 0.0 &&
            (rout - Payout(rin, rout, amount, fee)) * (rin + afterFee) == rin * rout
    ensures 0.0 <= Payout(rin, rout, amount, fee) <= rout
    ensures rin > 0.0 && rout > 0.0 ==> 0.0 < Payout(rin, rout, amount, fee) < rout
  {
    var afterFee := amount * (1.0 - fee);
    FeePositive(amount, fee);
    var out := Payout(rin, rout, amount, fee);
    Quotient(rout * afterFee, rin + afterFee);
    PaidShare(rin, rout, afterFee, out);
  }

  lemma PaidShare(rin: real, rout: real, afterFee: real, out: real)
    requires rin >= 0.0 && rout >= 0.0 && afterFee > 0.0 && out * (rin + afterFee) == rout * afterFee
    ensures (rout - out) * (rin + afterFee) == rin * rout
    ensures 0.0 <= out <= rout
    ensures rin > 0.0 && rout > 0.0 ==> 0.0 < out < rout
  {
    assert (rout - out) * (rin + afterFee) == rin * rout;
    Sign(rout, afterFee);
    Sign(out, rin + afterFee);
    Sign(rout - out, rin + afterFee);
    if rout > 0.0 {
      Sign(rin, rout);
    } else {
      assert rin * rout == 0.0;
    }
  }

  lemma Quotient(x: real, y: real)
    requires y != 0.0
    ensures x / y * y == x
  {
  }

  lemma Sign(x: real, y: real)
    requires y > 0.0
    ensures x * y >= 0.0 <==> x >= 0.0
    ensures x * y > 0.0 <==> x > 0.0
  {
  }

  lemma Monotone(x: real, y: real, z: real)
    requires x <= y && z >= 0.0
    ensures x * z <= y * z
  {
  }

  lemma PayoutRange(rin: real, rout: real, amount: real, fee: real)
    requires rin >= 0.0 && rout >= 0.0 && amount > 0.0 && FeeAllowed(fee)
    ensures rout - Payout(rin, rout, amount, fee) >= 0.0
    ensures rin > 0.0 && rout > 0.0 ==> rout - Payout(rin, rout, amount, fee) > 0.0
  {
    PayoutLeaves(rin, rout, amount, fee);
  }

  /** A swap does not lower the product, and keeps it exactly when there is no fee. */
  lemma SwapKeepsProduct(rin: real, rout: real, amount: real, fee: real)
    requires rin >= 0.0 && rout >= 0.0 && amount > 0.0 && FeeAllowed(fee)
    ensures var product := (rin + amount) * (rout - Payout(rin, rout, amount, fee));
            rin * rout <= product && (fee == 0.0 ==> product == rin * rout)
  {
    PayoutLeaves(rin, rout, amount, fee);
    FeePositive(amount, fee);
    Monotone(rin + amount * (1.0 - fee), rin + amount, rout - Payout(rin, rout, amount, fee));
  }

  ghost predicate Enabled(p: Pool, op: Op) {
    match op
    case Swap0(amount) => amount > 0.0
    case Swap1(amount) => amount > 0.0
    case SetFee(fee) => FeeAllowed(fee)
    case Add(amount0, amount1, root) =>
      amount0 > 0.0 && amount1 > 0.0 &&
      (if p.supply == 0.0 then IsRoot(root, amount0 * amount1)
       else p.reserve0 > 0.0 && p.reserve1 > 0.0 && WithinTolerance(p, amount0, amount1))
    case Remove(shares) => 0.0 < shares <= p.supply
  }

  /** The effect of a call that returns normally; a call that throws changes nothing. */
  ghost function Step(p: Pool, op: Op): Pool
    requires p.reserve0 >= 0.0 && p.reserve1 >= 0.0 && FeeAllowed(p.fee)
  {
    if !Enabled(p, op) then p
    else
      match op
      case Swap0(amount) => AfterSwap0(p, amount)
      case Swap1(amount) => AfterSwap1(p, amount)
      case SetFee(fee) => p.(fee := fee)
      case Add(amount0, amount1, root) =>
        if p.supply == 0.0 then AfterFirstAdd(p, amount0, amount1, root) else AfterAdd(p, amount0, amount1)
      case Remove(shares) => AfterRemove(p, shares)
  }

  lemma StepNonNegative(p: Pool, op: Op)
    requires p.reserve0 >= 0.0 && p.reserve1 >= 0.0 && FeeAllowed(p.fee)
    ensures var after := Step(p, op); after.reserve0 >= 0.0 && after.reserve1 >= 0.0 && FeeAllowed(after.fee)
  {
    if Enabled(p, op) {
      match op
      case Swap0(amount) => PayoutLeaves(p.reserve0, p.reserve1, amount, p.fee);
      case Swap1(amount) => PayoutLeaves(p.reserve1, p.reserve0, amount, p.fee);
      case SetFee(_) =>
      case Add(_, _, _) =>
      case Remove(shares) => var _ := RemoveScales(p, shares);
    }
  }

  /** Removal scales reserves and supply alike. */
  lemma RemoveScales(p: Pool, shares: real) returns (left: real)
    requires 0.0 < shares <= p.supply
    ensures 0.0 <= left <= 1.0
    ensures var after := AfterRemove(p, shares);
            after.supply == left * p.supply && after.reserve0 == left * p.reserve0 &&
            after.reserve1 == left * p.reserve1
    ensures p.reserve0 >= 0.0 ==> AfterRemove(p, shares).reserve0 >= 0.0
    ensures p.reserve1 >= 0.0 ==> AfterRemove(p, shares).reserve1 >= 0.0
  {
    var fraction := shares / p.supply;
    Quotient(shares, p.supply);
    Sign(fraction, p.supply);
    Sign(1.0 - fraction, p.supply);
    assert (1.0 - fraction) * p.supply == p.supply - shares;
    left := 1.0 - fraction;
  }

  ghost function Run(p: Pool, ops: seq<Op>): (after: Pool)
    requires p.reserve0 >= 0.0 && p.reserve1 >= 0.0 && FeeAllowed(p.fee)
    ensures after.reserve0 >= 0.0 && after.reserve1 >= 0.0 && FeeAllowed(after.fee)
  {
    if ops == [] then p
    else
      var before := Run(p, ops[..|ops| - 1]);
      StepNonNegative(before, ops[|ops| - 1]);
      Step(before, ops[|ops| - 1])
  }

  ghost predicate SwapsOnly(ops: seq<Op>) {
    forall op :: op in ops ==> op.Swap0? || op.Swap1? || op.SetFee?
  }

  ghost predicate ProductKept(p: Pool, q: Pool) {
    q.reserve0 > 0.0 && q.reserve1 > 0.0 && p.Product() <= q.Product()
  }

  lemma Swap0Keeps(p: Pool, amount: real)
    requires p.reserve0 > 0.0 && p.reserve1 > 0.0 && FeeAllowed(p.fee) && amount > 0.0
    ensures ProductKept(p, AfterSwap0(p, amount))
  {
    PayoutLeaves(p.reserve0, p.reserve1, amount, p.fee);
    SwapKeepsProduct(p.reserve0, p.reserve1, amount, p.fee);
  }

  lemma Swap1Keeps(p: Pool, amount: real)
    requires p.reserve0 > 0.0 && p.reserve1 > 0.0 && FeeAllowed(p.fee) && amount > 0.0
    ensures ProductKept(p, AfterSwap1(p, amount))
  {
    PayoutLeaves(p.reserve1, p.reserve0, amount, p.fee);
    SwapKeepsProduct(p.reserve1, p.reserve0, amount, p.fee);
    Commute(p.reserve0 - Payout(p.reserve1, p.reserve0, amount, p.fee), p.reserve1 + amount);
    Commute(p.reserve0, p.reserve1);
  }

  lemma Commute(x: real, y: real)
    ensures x * y == y * x
  {
  }

  lemma SwapStepKeepsProduct(p: Pool, op: Op)
    requires p.reserve0 > 0.0 && p.reserve1 > 0.0 && FeeAllowed(p.fee) && (op.Swap0? || op.Swap1? || op.SetFee?)
    ensures ProductKept(p, Step(p, op))
  {
    if Enabled(p, op) {
      match op
      case Swap0(amount) => Swap0Keeps(p, amount);
      case Swap1(amount) => Swap1Keeps(p, amount);
      case SetFee(_) =>
    }
  }

  /** Any swaps in either direction: both reserves stay positive, the product never falls. */
  lemma {:induction false} SwapRunKeepsProduct(p: Pool, ops: seq<Op>)
    requires p.reserve0 > 0.0 && p.reserve1 > 0.0 && FeeAllowed(p.fee) && SwapsOnly(ops)
    ensures ProductKept(p, Run(p, ops))
  {
    if ops != [] {
      var init, last := ops[..|ops| - 1], ops[|ops| - 1];
      assert last in ops;
      SwapRunKeepsProduct(p, init);
      SwapStepKeepsProduct(Run(p, init), last);
    }
  }

  /** No run of swaps takes tokens out of one reserve without leaving more in the other. */
  lemma NoFreeReserves(p: Pool, ops: seq<Op>)
    requires p.reserve0 > 0.0 && p.reserve1 > 0.0 && FeeAllowed(p.fee) && SwapsOnly(ops)
    ensures Run(p, ops).reserve0 <= p.reserve0 ==> Run(p, ops).reserve1 >= p.reserve1
    ensures Run(p, ops).reserve1 <= p.reserve1 ==> Run(p, ops).reserve0 >= p.reserve0
  {
    SwapRunKeepsProduct(p, ops);
    KeptBounds(p, Run(p, ops));
  }

  lemma KeptBounds(p: Pool, q: Pool)
    requires p.reserve0 > 0.0 && p.reserve1 > 0.0 && ProductKept(p, q)
    ensures q.reserve0 <= p.reserve0 ==> q.reserve1 >= p.reserve1
    ensures q.reserve1 <= p.reserve1 ==> q.reserve0 >= p.reserve0
  {
    SmallerFactor(p.reserve0, p.reserve1, q.reserve0, q.reserve1);
  }

  lemma SmallerFactor(a: real, b: real, c: real, d: real)
    requires a > 0.0 && c > 0.0 && b > 0.0 && d > 0.0 && a * b <= c * d
    ensures c <= a ==> d >= b
    ensures d <= b ==> c >= a
  {
    if c <= a {
      Monotone(c, a, d);
      assert (d - b) * a >= 0.0;
      Sign(d - b, a);
    }
    if d <= b {
      Monotone(d, b, c);
      assert (c - a) * b >= 0.0;
      Sign(c - a, b);
    }
  }

  /** The pool with its tokens exchanged: a swap of one is a swap of the other. */
  function Mirrored(p: Pool): Pool {
    p.(reserve0 := p.reserve1, reserve1 := p.reserve0)
  }

  lemma SwapsMirror(p: Pool, amount: real)
    requires p.reserve1 >= 0.0 && amount > 0.0 && FeeAllowed(p.fee)
    ensures AfterSwap0(Mirrored(p), amount) == Mirrored(AfterSwap1(p, amount))
  {
  }

  lemma RoundTripFrom0(p: Pool, amount: real)
    requires p.reserve0 > 0.0 && p.reserve1 > 0.0 && FeeAllowed(p.fee) && amount > 0.0
    ensures var paid, mid := Payout(p.reserve0, p.reserve1, amount, p.fee), AfterSwap0(p, amount);
            paid > 0.0 && mid.reserve1 >= 0.0 && Payout(mid.reserve1, mid.reserve0, paid, p.fee) <= amount
  {
    var paid, mid := Payout(p.reserve0, p.reserve1, amount, p.fee), AfterSwap0(p, amount);
    PayoutLeaves(p.reserve0, p.reserve1, amount, p.fee);
    SwapKeepsProduct(p.reserve0, p.reserve1, amount, p.fee);
    SwapKeepsProduct(mid.reserve1, mid.reserve0, paid, p.fee);
    var back := Payout(mid.reserve1, mid.reserve0, paid, p.fee);
    PayoutLeaves(mid.reserve1, mid.reserve0, paid, p.fee);
    ReserveRestored(p.reserve0, p.reserve1, mid.reserve0, mid.reserve1, paid, back);
  }

  /** In either direction, swapping and swapping the payout back returns no more than was
      put in. */
  lemma RoundTripNeverProfits(p: Pool, amount: real)
    requires p.reserve0 > 0.0 && p.reserve1 > 0.0 && FeeAllowed(p.fee) && amount > 0.0
    ensures var paid, mid := Payout(p.reserve0, p.reserve1, amount, p.fee), AfterSwap0(p, amount);
            paid > 0.0 && mid.reserve1 >= 0.0 && Payout(mid.reserve1, mid.reserve0, paid, p.fee) <= amount
    ensures var paid, mid := Payout(p.reserve1, p.reserve0, amount, p.fee), AfterSwap1(p, amount);
            paid > 0.0 && mid.reserve0 >= 0.0 && Payout(mid.reserve0, mid.reserve1, paid, p.fee) <= amount
  {
    RoundTripFrom0(p, amount);
    RoundTripFrom0(Mirrored(p), amount);
    SwapsMirror(p, amount);
  }

  lemma ReserveRestored(r0: real, r1: real, m0: real, m1: real, paid: real, back: real)
    requires r1 > 0.0 && m1 + paid == r1
    requires r0 * r1 <= m0 * m1 && m1 * m0 <= (m1 + paid) * (m0 - back)
    ensures r0 <= m0 - back
  {
    assert (m0 - back - r0) * r1 >= 0.0;
    Sign(m0 - back - r0, r1);
  }

  lemma SplitFrom0(p: Pool, x: real, y: real)
    requires p.reserve0 > 0.0 && p.reserve1 > 0.0 && FeeAllowed(p.fee) && x > 0.0 && y > 0.0
    ensures var first := AfterSwap0(p, x);
            var split := Payout(p.reserve0, p.reserve1, x, p.fee) + Payout(first.reserve0, first.reserve1, y, p.fee);
            var whole := Payout(p.reserve0, p.reserve1, x + y, p.fee);
            split <= whole && (p.fee == 0.0 ==> split == whole)
  {
    var first := AfterSwap0(p, x);
    var u := first.reserve1;
    SplitLeaves(p.reserve0, p.reserve1, p.fee, x, y, u,
      u - Payout(first.reserve0, u, y, p.fee), p.reserve1 - Payout(p.reserve0, p.reserve1, x + y, p.fee));
  }

  /** In either direction, two swaps in a row never pay more than one swap of the sum, and
      pay the same when there is no fee. */
  lemma SplitNeverPaysMore(p: Pool, x: real, y: real)
    requires p.reserve0 > 0.0 && p.reserve1 > 0.0 && FeeAllowed(p.fee) && x > 0.0 && y > 0.0
    ensures var first := AfterSwap0(p, x);
            var split := Payout(p.reserve0, p.reserve1, x, p.fee) + Payout(first.reserve0, first.reserve1, y, p.fee);
            var whole := Payout(p.reserve0, p.reserve1, x + y, p.fee);
            split <= whole && (p.fee == 0.0 ==> split == whole)
    ensures var first := AfterSwap1(p, x);
            var split := Payout(p.reserve1, p.reserve0, x, p.fee) + Payout(first.reserve1, first.reserve0, y, p.fee);
            var whole := Payout(p.reserve1, p.reserve0, x + y, p.fee);
            split <= whole && (p.fee == 0.0 ==> split == whole)
  {
    SplitFrom0(p, x, y);
    SplitFrom0(Mirrored(p), x, y);
    SwapsMirror(p, x);
  }

  /** What the paying reserve keeps: u after x, v after x and y, w after x + y. */
  lemma SplitLeaves(a: real, b: real, fee: real, x: real, y: real, u: real, v: real, w: real)
    requires a > 0.0 && b > 0.0 && FeeAllowed(fee) && x > 0.0 && y > 0.0
    requires u == b - Payout(a, b, x, fee) && v == u - Payout(a + x, u, y, fee) && w == b - Payout(a, b, x + y, fee)
    ensures v >= w && (fee == 0.0 ==> v == w)
  {
    var k := a * b;
    Sign(a, b);
    var gx := LeftOver(a, b, x, fee, k);
    var gy := LeftOver(a + x, u, y, fee, (a + x) * u);
    var g := LeftOver(a, b, x + y, fee, k);
    SplitPayouts(a, k, x, y, fee, gx, gy, g, u, v, w);
  }

  /** The swap's equation alone, in terms of the amount after the fee. */
  lemma LeftOver(rin: real, rout: real, amount: real, fee: real, k: real) returns (afterFee: real)
    requires rin >= 0.0 && rout >= 0.0 && amount > 0.0 && FeeAllowed(fee) && k == rin * rout
    ensures rout - Payout(rin, rout, amount, fee) >= 0.0
    ensures afterFee == amount * (1.0 - fee) && (rout - Payout(rin, rout, amount, fee)) * (rin + afterFee) == k
  {
    afterFee := amount * (1.0 - fee);
    PayoutLeaves(rin, rout, amount, fee);
  }

  lemma SplitPayouts(a: real, k: real, x: real, y: real, fee: real, gx: real, gy: real, g: real, u: real, v: real,
                     w: real)
    requires a > 0.0 && k > 0.0 && x > 0.0 && y > 0.0 && FeeAllowed(fee)
    requires gx == x * (1.0 - fee) && gy == y * (1.0 - fee) && g == (x + y) * (1.0 - fee)
    requires u * (a + gx) == k && v * (a + x + gy) == (a + x) * u && w * (a + g) == k
    ensures v >= w && (fee == 0.0 ==> v == w)
  {
    FeePositive(x, fee);
    FeePositive(y, fee);
    Distribute(x, y, 1.0 - fee);
    SplitArithmetic(a, k, x, gx, gy, g, u, v, w);
  }

  lemma Distribute(x: real, y: real, z: real)
    ensures (x + y) * z == x * z + y * z
  {
  }

  lemma SplitArithmetic(a: real, k: real, x: real, gx: real, gy: real, g: real, u: real, v: real, w: real)
    requires a > 0.0 && k > 0.0 && 0.0 < gx <= x && gy > 0.0 && g == gx + gy
    requires u * (a + gx) == k && v * (a + x + gy) == (a + x) * u && w * (a + g) == k
    ensures v >= w && (gx == x ==> v == w)
  {
    var c, d := a + gx, a + x;
    var p, q := (d + gy) * c, (c + gy) * d;
    assert v * p == k * d by {
      Associate(v, d + gy, c);
      Associate(d, u, c);
    }
    assert w * q == k * d by {
      Associate(w, c + gy, d);
    }
    assert q - p == gy * (d - c);
    Sign(d - c, gy);
    Sign(d + gy, c);
    Sign(w, c + gy);
    Compare(p, q, v, w);
  }

  lemma Associate(x: real, y: real, z: real)
    ensures x * (y * z) == (x * y) * z
  {
  }

  lemma Compare(p: real, q: real, v: real, w: real)
    requires 0.0 < p <= q && w >= 0.0 && v * p == w * q
    ensures v >= w && (p == q ==> v == w)
  {
    Monotone(p, q, w);
    assert (v - w) * p >= 0.0;
    Sign(v - w, p);
    Sign(w - v, p);
    assert p == q ==> (w - v) * p == 0.0;
  }

  // ---------- what a share is worth ----------

  /** The shares outstanding are covered by the geometric mean of the reserves. */
  ghost predicate Backed(p: Pool) {
    p.reserve0 >= 0.0 && p.reserve1 >= 0.0 && p.supply >= 0.0 && FeeAllowed(p.fee) &&
    p.supply * p.supply <= p.Product()
  }

  /** An accepted deposit brings at least the exact share of token1. */
  ghost predicate Fair(p: Pool, op: Op) {
    op.Add? && Enabled(p, op) && p.supply != 0.0 ==> op.amount1 * p.reserve0 >= op.amount0 * p.reserve1
  }

  /** A deposit scales reserve0 and the supply by the same factor. */
  lemma AddScales(p: Pool, amount0: real, amount1: real) returns (growth: real)
    requires p.reserve0 > 0.0 && amount0 > 0.0
    ensures growth > 1.0 && growth * p.reserve0 == p.reserve0 + amount0
    ensures AfterAdd(p, amount0, amount1).reserve0 == growth * p.reserve0
    ensures AfterAdd(p, amount0, amount1).supply == growth * p.supply
  {
    var share := amount0 / p.reserve0;
    Quotient(amount0, p.reserve0);
    Sign(share, p.reserve0);
    growth := 1.0 + share;
    Distribute(1.0, share, p.reserve0);
    Distribute(1.0, share, p.supply);
  }

  /** r1 is what reserve1 grew to while reserve0 and the supply grew by the factor g. */
  lemma RatioCore(a: real, b: real, s: real, g: real, a': real, b': real, s': real) returns (c: real)
    requires a > 0.0 && b > 0.0 && s > 0.0 && g > 0.0 && a' == g * a && s' == g * s
    ensures c > 0.0 && a' * b' * (s * s) == c * b' && a * b * (s' * s') == c * (g * b)
  {
    c := ((g * a) * s) * s;
    assert c > 0.0 by {
      Positive(g, a);
      Positive(g * a, s);
      Positive((g * a) * s, s);
    }
    Regroup(a, b, s, g, b');
  }

  lemma Regroup(a: real, b: real, s: real, g: real, b': real)
    ensures (g * a) * b' * (s * s) == (((g * a) * s) * s) * b'
    ensures a * b * ((g * s) * (g * s)) == (((g * a) * s) * s) * (g * b)
  {
  }

  lemma Positive(x: real, y: real)
    requires x > 0.0 && y > 0.0
    ensures x * y > 0.0
  {
  }

  /** After the deposit a share is worth at least as much as before exactly when token1
      was not short of the exact ratio. */
  lemma AddKeepsBackingExactly(p: Pool, amount0: real, amount1: real)
    requires p.reserve0 > 0.0 && p.reserve1 > 0.0 && p.supply > 0.0 && amount0 > 0.0
    ensures var after := AfterAdd(p, amount0, amount1);
            p.Product() * (after.supply * after.supply) <= after.Product() * (p.supply * p.supply)
            <==> amount0 * p.reserve1 <= amount1 * p.reserve0
  {
    var g := AddScales(p, amount0, amount1);
    var after := AfterAdd(p, amount0, amount1);
    ShareComparison(p.reserve0, p.reserve1, p.supply, g, amount0, amount1, after.reserve0, after.reserve1,
                    after.supply);
  }

  lemma ShareComparison(a: real, b: real, s: real, g: real, x: real, y: real, a': real, b': real, s': real)
    requires a > 0.0 && b > 0.0 && s > 0.0 && g > 1.0 && g * a == a + x
    requires a' == g * a && b' == b + y && s' == g * s
    ensures a * b * (s' * s') <= a' * b' * (s * s) <==> x * b <= y * a
  {
    var c := RatioCore(a, b, s, g, a', b', s');
    ScaledOrder(c, g * b, b');
    ScaledOrder(a, g * b, b');
    GrownReserve(a, b, g, x);
    Commute(a, b');
    Distribute(b, y, a);
  }

  lemma GrownReserve(a: real, b: real, g: real, x: real)
    requires g * a == a + x
    ensures a * (g * b) == b * a + x * b
  {
    assert a * (g * b) == (g * a) * b;
  }

  lemma ScaledOrder(c: real, x: real, y: real)
    requires c > 0.0
    ensures c * x <= c * y <==> x <= y
  {
    assert c * y - c * x == (y - x) * c;
    Sign(y - x, c);
  }

  /** A deposit within the tolerance costs the others at most half a percent. */
  lemma AddWithinToleranceDilutes(p: Pool, amount0: real, amount1: real)
    requires p.reserve0 > 0.0 && p.reserve1 > 0.0 && p.supply > 0.0 && amount0 > 0.0
    requires WithinTolerance(p, amount0, amount1)
    ensures var after := AfterAdd(p, amount0, amount1);
            0.995 * (p.Product() * (after.supply * after.supply)) <= after.Product() * (p.supply * p.supply)
  {
    var g := AddScales(p, amount0, amount1);
    var after := AfterAdd(p, amount0, amount1);
    ToleranceFloor(p, amount0, amount1);
    DilutionCore(p.reserve0, p.reserve1, p.supply, g, amount0, amount1, after.reserve0, after.reserve1, after.supply);
  }

  lemma ToleranceFloor(p: Pool, amount0: real, amount1: real)
    requires p.reserve0 > 0.0 && p.reserve1 > 0.0 && amount0 > 0.0 && WithinTolerance(p, amount0, amount1)
    ensures 0.995 * (amount0 * p.reserve1) <= amount1 * p.reserve0
  {
    ExpectedPositive(p, amount0);
    var e := Expected1(p, amount0);
    var off := Abs(amount1 - e);
    Quotient(off, e);
    Monotone(off / e, 0.005, e);
    Monotone(0.995 * e, amount1, p.reserve0);
    Associate(0.995, e, p.reserve0);
  }

  lemma DilutionCore(a: real, b: real, s: real, g: real, x: real, y: real, a': real, b': real, s': real)
    requires a > 0.0 && b > 0.0 && s > 0.0 && g > 1.0 && g * a == a + x && 0.995 * (x * b) <= y * a
    requires a' == g * a && b' == b + y && s' == g * s
    ensures 0.995 * (a * b * (s' * s')) <= a' * b' * (s * s)
  {
    var c := RatioCore(a, b, s, g, a', b', s');
    GrownReserve(a, b, g, x);
    Positive(a, b);
    Commute(a, b');
    Distribute(b, y, a);
    assert a * (0.995 * (g * b)) == 0.995 * (a * (g * b));
    ScaledOrder(a, 0.995 * (g * b), b');
    ScaledOrder(c, 0.995 * (g * b), b');
    assert c * (0.995 * (g * b)) == 0.995 * (c * (g * b));
  }

  /** A deposit of 100 and 99.6 into a pool of 100 and 100 is within the tolerance, and
      what a share is worth falls. */
  lemma ShortDepositDilutes()
    ensures var p := Pool(100.0, 100.0, 100.0, 0.003, 100.0, 100.0);
            WithinTolerance(p, 100.0, 99.6) &&
            var after := AfterAdd(p, 100.0, 99.6);
            after.Product() * (p.supply * p.supply) < p.Product() * (after.supply * after.supply)
  {
    var p := Pool(100.0, 100.0, 100.0, 0.003, 100.0, 100.0);
    assert Expected1(p, 100.0) == 100.0;
    AddKeepsBackingExactly(p, 100.0, 99.6);
  }

  lemma AddBacked(p: Pool, amount0: real, amount1: real)
    requires Backed(p) && p.supply > 0.0 && p.reserve0 > 0.0 && amount0 > 0.0 && amount1 > 0.0
    requires amount1 * p.reserve0 >= amount0 * p.reserve1
    ensures Backed(AfterAdd(p, amount0, amount1))
  {
    var g := AddScales(p, amount0, amount1);
    Sign(g, p.supply);
    var after := AfterAdd(p, amount0, amount1);
    ScaledBacking(p.reserve0, p.reserve1, p.supply, g, amount0, amount1, after.reserve0, after.reserve1, after.supply);
  }

  lemma ScaledBacking(a: real, b: real, s: real, g: real, x: real, y: real, a': real, b': real, s': real)
    requires a > 0.0 && b >= 0.0 && s >= 0.0 && g > 1.0 && g * a == a + x && x * b <= y * a && s * s <= a * b
    requires a' == g * a && b' == b + y && s' == g * s
    ensures s' * s' <= a' * b'
  {
    ShrunkBacking(a, b, s, g, a', g * b, s');
    GrownReserve(a, b, g, x);
    Commute(a, b');
    Distribute(b, y, a);
    ScaledOrder(a, g * b, b');
    Positive(g, a);
    ScaledOrder(a', g * b, b');
  }

  lemma RemoveBacked(p: Pool, shares: real)
    requires Backed(p) && 0.0 < shares <= p.supply
    ensures Backed(AfterRemove(p, shares))
  {
    var left := RemoveScales(p, shares);
    var after := AfterRemove(p, shares);
    ShrunkBacking(p.reserve0, p.reserve1, p.supply, left, after.reserve0, after.reserve1, after.supply);
    assert after.supply >= 0.0;
  }

  /** Scaling everything by one factor keeps shares covered. */
  lemma ShrunkBacking(a: real, b: real, s: real, f: real, a': real, b': real, s': real)
    requires s * s <= a * b && 0.0 <= f && a' == f * a && b' == f * b && s' == f * s
    ensures s' * s' <= a' * b'
  {
    Monotone(s * s, a * b, f);
    Monotone(s * s * f, a * b * f, f);
    assert s' * s' == s * s * f * f;
    assert a' * b' == a * b * f * f;
  }

  lemma Swap0Backed(p: Pool, amount: real)
    requires Backed(p) && amount > 0.0
    ensures Backed(AfterSwap0(p, amount))
  {
    PayoutLeaves(p.reserve0, p.reserve1, amount, p.fee);
    SwapKeepsProduct(p.reserve0, p.reserve1, amount, p.fee);
  }

  lemma Swap1Backed(p: Pool, amount: real)
    requires Backed(p) && amount > 0.0
    ensures Backed(AfterSwap1(p, amount))
  {
    PayoutLeaves(p.reserve1, p.reserve0, amount, p.fee);
    SwapKeepsProduct(p.reserve1, p.reserve0, amount, p.fee);
    Commute(p.reserve0 - Payout(p.reserve1, p.reserve0, amount, p.fee), p.reserve1 + amount);
    Commute(p.reserve0, p.reserve1);
  }

  lemma StepBacked(p: Pool, op: Op)
    requires Backed(p) && Fair(p, op)
    ensures Backed(Step(p, op))
  {
    if Enabled(p, op) {
      match op
      case Swap0(amount) => Swap0Backed(p, amount);
      case Swap1(amount) => Swap1Backed(p, amount);
      case SetFee(_) =>
      case Add(amount0, amount1, _) => if p.supply != 0.0 { AddBacked(p, amount0, amount1); }
      case Remove(shares) => RemoveBacked(p, shares);
    }
  }

  ghost predicate AllFair(p: Pool, ops: seq<Op>)
    requires p.reserve0 >= 0.0 && p.reserve1 >= 0.0 && FeeAllowed(p.fee)
  {
    forall i :: 0 <= i < |ops| ==> Fair(Run(p, ops[..i]), ops[i])
  }

  /** Swaps, withdrawals and deposits that are not short of token1 keep every share
      covered, in any order and number. */
  lemma {:induction false} RunStaysBacked(p: Pool, ops: seq<Op>)
    requires Backed(p) && AllFair(p, ops)
    ensures Backed(Run(p, ops))
  {
    if ops != [] {
      var init := ops[..|ops| - 1];
      assert AllFair(p, init) by {
        forall i | 0 <= i < |init|
          ensures Fair(Run(p, init[..i]), init[i])
        {
          assert init[..i] == ops[..i];
        }
      }
      RunStaysBacked(p, init);
      StepBacked(Run(p, init), ops[|ops| - 1]);
    }
  }

  // ---------- what deposits within the tolerance cost over a run ----------

  /** A deposit into a pool with shares outstanding. */
  ghost predicate Deposits(p: Pool, op: Op) {
    op.Add? && Enabled(p, op) && p.supply != 0.0
  }

  ghost function DepositCount(p: Pool, ops: seq<Op>): nat
    requires p.reserve0 >= 0.0 && p.reserve1 >= 0.0 && FeeAllowed(p.fee)
  {
    if ops == [] then 0
    else
      var init := ops[..|ops| - 1];
      DepositCount(p, init) + if Deposits(Run(p, init), ops[|ops| - 1]) then 1 else 0
  }

  /** The floor after k times the worst deposit. */
  function Diluted(floor: real, k: nat): (d: real)
    ensures floor >= 0.0 ==> 0.0 <= d <= floor
  {
    if k == 0 then floor else 0.995 * Diluted(floor, k - 1)
  }

  /** The product over the square of the supply is at least the floor. */
  ghost predicate Worth(p: Pool, floor: real) {
    p.reserve0 >= 0.0 && p.reserve1 >= 0.0 && FeeAllowed(p.fee) && p.supply >= 0.0 && floor >= 0.0 &&
    floor * (p.supply * p.supply) <= p.Product()
  }

  lemma DepositWorth(p: Pool, amount0: real, amount1: real, floor: real)
    requires Worth(p, floor) && p.supply > 0.0 && p.reserve0 > 0.0 && p.reserve1 > 0.0
    requires amount0 > 0.0 && amount1 > 0.0 && WithinTolerance(p, amount0, amount1)
    ensures Worth(AfterAdd(p, amount0, amount1), 0.995 * floor)
  {
    var after := AfterAdd(p, amount0, amount1);
    AddWithinToleranceDilutes(p, amount0, amount1);
    var g := AddScales(p, amount0, amount1);
    Sign(g, p.supply);
    Positive(p.supply, p.supply);
    WorthCore(p.Product(), p.supply * p.supply, after.Product(), after.supply * after.supply, floor);
  }

  lemma WorthCore(k: real, s: real, k': real, s': real, floor: real)
    requires s > 0.0 && s' >= 0.0 && floor * s <= k && 0.995 * (k * s') <= k' * s
    ensures 0.995 * floor * s' <= k'
  {
    Monotone(floor * s, k, s');
    assert (0.995 * floor * s') * s == 0.995 * ((floor * s) * s');
    assert (k' - 0.995 * floor * s') * s >= 0.0;
    Sign(k' - 0.995 * floor * s', s);
  }

  lemma RemovalWorth(p: Pool, shares: real, floor: real)
    requires Worth(p, floor) && 0.0 < shares <= p.supply
    ensures Worth(AfterRemove(p, shares), floor)
  {
    var left := RemoveScales(p, shares);
    var after := AfterRemove(p, shares);
    ShrunkWorth(p.reserve0, p.reserve1, p.supply, left, after.reserve0, after.reserve1, after.supply, floor);
  }

  lemma ShrunkWorth(a: real, b: real, s: real, f: real, a': real, b': real, s': real, floor: real)
    requires floor * (s * s) <= a * b && 0.0 <= f && a' == f * a && b' == f * b && s' == f * s
    ensures floor * (s' * s') <= a' * b'
  {
    Monotone(floor * (s * s), a * b, f);
    Monotone(floor * (s * s) * f, a * b * f, f);
    assert floor * (s' * s') == floor * (s * s) * f * f;
    assert a' * b' == a * b * f * f;
  }

  lemma KeptWorth(p: Pool, q: Pool, floor: real)
    requires Worth(p, floor) && q.reserve0 >= 0.0 && q.reserve1 >= 0.0 && q.fee == p.fee && q.supply == p.supply
    requires p.Product() <= q.Product()
    ensures Worth(q, floor)
  {
  }

  lemma Swap0Worth(p: Pool, amount: real, floor: real)
    requires Worth(p, floor) && amount > 0.0
    ensures Worth(AfterSwap0(p, amount), floor)
  {
    PayoutLeaves(p.reserve0, p.reserve1, amount, p.fee);
    SwapKeepsProduct(p.reserve0, p.reserve1, amount, p.fee);
    KeptWorth(p, AfterSwap0(p, amount), floor);
  }

  lemma Swap1Worth(p: Pool, amount: real, floor: real)
    requires Worth(p, floor) && amount > 0.0
    ensures Worth(AfterSwap1(p, amount), floor)
  {
    PayoutLeaves(p.reserve1, p.reserve0, amount, p.fee);
    SwapKeepsProduct(p.reserve1, p.reserve0, amount, p.fee);
    Commute(p.reserve0 - Payout(p.reserve1, p.reserve0, amount, p.fee), p.reserve1 + amount);
    Commute(p.reserve0, p.reserve1);
    KeptWorth(p, AfterSwap1(p, amount), floor);
  }

  lemma FirstDepositWorth(p: Pool, amount0: real, amount1: real, root: real, floor: real)
    requires FeeAllowed(p.fee) && amount0 > 0.0 && amount1 > 0.0 && IsRoot(root, amount0 * amount1)
    requires 0.0 <= floor <= 1.0
    ensures Worth(AfterFirstAdd(p, amount0, amount1, root), floor)
  {
    Monotone(0.0, root, root);
    Monotone(floor, 1.0, root * root);
  }

  /** A swap or a removal keeps any floor, a deposit 99.5% of it, and a first deposit one
      of at most 1. */
  lemma StepWorth(p: Pool, op: Op, floor: real)
    requires Worth(p, floor) && (floor <= 1.0 || p.supply > 0.0)
    ensures Worth(Step(p, op), if Deposits(p, op) then 0.995 * floor else floor)
  {
    if Enabled(p, op) {
      match op
      case Swap0(amount) => Swap0Worth(p, amount, floor);
      case Swap1(amount) => Swap1Worth(p, amount, floor);
      case SetFee(_) =>
      case Add(amount0, amount1, root) =>
        if p.supply == 0.0 {
          FirstDepositWorth(p, amount0, amount1, root, floor);
        } else {
          DepositWorth(p, amount0, amount1, floor);
        }
      case Remove(shares) => RemovalWorth(p, shares, floor);
    }
  }

  ghost predicate NeverEmptied(p: Pool, ops: seq<Op>)
    requires p.reserve0 >= 0.0 && p.reserve1 >= 0.0 && FeeAllowed(p.fee)
  {
    forall i :: 0 <= i <= |ops| ==> Run(p, ops[..i]).supply > 0.0
  }

  /** What every call hands on, the run hands on, counting the deposits. */
  ghost predicate HandsOn(holds: (Pool, nat) -> bool, p: Pool, op: Op)
    requires p.reserve0 >= 0.0 && p.reserve1 >= 0.0 && FeeAllowed(p.fee)
  {
    forall k: nat :: holds(p, k) ==> holds(Step(p, op), if Deposits(p, op) then k + 1 else k)
  }

  lemma {:induction false} RunHandsOn(holds: (Pool, nat) -> bool, p: Pool, ops: seq<Op>)
    requires p.reserve0 >= 0.0 && p.reserve1 >= 0.0 && FeeAllowed(p.fee) && holds(p, 0)
    requires forall i :: 0 <= i < |ops| ==> HandsOn(holds, Run(p, ops[..i]), ops[i])
    ensures holds(Run(p, ops), DepositCount(p, ops))
  {
    if ops != [] {
      var init := ops[..|ops| - 1];
      forall i | 0 <= i < |init|
        ensures HandsOn(holds, Run(p, init[..i]), init[i])
      {
        assert init[..i] == ops[..i];
      }
      RunHandsOn(holds, p, init);
      assert HandsOn(holds, Run(p, ops[..|init|]), ops[|init|]);
    }
  }

  lemma WorthHandedOn(p: Pool, op: Op, floor: real, k: nat)
    requires floor >= 0.0 && Worth(p, Diluted(floor, k)) && (floor <= 1.0 || p.supply > 0.0)
    ensures Worth(Step(p, op), Diluted(floor, if Deposits(p, op) then k + 1 else k))
  {
    StepWorth(p, op, Diluted(floor, k));
    assert Diluted(floor, k + 1) == 0.995 * Diluted(floor, k);
  }

  /** Over any operations with k deposits among them, the product stays at 0.995 to the k
      of every floor it had, times the square of the supply; of a floor above 1 only if
      the pool is never emptied, because it then starts over at 1. */
  lemma RunDilutes(p: Pool, ops: seq<Op>, floor: real)
    requires Worth(p, floor) && (floor <= 1.0 || NeverEmptied(p, ops))
    ensures Worth(Run(p, ops), Diluted(floor, DepositCount(p, ops)))
  {
    var holds := (q: Pool, k: nat) => Worth(q, Diluted(floor, k));
    forall i | 0 <= i < |ops|
      ensures HandsOn(holds, Run(p, ops[..i]), ops[i])
    {
      var q := Run(p, ops[..i]);
      assert floor <= 1.0 || q.supply > 0.0;
      forall k: nat | holds(q, k)
        ensures holds(Step(q, ops[i]), if Deposits(q, ops[i]) then k + 1 else k)
      {
        WorthHandedOn(q, ops[i], floor, k);
      }
    }
    RunHandsOn(holds, p, ops);
  }

  /** An exact deposit followed by the withdrawal of the minted shares gives the same
      tokens back and leaves the pool as it was. */
  lemma AddThenRemove(p: Pool, amount0: real)
    requires p.reserve0 > 0.0 && p.reserve1 > 0.0 && p.supply > 0.0 && amount0 > 0.0
    ensures var added := AfterAdd(p, amount0, Expected1(p, amount0));
            added.supply > 0.0 && AfterRemove(added, Minted(p, amount0)) == p
  {
    var amount1 := Expected1(p, amount0);
    var added, minted := AfterAdd(p, amount0, amount1), Minted(p, amount0);
    var g := AddScales(p, amount0, amount1);
    Sign(g, p.supply);
    var fraction := minted / added.supply;
    FractionReturns(p.reserve0, p.supply, amount0, minted, g, fraction);
    ExpectedPositive(p, amount0);
    FractionReturns1(p.reserve0, p.reserve1, amount0, amount1, fraction);
  }

  lemma FractionReturns(a: real, s: real, x: real, minted: real, g: real, fraction: real)
    requires a > 0.0 && s > 0.0 && x > 0.0 && g > 1.0 && g * a == a + x
    requires minted == g * s - s && g * s > 0.0 && fraction == minted / (g * s)
    ensures fraction * (a + x) == x
  {
    Quotient(minted, g * s);
    // fraction * g == g - 1, by cancelling s
    assert (fraction * g - (g - 1.0)) * s == 0.0;
    Sign(fraction * g - (g - 1.0), s);
    Sign((g - 1.0) - fraction * g, s);
    assert fraction * (g * a) == (fraction * g) * a == (g - 1.0) * a;
  }

  lemma FractionReturns1(a: real, b: real, x: real, y: real, fraction: real)
    requires a > 0.0 && fraction * (a + x) == x && y * a == x * b
    ensures fraction * (b + y) == y
  {
    assert (fraction * (b + y) - y) * a == fraction * (b * a + y * a) - x * b == (fraction * (a + x) - x) * b == 0.0;
    Sign(fraction * (b + y) - y, a);
    Sign(y - fraction * (b + y), a);
  }

  lemma RemoveKeepsReserves(p: Pool, shares: real)
    requires 0.0 < shares <= p.supply && p.reserve0 > 0.0 && p.reserve1 > 0.0
    ensures var after := AfterRemove(p, shares);
            after.reserve0 >= 0.0 && after.reserve1 >= 0.0 &&
            (after.supply > 0.0 ==> after.reserve0 > 0.0 && after.reserve1 > 0.0)
  {
    var left := RemoveScales(p, shares);
    Sign(left, p.supply);
    Sign(left, p.reserve0);
    Sign(left, p.reserve1);
  }

  lemma RootOfReserves(a: real, b: real, root: real)
    requires a >= 0.0 && b >= 0.0 && IsRoot(root, a * b)
    ensures root > 0.0 ==> a > 0.0 && b > 0.0
  {
    if a == 0.0 || b == 0.0 {
      assert a * b == 0.0;
      if root > 0.0 {
        NoRootOfZero(root, root);
      }
    }
  }

  lemma NoRootOfZero(x: real, y: real)
    requires y >= 0.0 && x > 0.0 && x * y == 0.0
    ensures y == 0.0
  {
    if y > 0.0 {
      Positive(x, y);
    }
  }

  // ---------- the class ----------

  datatype Failure = NotPositive | BadRatio | BadShares | UnknownToken | BadFee

  /** The computation that both swap directions share. */
  method PayoutFor(rin: real, rout: real, amount: real, fee: real) returns (out: real)
    requires rin >= 0.0 && amount > 0.0 && FeeAllowed(fee)
    ensures out == Payout(rin, rout, amount, fee)
  {
    FeePositive(amount, fee);
    var amountWithFee := amount * (1.0 - fee);
    out := rout * amountWithFee / (rin + amountWithFee);
  }

  method RatioAccepted(p: Pool, amount0: real, amount1: real) returns (accepted: bool)
    requires p.reserve0 > 0.0 && p.reserve1 > 0.0 && amount0 > 0.0
    ensures accepted == WithinTolerance(p, amount0, amount1)
  {
    var expected := amount0 * p.reserve1 / p.reserve0;
    ExpectedPositive(p, amount0);
    assert expected == Expected1(p, amount0);
    assert WithinTolerance(p, amount0, amount1) == (Abs(amount1 - expected) / expected <= 0.005);
    accepted := !(Abs(amount1 - expected) / expected > 0.005);
  }

  method SharesFor(p: Pool, amount0: real) returns (liquidity: real)
    requires p.reserve0 > 0.0 && p.supply >= 0.0 && amount0 > 0.0
    ensures liquidity == Minted(p, amount0) && liquidity >= 0.0
  {
    liquidity := amount0 / p.reserve0 * p.supply;
    Quotient(amount0, p.reserve0);
    Sign(amount0 / p.reserve0, p.reserve0);
    Monotone(0.0, amount0 / p.reserve0, p.supply);
  }

  class LiquidityPool {
    const token0: string
    const token1: string
    var reserve0: real
    var reserve1: real
    var totalSupply: real
    var feeRate: real
    var tracked0: real
    var tracked1: real
    var constantProduct: real

    function View(): Pool
      reads this
    {
      Pool(reserve0, reserve1, totalSupply, feeRate, tracked0, tracked1)
    }

    /** Reserves are never negative, and positive while shares are outstanding. */
    ghost predicate Valid()
      reads this
    {
      reserve0 >= 0.0 && reserve1 >= 0.0 && totalSupply >= 0.0 && FeeAllowed(feeRate) &&
      (totalSupply > 0.0 ==> reserve0 > 0.0 && reserve1 > 0.0) && constantProduct == reserve0 * reserve1
    }

    constructor (token0: string, token1: string, reserve0: real, reserve1: real, root: real)
      requires IsRoot(root, reserve0 * reserve1)
      ensures View() == Pool(reserve0, reserve1, root, 0.003, reserve0, reserve1) &&
              constantProduct == reserve0 * reserve1
      ensures Valid() <==> reserve0 >= 0.0 && reserve1 >= 0.0
      ensures Backed(View()) <==> reserve0 >= 0.0 && reserve1 >= 0.0
      ensures this.token0 == token0 && this.token1 == token1
    {
      this.token0, this.token1 := token0, token1;
      this.reserve0, this.reserve1, this.totalSupply := reserve0, reserve1, root;
      this.feeRate := 0.003;
      this.tracked0, this.tracked1 := reserve0, reserve1;
      this.constantProduct := reserve0 * reserve1;
      if reserve0 >= 0.0 && reserve1 >= 0.0 {
        RootOfReserves(reserve0, reserve1, root);
      }
    }

    method AddLiquidity(amount0: real, amount1: real, root: real) returns (r: Result<real, Failure>)
      requires Valid()
      requires totalSupply == 0.0 && amount0 > 0.0 && amount1 > 0.0 ==> IsRoot(root, amount0 * amount1)
      modifies this
      ensures Valid() && View() == Step(old(View()), Add(amount0, amount1, root))
      ensures r == if amount0 <= 0.0 || amount1 <= 0.0 then Err(NotPositive)
                   else if old(totalSupply) == 0.0 then Ok(root)
                   else if !WithinTolerance(old(View()), amount0, amount1) then Err(BadRatio)
                   else Ok(Minted(old(View()), amount0))
    {
      if amount0 <= 0.0 || amount1 <= 0.0 {
        return Err(NotPositive);
      }
      if totalSupply == 0.0 {
        reserve0, reserve1, totalSupply := amount0, amount1, root;
        tracked0, tracked1 := amount0, amount1;
        UpdateProduct();
        return Ok(totalSupply);
      }
      var accepted := RatioAccepted(View(), amount0, amount1);
      if !accepted {
        return Err(BadRatio);
      }
      var liquidity := SharesFor(View(), amount0);
      reserve0, reserve1, totalSupply := reserve0 + amount0, reserve1 + amount1, totalSupply + liquidity;
      tracked0, tracked1 := tracked0 + amount0, tracked1 + amount1;
      UpdateProduct();
      return Ok(liquidity);
    }

    method RemoveLiquidity(shares: real) returns (r: Result<(real, real), Failure>)
      requires Valid()
      modifies this
      ensures Valid() && View() == Step(old(View()), Remove(shares))
      ensures r == if shares <= 0.0 || shares > old(totalSupply) then Err(BadShares)
                   else Ok((old(reserve0) - reserve0, old(reserve1) - reserve1))
    {
      if shares <= 0.0 || shares > totalSupply {
        return Err(BadShares);
      }
      RemoveKeepsReserves(View(), shares);
      var fraction := shares / totalSupply;
      var amount0, amount1 := fraction * reserve0, fraction * reserve1;
      reserve0, reserve1, totalSupply := reserve0 - amount0, reserve1 - amount1, totalSupply - shares;
      tracked0, tracked1 := tracked0 - amount0, tracked1 - amount1;
      UpdateProduct();
      return Ok((amount0, amount1));
    }

    method Swap(tokenIn: string, amount: real) returns (r: Result<real, Failure>)
      requires Valid()
      modifies this
      ensures Valid()
      ensures amount <= 0.0 ==> r == Err(NotPositive) && View() == old(View())
      ensures amount > 0.0 && tokenIn != token0 && tokenIn != token1 ==> r == Err(UnknownToken) && View() == old(View())
      ensures amount > 0.0 && tokenIn == token0 ==>
        View() == AfterSwap0(old(View()), amount) && r == Ok(old(reserve1) - reserve1)
      ensures amount > 0.0 && tokenIn == token1 && tokenIn != token0 ==>
        View() == AfterSwap1(old(View()), amount) && r == Ok(old(reserve0) - reserve0)
    {
      if amount <= 0.0 {
        return Err(NotPositive);
      }
      if tokenIn == token0 {
        var out := SwapToken0(amount);
        return Ok(out);
      } else if tokenIn == token1 {
        var out := SwapToken1(amount);
        return Ok(out);
      }
      return Err(UnknownToken);
    }

    method UpdateProduct()
      modifies this`constantProduct
      ensures constantProduct == reserve0 * reserve1
    {
      constantProduct := reserve0 * reserve1;
    }

    method SwapToken0(amount: real) returns (out: real)
      requires Valid() && amount > 0.0
      modifies this`reserve0, this`reserve1, this`constantProduct
      ensures Valid() && View() == AfterSwap0(old(View()), amount) && out == old(reserve1) - reserve1
    {
      PayoutRange(reserve0, reserve1, amount, feeRate);
      out := PayoutFor(reserve0, reserve1, amount, feeRate);
      reserve0 := reserve0 + amount;
      reserve1 := reserve1 - out;
      UpdateProduct();
    }

    method SwapToken1(amount: real) returns (out: real)
      requires Valid() && amount > 0.0
      modifies this`reserve0, this`reserve1, this`constantProduct
      ensures Valid() && View() == AfterSwap1(old(View()), amount) && out == old(reserve0) - reserve0
    {
      PayoutRange(reserve1, reserve0, amount, feeRate);
      out := PayoutFor(reserve1, reserve0, amount, feeRate);
      reserve1 := reserve1 + amount;
      reserve0 := reserve0 - out;
      UpdateProduct();
    }

    method SetFeeRate(fee: real) returns (r: Result<(), Failure>)
      requires Valid()
      modifies this`feeRate
      ensures Valid() && View() == Step(old(View()), SetFee(fee))
      ensures r == if FeeAllowed(fee) then Ok(()) else Err(BadFee)
    {
      if fee < 0.0 || fee > 0.01 {
        return Err(BadFee);
      }
      feeRate := fee;
      return Ok(());
    }
  }
}
