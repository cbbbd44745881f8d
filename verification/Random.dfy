/**
 The deterministic random generator that contracts draw from: a linear congruential
 generator modulo 2^32 (src/runtime/vm_context.js).

 The main results: the generator has full period (`ReturnsExactlyAtMultiplesOfModulus`,
 `EveryStateOnce`), its state arithmetic never leaves the exactly represented integers
 (`StepIsExact`), and every value of a requested range is eventually drawn
 (`EveryValueDrawn`).
 */
module DeterministicRandom {
  import opened Arithmetic
  import opened StringHash
  import opened Sets

  const MULTIPLIER: int := 1664525
  const INCREMENT: int := 1013904223
  const MODULUS: int := 4294967296

  /** JavaScript numbers represent every integer up to this one exactly. */
  const MAX_EXACT: int := 0x20_0000_0000_0000

  function Next(state: nat): (next: nat)
    ensures next < MODULUS
  {
    (state * MULTIPLIER + INCREMENT) % MODULUS
  }

  function Draw(n: nat, state: nat): nat {
    if n == 0 then state else Next(Draw(n - 1, state))
  }

  // ---------- the class ----------

  /** `Math.floor(state / 2^32 * (max - min + 1)) + min`, over exact arithmetic. */
  function Scale(state: nat, min: int, max: int): (value: int)
    requires state < MODULUS && min <= max
    ensures min <= value <= max
  {
    ScaleBound(state, max - min + 1);
    state * (max - min + 1) / MODULUS + min
  }

  class Generator {
    const seed: nat
    var state: nat

    ghost predicate Valid()
      reads this
    {
      seed <= TWO_31 && state < MODULUS
    }

    constructor (text: seq<CodeUnit>)
      ensures Valid() && state == seed == Abs(ToInt32(Polynomial(text)))
    {
      var hash := Hash(text);
      seed := hash;
      state := hash;
    }

    method Reset()
      requires Valid()
      modifies this
      ensures Valid() && state == seed
    {
      state := seed;
    }

    /** Reversed bounds are swapped. */
    method NextInt(min: int, max: int) returns (value: int)
      requires Valid()
      modifies this
      ensures Valid() && state == Next(old(state))
      ensures state == (1664525 * old(state) + 1013904223) % 0x1_0000_0000
      ensures min <= max ==> min <= value <= max && value == Scale(state, min, max)
      ensures max < min ==> max <= value <= min && value == Scale(state, max, min)
    {
      var lo, hi := min, max;
      if lo > hi {
        lo, hi := hi, lo;
      }
      state := (state * MULTIPLIER + INCREMENT) % MODULUS;
      value := Scale(state, lo, hi);
    }

    method NextFloat() returns (value: real)
      requires Valid()
      modifies this
      ensures Valid() && state == Next(old(state))
      ensures 0.0 <= value < 1.0 && value * 4294967296.0 == state as real
    {
      state := (state * MULTIPLIER + INCREMENT) % MODULUS;
      value := state as real / MODULUS as real;
    }
  }

  lemma ScaleBound(state: nat, range: nat)
    requires state < MODULUS && range > 0
    ensures 0 <= state * range / MODULUS < range
  {
    AtLeastOne(range, MODULUS - state);
    assert range * (MODULUS - state) == MODULUS * range - state * range;
  }

  /** Rounding the scaled fraction down, as the source writes it, gives the same value. */
  lemma ScaleExactly(state: nat, min: int, max: int)
    requires state < MODULUS && min <= max
    ensures Scale(state, min, max) == (state as real / 4294967296.0 * (max - min + 1) as real).Floor + min
  {
    var range := max - min + 1;
    var quotient, rest := state * range / MODULUS, state * range % MODULUS;
    assert state * range == quotient * MODULUS + rest;
    var fraction := state as real / 4294967296.0;
    assert fraction * 4294967296.0 == state as real;
    assert (fraction * range as real) * 4294967296.0 == (fraction * 4294967296.0) * range as real;
    assert (fraction * range as real) * 4294967296.0 == (state * range) as real;
    assert quotient as real <= fraction * range as real < (quotient + 1) as real;
  }

  lemma StepIsExact(state: nat)
    requires state < MODULUS
    ensures state * MULTIPLIER + INCREMENT < MAX_EXACT
  {
  }

  // ---------- powers of two and parity ----------

  lemma Halve(z: int, p: nat)
    requires p > 0
    ensures (2 * z) % (2 * p) == 0 <==> z % p == 0
  {
    var q, r := z / p, z % p;
    assert z == p * q + r;
    assert 2 * z == (2 * p) * q + 2 * r;
    DivModUnique(2 * z, 2 * p, q, 2 * r);
  }

  lemma Even(x: int, p: nat)
    requires p > 0 && x % (2 * p) == 0
    ensures x % 2 == 0
  {
    var q := x / (2 * p);
    assert x == 2 * (p * q);
  }

  lemma OddNotMultiple(k: nat, x: int)
    requires k > 0 && x % 2 == 1
    ensures x % Pow2(k) != 0
  {
    if x % Pow2(k) == 0 {
      Even(x, Pow2(k - 1));
    }
  }

  lemma TwiceMultiple(k: nat, x: int)
    requires k > 0
    ensures (2 * x) % Pow2(k) == 0 <==> x % Pow2(k - 1) == 0
  {
    Halve(x, Pow2(k - 1));
  }

  /** An odd factor does not change divisibility by a power of two. */
  lemma {:induction false} OddFactor(k: nat, odd: int, x: int)
    requires odd % 2 == 1
    ensures (odd * x) % Pow2(k) == 0 <==> x % Pow2(k) == 0
  {
    OddTimes(odd, x);
    if k == 0 {
    } else if x % 2 == 1 {
      OddNotMultiple(k, x);
      OddNotMultiple(k, odd * x);
    } else {
      var y := x / 2;
      assert x == 2 * y && odd * x == 2 * (odd * y);
      TwiceMultiple(k, odd * y);
      TwiceMultiple(k, y);
      OddFactor(k - 1, odd, y);
    }
  }

  lemma OddTimes(odd: int, x: int)
    requires odd % 2 == 1
    ensures (odd * x) % 2 == x % 2
  {
    var half := odd / 2;
    assert odd == 2 * half + 1;
    assert odd * x == 2 * (half * x) + x;
  }

  // ---------- the geometric sum 1 + a + ... + a^(n-1) ----------

  function Sum(a: nat, n: nat): nat {
    if n == 0 then 0 else a * Sum(a, n - 1) + 1
  }

  /** a^m is 1 + (a-1)*Sum(a, m), so this is the sum split after m terms. */
  lemma {:induction false} SumSplit(a: nat, m: nat, n: nat)
    ensures Sum(a, m + n) == Sum(a, m) + (1 + (a - 1) * Sum(a, m)) * Sum(a, n)
  {
    if m > 0 {
      SumSplit(a, m - 1, n);
      SplitStep(a, Sum(a, m - 1), Sum(a, n));
    }
  }

  lemma SplitStep(a: int, s: int, t: int)
    ensures a * (s + (1 + (a - 1) * s) * t) + 1 == (a * s + 1) + (1 + (a - 1) * (a * s + 1)) * t
  {
    var power := 1 + (a - 1) * s;
    assert a * power == 1 + (a - 1) * (a * s + 1);
    assert a * (s + power * t) == a * s + (a * power) * t;
  }

  lemma {:induction false} SumParity(a: nat, n: nat)
    requires a % 2 == 1
    ensures Sum(a, n) % 2 == n % 2
  {
    if n > 0 {
      SumParity(a, n - 1);
      ParityStep(a, Sum(a, n - 1), n - 1);
    }
  }

  lemma ParityStep(a: int, s: int, n: int)
    requires a % 2 == 1 && s % 2 == n % 2
    ensures (a * s + 1) % 2 == (n + 1) % 2
  {
    OddTimes(a, s);
    var product := a * s;
  }

  lemma OddTerms(a: nat, k: nat, n: nat)
    requires a % 4 == 1 && k > 0 && n % 2 == 1
    ensures Sum(a, n) % Pow2(k) != 0 && n % Pow2(k) != 0
  {
    SumParity(a, n);
    OddNotMultiple(k, n);
    OddNotMultiple(k, Sum(a, n));
  }

  lemma EvenTerms(k: nat, m: nat, part: nat, sum: nat, odd: int)
    requires k > 0 && odd % 2 == 1 && sum == 2 * (odd * part)
    requires part % Pow2(k - 1) == 0 <==> m % Pow2(k - 1) == 0
    ensures sum % Pow2(k) == 0 <==> (2 * m) % Pow2(k) == 0
  {
    TwiceMultiple(k, odd * part);
    OddFactor(k - 1, odd, part);
    TwiceMultiple(k, m);
  }

  /** When a is 1 modulo 4, the sum of n terms has exactly as many factors two as n. */
  lemma {:induction false} SumDivisibility(a: nat, k: nat, n: nat)
    requires a % 4 == 1
    ensures Sum(a, n) % Pow2(k) == 0 <==> n % Pow2(k) == 0
    decreases n
  {
    if k == 0 || n == 0 {
    } else if n % 2 == 1 {
      OddTerms(a, k, n);
    } else {
      var m := n / 2;
      assert n == m + m == 2 * m;
      var odd := SumDoubles(a, m);
      SumDivisibility(a, k - 1, m);
      EvenTerms(k, m, Sum(a, m), Sum(a, n), odd);
    }
  }

  /** Doubling the number of terms doubles the sum, up to an odd factor. */
  lemma SumDoubles(a: nat, m: nat) returns (odd: int)
    requires a % 4 == 1
    ensures odd % 2 == 1 && Sum(a, m + m) == 2 * (odd * Sum(a, m))
  {
    SumSplit(a, m, m);
    odd := DoubleStep(a, Sum(a, m), Sum(a, m + m));
  }

  lemma DoubleStep(a: int, s: int, total: int) returns (odd: int)
    requires a % 4 == 1 && total == s + (1 + (a - 1) * s) * s
    ensures odd % 2 == 1 && total == 2 * (odd * s)
  {
    var half := 2 * (a / 4) * s;
    odd := 1 + half;
    assert half == 2 * ((a / 4) * s);
    assert a - 1 == 4 * (a / 4);
    assert (a - 1) * s == 2 * half;
    assert (1 + 2 * half) * s == 2 * (odd * s) - s;
  }

  // ---------- the period ----------

  function Weight(state: nat): nat {
    (MULTIPLIER - 1) * state + INCREMENT
  }

  /** n draws move the state by Sum(n) * ((a-1)*state + c), modulo 2^32. */
  lemma {:induction false} DrawClosedForm(n: nat, state: nat)
    requires state < MODULUS
    ensures Draw(n, state) == (state + Weight(state) * Sum(MULTIPLIER, n)) % MODULUS
  {
    if n > 0 {
      DrawClosedForm(n - 1, state);
      NextOfResidue(state, Weight(state), Sum(MULTIPLIER, n - 1));
    }
  }

  lemma NextOfResidue(state: nat, weight: nat, sum: nat)
    requires weight == Weight(state)
    ensures Next((state + weight * sum) % MODULUS) == (state + weight * (MULTIPLIER * sum + 1)) % MODULUS
  {
    var moved := state + weight * sum;
    var r, q := moved % MODULUS, moved / MODULUS;
    assert weight * (MULTIPLIER * sum + 1) == MULTIPLIER * (weight * sum) + weight;
    SameRemainder(moved * MULTIPLIER + INCREMENT, r * MULTIPLIER + INCREMENT, q * MULTIPLIER, MODULUS);
  }

  lemma ModulusIsPower()
    ensures Pow2(32) == MODULUS
  {
    assert Pow2(8) == 256;
    assert Pow2(16) == 65536;
    assert Pow2(24) == 16777216;
  }

  /** Full period: from any state, the draws that are back at it are exactly the multiples of 2^32. */
  lemma ReturnsExactlyAtMultiplesOfModulus(n: nat, state: nat)
    requires state < MODULUS
    ensures Draw(n, state) == state <==> n % MODULUS == 0
  {
    DrawClosedForm(n, state);
    Unmoved(state, Weight(state) * Sum(MULTIPLIER, n));
    MovesAsDraws(n, state);
  }

  /** The weight is odd, so that only the sum can make the move a multiple of 2^32. */
  lemma MovesAsDraws(n: nat, state: nat)
    ensures (Weight(state) * Sum(MULTIPLIER, n)) % MODULUS == 0 <==> n % MODULUS == 0
  {
    ModulusIsPower();
    OddFactor(32, Weight(state), Sum(MULTIPLIER, n));
    SumDivisibility(MULTIPLIER, 32, n);
  }

  lemma Unmoved(state: nat, move: int)
    requires state < MODULUS
    ensures (state + move) % MODULUS == state <==> move % MODULUS == 0
  {
    SameRemainder(state + move, state + move % MODULUS, move / MODULUS, MODULUS);
  }

  lemma NoEarlyReturn(n: nat, state: nat)
    requires state < MODULUS && 0 < n < MODULUS
    ensures Draw(n, state) != state
  {
    ReturnsExactlyAtMultiplesOfModulus(n, state);
  }

  lemma {:induction false} DrawAdds(m: nat, n: nat, state: nat)
    ensures Draw(m + n, state) == Draw(m, Draw(n, state))
  {
    if m > 0 {
      DrawAdds(m - 1, n, state);
    }
  }

  lemma DistinctWithinPeriod(i: nat, j: nat, state: nat)
    requires state < MODULUS && i < j < MODULUS
    ensures Draw(i, state) != Draw(j, state)
  {
    DrawClosedForm(i, state);
    DrawAdds(j - i, i, state);
    NoEarlyReturn(j - i, Draw(i, state));
  }

  ghost function Below(n: nat): (s: set<nat>)
    ensures forall x: nat :: x in s <==> x < n
    ensures |s| == n
  {
    if n == 0 then {} else Below(n - 1) + {n - 1}
  }

  /** The values a function takes on the arguments below n. */
  ghost function Image(f: nat -> nat, n: nat): set<nat> {
    if n == 0 then {} else Image(f, n - 1) + {f(n - 1)}
  }

  lemma {:induction false} Preimage(f: nat -> nat, n: nat, t: nat) returns (i: nat)
    requires t in Image(f, n)
    ensures i < n && f(i) == t
  {
    if f(n - 1) == t {
      i := n - 1;
    } else {
      i := Preimage(f, n - 1, t);
    }
  }

  ghost predicate OneToOne(f: nat -> nat, n: nat) {
    forall i: nat, j: nat :: i < j < n ==> f(i) != f(j)
  }

  lemma {:induction false} ImageSize(f: nat -> nat, n: nat)
    requires OneToOne(f, n)
    ensures |Image(f, n)| == n
  {
    if n > 0 {
      ImageSize(f, n - 1);
      if f(n - 1) in Image(f, n - 1) {
        var i := Preimage(f, n - 1, f(n - 1));
      }
    }
  }

  lemma {:induction false} SubsetOfSameSize(s: set<nat>, t: set<nat>)
    requires s <= t && |s| == |t|
    ensures s == t
  {
    if t - s != {} {
      var x :| x in t - s;
      SubsetSize(s, t - {x});
    }
  }

  /** A one-to-one map of the numbers below n into themselves reaches all of them. */
  lemma Onto(f: nat -> nat, n: nat, target: nat)
    requires forall i: nat :: i < n ==> f(i) < n
    requires OneToOne(f, n)
    requires target < n
    ensures exists i: nat :: i < n && f(i) == target
  {
    ImageSize(f, n);
    forall t | t in Image(f, n)
      ensures t in Below(n)
    {
      var i := Preimage(f, n, t);
    }
    SubsetOfSameSize(Image(f, n), Below(n));
    var i := Preimage(f, n, target);
  }

  /** Within one period every state is drawn, and by `DistinctWithinPeriod` only once. */
  lemma EveryStateOnce(state: nat, target: nat)
    requires state < MODULUS && target < MODULUS
    ensures exists i: nat :: i < MODULUS && Draw(i, state) == target
  {
    var f: nat -> nat := i => Draw(i, state);
    forall i: nat | i < MODULUS
      ensures f(i) < MODULUS
    {
      DrawClosedForm(i, state);
    }
    forall i: nat, j: nat | i < j < MODULUS
      ensures f(i) != f(j)
    {
      DistinctWithinPeriod(i, j, state);
    }
    Onto(f, MODULUS, target);
    var i: nat :| i < MODULUS && f(i) == target;
    assert Draw(i, state) == target;
  }

  /** A state that scales to a given offset. */
  lemma StateFor(range: nat, offset: nat) returns (target: nat)
    requires offset < range <= MODULUS
    ensures target < MODULUS && target * range / MODULUS == offset
  {
    target := (offset * MODULUS + range - 1) / range;
    var rest := (offset * MODULUS + range - 1) % range;
    assert target * range + rest == offset * MODULUS + range - 1;
    var excess := range - 1 - rest;
    assert offset * MODULUS <= (range - 1) * MODULUS;
    DivModUnique(target * range, MODULUS, offset, excess);
  }

  /** `nextInt` over a range of at most 2^32 values draws each of them within one period. */
  lemma EveryValueDrawn(state: nat, min: int, max: int, value: int)
    requires state < MODULUS && min <= value <= max && max - min < MODULUS
    ensures exists i: nat :: 0 < i <= MODULUS && Draw(i, state) < MODULUS && Scale(Draw(i, state), min, max) == value
  {
    var target := StateFor(max - min + 1, value - min);
    EveryStateOnce(state, target);
    var i: nat :| i < MODULUS && Draw(i, state) == target;
    // the present state itself comes last in the period
    ReturnsExactlyAtMultiplesOfModulus(MODULUS, state);
    var drawn := if i == 0 then MODULUS else i;
    assert Draw(drawn, state) == target;
    assert Scale(Draw(drawn, state), min, max) == value;
  }

  /** `nextInt` multiplies the drawn fraction by the number of values: the product, in units
      of 2^-32, has an exact double for every state if that number is at most 2^21, and
      outgrows the exact integers for the last state otherwise. */
  lemma ScalingIsExactUpTo(range: nat)
    ensures (forall state: nat :: state < MODULUS ==> state * range <= MAX_EXACT) <==> range <= 0x20_0000
  {
    if range <= 0x20_0000 {
      forall state: nat | state < MODULUS
        ensures state * range <= MAX_EXACT
      {
        assert state * range <= MODULUS * range by {
          AtLeastOne(range, MODULUS - state);
          assert range * (MODULUS - state) == MODULUS * range - state * range;
        }
      }
    } else {
      assert (MODULUS - 1) * range >= (MODULUS - 1) * 0x20_0001 > MAX_EXACT;
    }
  }
}
