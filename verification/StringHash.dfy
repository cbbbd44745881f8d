/**
 The 32-bit string hash that the random generator uses for its seed
 (src/runtime/vm_context.js) and the sharding manager for transaction ids
 (src/runtime/sharding.js).  Both loops are the same code.

 A string is the sequence of its UTF-16 code units, which is what `charCodeAt` reads.
 */
module StringHash {
  import opened Arithmetic

  const TWO_31: int := 0x8000_0000
  const TWO_32: int := 0x1_0000_0000

  type CodeUnit = u: nat | u < 0x1_0000

  /** The signed 32-bit value that JavaScript's bitwise operators reduce an integer to. */
  function ToInt32(x: int): (r: int)
    ensures -TWO_31 <= r < TWO_31
  {
    (x + TWO_31) % TWO_32 - TWO_31
  }

  function Abs(x: int): nat {
    if x < 0 then -x else x
  }

  /** The text read as a base-31 numeral, with no wrap-around. */
  function Polynomial(text: seq<CodeUnit>): nat {
    if text == [] then 0 else 31 * Polynomial(text[..|text| - 1]) + text[|text| - 1]
  }

  function Power31(n: nat): nat {
    if n == 0 then 1 else 31 * Power31(n - 1)
  }

  /** The first of n + 1 units has the weight 31 to the n. */
  lemma {:induction false} PolynomialExactly(unit: CodeUnit, text: seq<CodeUnit>)
    ensures Polynomial([unit] + text) == unit * Power31(|text|) + Polynomial(text)
    ensures Polynomial([]) == 0
  {
    if text == [] {
      assert [unit] + text == [unit] && [unit][..0] == [];
    } else {
      var init, last := text[..|text| - 1], text[|text| - 1];
      assert ([unit] + text)[..|text|] == [unit] + init;
      PolynomialExactly(unit, init);
      assert 31 * (unit * Power31(|init|)) == unit * Power31(|text|);
    }
  }

  /** One signed 32-bit integer per residue class. */
  lemma ToInt32Same(x: int, y: int, q: int)
    requires x == y + TWO_32 * q
    ensures ToInt32(x) == ToInt32(y)
  {
    SameRemainder(x + TWO_31, y + TWO_31, q, TWO_32);
  }

  lemma ToInt32Offset(x: int) returns (q: int)
    ensures ToInt32(x) == x + TWO_32 * q
  {
    q := -((x + TWO_31) / TWO_32);
  }

  /** Wrapping after the shift and again after the addition loses nothing: a step of the
      loop, on an already wrapped hash, is the wrap of the unbounded step. */
  lemma WrappedStep(h: int, unit: CodeUnit)
    ensures ToInt32(ToInt32(ToInt32(h) * 32) - ToInt32(h) + unit) == ToInt32(31 * h + unit)
  {
    var a := ToInt32Offset(h);
    var b := ToInt32Offset(ToInt32(h) * 32);
    ToInt32Same(ToInt32(ToInt32(h) * 32) - ToInt32(h) + unit, 31 * h + unit, b + 31 * a);
  }

  /** `_hashSeed` and `_hash_transaction_id`: the loop wraps at every step, yet computes
      the absolute value of the wrapped polynomial. */
  method Hash(text: seq<CodeUnit>) returns (result: nat)
    ensures result == Abs(ToInt32(Polynomial(text)))
    ensures result == ToInt32(Polynomial(text)) || result == -ToInt32(Polynomial(text))
    ensures result <= TWO_31
  {
    var hash := 0;
    for i := 0 to |text|
      invariant hash == ToInt32(Polynomial(text[..i]))
    {
      assert text[..i + 1][..i] == text[..i];
      WrappedStep(Polynomial(text[..i]), text[i]);
      hash := ToInt32(ToInt32(hash * 32) - hash + text[i]);
    }
    assert text[..|text|] == text;
    result := Abs(hash);
  }
}
