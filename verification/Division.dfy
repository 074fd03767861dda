/** The 128-bit division helpers of Compiler.c: shift the divisor up, then subtract it on the way down. */
module Division {
  import opened Prelude

  const WORD := 0x1_0000_0000_0000_0000_0000_0000_0000_0000

  /** A 128-bit left shift by one drops the top bit. */
  function Doubled(x: nat): nat { x * 2 % WORD }

  /** Or-ing in one bit. */
  function SetBit(q: nat, bit: nat): nat
    requires bit > 0
  {
    if q / bit % 2 == 1 then q else q + bit
  }

  /** The shifted divisor and its bit: `divisor` times a power of two that stays in the word and, once shifted, does not
      pass the dividend. */
  ghost predicate Raised(dividend: nat, divisor: nat, d: nat, bit: nat) {
    bit > 0 && d == divisor * bit && d < WORD && bit < WORD && PowerOfTwo(bit) && (bit == 1 || d <= dividend)
  }

  lemma {:induction false} RaiseStep(dividend: nat, divisor: nat, d: nat, bit: nat)
    requires 0 < divisor < WORD && Raised(dividend, divisor, d, bit)
    ensures Doubled(d) > d <==> 2 * d < WORD
    ensures Doubled(d) > d ==> Doubled(d) == 2 * d && Doubled(bit) == 2 * bit
    ensures Doubled(d) > d && 2 * d <= dividend ==> Raised(dividend, divisor, 2 * d, 2 * bit)
  {
    MulAtLeast(divisor, bit);
    assert divisor * (2 * bit) == 2 * (divisor * bit);
  }

  lemma {:induction false} MulAtLeast(a: nat, b: nat)
    requires a > 0
    ensures a * b >= b && b * a >= b
  {
  }

  /** Both results so far: the subtracted multiple, and a remainder below twice the shifted divisor. */
  ghost predicate Lowering(dividend: nat, divisor: nat, d: nat, bit: nat, rest: nat, quotient: nat) {
    && dividend == quotient * divisor + rest
    && if bit == 0 then rest < divisor
       else d == divisor * bit && rest < 2 * d && PowerOfTwo(bit) && quotient % (2 * bit) == 0
  }

  lemma {:induction false} LowerStep(dividend: nat, divisor: nat, d: nat, bit: nat, rest: nat, quotient: nat)
    requires bit > 0 && divisor > 0 && Lowering(dividend, divisor, d, bit, rest, quotient)
    ensures var rest' := if rest >= d then rest - d else rest;
            var quotient' := if rest >= d then SetBit(quotient, bit) else quotient;
            Lowering(dividend, divisor, d / 2, bit / 2, rest', quotient')
  {
    var k := quotient / (2 * bit);
    assert quotient == k * (2 * bit) by { assert quotient == quotient / (2 * bit) * (2 * bit) + quotient % (2 * bit); }
    Halve(k, bit);
    var q := if rest >= d then quotient + bit else quotient;
    Distribute(quotient, bit, divisor);
    if bit > 1 {
      HalfProduct(divisor, bit);
      Multiple(if rest >= d then 2 * k + 1 else 2 * k, bit);
    }
  }

  lemma {:induction false} Distribute(q: nat, bit: nat, divisor: nat)
    ensures (q + bit) * divisor == q * divisor + divisor * bit
  {
  }

  /** A multiple of twice the bit has the bit clear. */
  lemma {:induction false} Halve(k: nat, bit: nat)
    requires bit > 0
    ensures k * (2 * bit) == (2 * k) * bit && k * (2 * bit) / bit % 2 == 0
    ensures k * (2 * bit) + bit == (2 * k + 1) * bit
  {
    assert k * (2 * bit) == (2 * k) * bit;
    DivIs(k * (2 * bit), 2 * k, 0, bit);
  }

  lemma {:induction false} HalfProduct(divisor: nat, bit: nat)
    requires bit % 2 == 0
    ensures divisor * bit / 2 == divisor * (bit / 2) && divisor * bit == 2 * (divisor * (bit / 2))
  {
    var h := bit / 2;
    assert bit == 2 * h;
    assert divisor * (2 * h) == 2 * (divisor * h);
  }

  lemma {:induction false} Multiple(k: nat, bit: nat)
    requires bit > 1 && bit % 2 == 0
    ensures (k * bit) % (2 * (bit / 2)) == 0
  {
    assert 2 * (bit / 2) == bit;
    DivIs(k * bit, k, 0, bit);
    assert k * bit == k * bit / bit * bit + k * bit % bit;
  }

  /** The quotient and remainder are the only ones. */
  lemma {:induction false} Unique(dividend: nat, divisor: nat, q: nat, r: nat)
    requires divisor > 0 && r < divisor && dividend == q * divisor + r
    ensures q == dividend / divisor && r == dividend % divisor
  {
    DivIs(dividend, q, r, divisor);
    assert dividend == dividend / divisor * divisor + dividend % divisor;
  }

  /** The first loop of both helpers. */
  method Raise(dividend: nat, divisor: nat) returns (d: nat, bit: nat)
    requires 0 < divisor < WORD && dividend < WORD
    ensures Raised(dividend, divisor, d, bit) && dividend < 2 * d
  {
    d, bit := divisor, 1;
    while Doubled(d) > d && Doubled(d) <= dividend
      invariant Raised(dividend, divisor, d, bit)
      decreases WORD - d
    {
      RaiseStep(dividend, divisor, d, bit);
      d := Doubled(d);
      bit := Doubled(bit);
    }
    RaiseStep(dividend, divisor, d, bit);
  }

  /** Both helpers at once: the second loop, which __umodti3 runs without the quotient. */
  method Divide(dividend: nat, divisor: nat) returns (quotient: nat, remainder: nat)
    requires divisor < WORD && dividend < WORD
    ensures if divisor == 0 then quotient == 0 && remainder == 0
            else quotient == dividend / divisor && remainder == dividend % divisor
  {
    if divisor == 0 { return 0, 0; }
    var d, bit := Raise(dividend, divisor);
    quotient, remainder := 0, dividend;
    while bit != 0
      invariant Lowering(dividend, divisor, d, bit, remainder, quotient)
      decreases bit
    {
      LowerStep(dividend, divisor, d, bit, remainder, quotient);
      if remainder >= d {
        remainder := remainder - d;
        quotient := SetBit(quotient, bit);
      }
      d, bit := d / 2, bit / 2;
    }
    Unique(dividend, divisor, quotient, remainder);
  }
}
