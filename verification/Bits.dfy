/** Facts about bitwise operations on integers. */
module Bits {
  import opened Words

  lemma MulAtLeast(k: int, d: nat)
    ensures k >= 1 ==> k * d >= d
    ensures k <= -1 ==> k * d <= -(d as int)
  {
    if k >= 1 {
      assert k * d == (k - 1) * d + d && (k - 1) * d >= 0;
    } else if k <= -1 {
      assert k * d == (k + 1) * d - d && (-(k + 1)) * d >= 0;
    }
  }

  lemma DivUnique(x: nat, d: nat, q: nat, r: nat)
    requires x == q * d + r && r < d
    ensures x / d == q && x % d == r
  {
    var q', r' := x / d, x % d;
    var k := q' - q;
    assert q' * d == q * d + k * d;
    MulAtLeast(k, d);
  }

  function Quot(x: nat, p: nat): nat
    requires p > 0
  {
    x / p
  }

  function Low(x: nat, p: nat): nat
    requires p > 0
  {
    x % p
  }

  /** x with everything below p cleared. */
  function Upper(x: nat, p: nat): nat
    requires p > 0
  {
    x - x % p
  }

  lemma DivDouble(x: nat, p: nat)
    requires p > 0
    ensures Quot(x, 2 * p) == Quot(x / 2, p)
    ensures Low(x, 2 * p) == 2 * Low(x / 2, p) + x % 2
    ensures Upper(x, 2 * p) == 2 * Upper(x / 2, p)
  {
    var q, r := x / 2 / p, x / 2 % p;
    assert x / 2 == q * p + r;
    assert q * (2 * p) == 2 * (q * p);
    DivUnique(x, 2 * p, q, 2 * r + x % 2);
  }

  lemma Halve(x: nat, k: nat)
    requires k > 0
    ensures Quot(x, Pow2(k)) == Quot(x / 2, Pow2(k - 1))
    ensures Low(x, Pow2(k)) == 2 * Low(x / 2, Pow2(k - 1)) + x % 2
    ensures Upper(x, Pow2(k)) == 2 * Upper(x / 2, Pow2(k - 1))
  {
    DivDouble(x, Pow2(k - 1));
  }

  lemma LowOfOne(x: nat)
    ensures Upper(x, Pow2(0)) == x && Low(x, Pow2(0)) == 0 && Quot(x, Pow2(0)) == x
  {
  }

  lemma BitwiseCons(op: BitOp, a: nat, b: nat, c: nat, d: nat, n: nat)
    requires a == 2 * c + a % 2 && b == 2 * d + b % 2 && n > 0
    ensures Bitwise(op, a, b, n) == 2 * Bitwise(op, c, d, n - 1) + (if Bit(op, a % 2 == 1, b % 2 == 1) then 1 else 0)
  {
    assert a / 2 == c && b / 2 == d;
  }

  lemma NoBits(op: BitOp, a: nat, b: nat)
    ensures Bitwise(op, a, b, 0) == 0
  {
  }

  function Less1(k: nat): nat { if k > 0 then k - 1 else 0 }

  lemma UpperCons(x: nat, k: nat)
    ensures Upper(x, Pow2(k)) == 2 * Upper(x / 2, Pow2(Less1(k))) + (if k > 0 then 0 else x % 2)
  {
    if k > 0 {
      Halve(x, k);
    } else {
      LowOfOne(x);
      LowOfOne(x / 2);
    }
  }

  lemma LowCons(x: nat, m: nat)
    ensures Low(x, Pow2(m)) == 2 * Low(x / 2, Pow2(Less1(m))) + (if m > 0 then x % 2 else 0)
  {
    if m > 0 {
      Halve(x, m);
    } else {
      LowOfOne(x);
      LowOfOne(x / 2);
    }
  }

  /** The lowest bit of a disjunction, put in front of the others. */
  lemma OrCons(a: nat, b: nat, c: nat, d: nat, p: nat, q: nat, n: nat)
    requires a == 2 * c + p && b == 2 * d + q && p < 2 && q < 2 && n > 0
    ensures Bitwise(Or, a, b, n) == 2 * Bitwise(Or, c, d, n - 1) + (if p == 1 || q == 1 then 1 else 0)
  {
    assert a % 2 == p && b % 2 == q;
    BitwiseCons(Or, a, b, c, d, n);
    hide Bitwise;
  }

  /** x with its low k bits cleared, or-ed with its low m >= k bits, is x again. */
  lemma {:induction false} OrOverlap(x: nat, k: nat, m: nat, n: nat)
    requires k <= m
    ensures Bitwise(Or, Upper(x, Pow2(k)), Low(x, Pow2(m)), n) == Low(x, Pow2(n))
  {
    LowOfOne(x);
    hide Upper, Low, Quot, Pow2, Bitwise;
    var a, b := Upper(x, Pow2(k)), Low(x, Pow2(m));
    if n == 0 {
      NoBits(Or, a, b);
    } else {
      var p, q := if k > 0 then 0 else x % 2, if m > 0 then x % 2 else 0;
      UpperCons(x, k);
      LowCons(x, m);
      LowCons(x, n);
      OrCons(a, b, Upper(x / 2, Pow2(Less1(k))), Low(x / 2, Pow2(Less1(m))), p, q, n);
      OrOverlap(x / 2, Less1(k), Less1(m), n - 1);
    }
  }

  /** The low n bits and the m bits above them are computed separately. */
  lemma {:induction false} BitwiseSplit(op: BitOp, a: nat, b: nat, n: nat, m: nat)
    ensures Quot(Bitwise(op, a, b, n + m), Pow2(n)) == Bitwise(op, Quot(a, Pow2(n)), Quot(b, Pow2(n)), m)
    ensures Low(Bitwise(op, a, b, n + m), Pow2(n)) == Bitwise(op, a, b, n)
  {
    var r := Bitwise(op, a, b, n + m);
    LowOfOne(a);
    LowOfOne(b);
    LowOfOne(r);
    hide Quot, Low, Upper, Pow2;
    hide Bitwise;
    if n > 0 {
      Halve(a, n);
      Halve(b, n);
      Halve(r, n);
      BitwiseCons(op, a, b, a / 2, b / 2, n + m);
      BitwiseCons(op, a, b, a / 2, b / 2, n);
      assert r / 2 == Bitwise(op, a / 2, b / 2, n - 1 + m);
      BitwiseSplit(op, a / 2, b / 2, n - 1, m);
    } else {
      NoBits(op, a, b);
    }
  }

  lemma {:induction false} BitwiseLow(op: BitOp, a: nat, b: nat, n: nat)
    ensures Bitwise(op, a, b, n) == Bitwise(op, a, Low(b, Pow2(n)), n)
  {
    hide Low, Pow2;
    if n > 0 {
      Halve(b, n);
      BitwiseLow(op, a / 2, b / 2, n - 1);
    }
  }

  lemma {:induction false} OrOnes(a: nat, n: nat)
    ensures Bitwise(Or, a, Pow2(n) - 1, n) == Pow2(n) - 1
  {
    if n > 0 {
      assert (Pow2(n) - 1) / 2 == Pow2(n - 1) - 1 && (Pow2(n) - 1) % 2 == 1;
      OrOnes(a / 2, n - 1);
    }
  }

  lemma Pow2Values()
    ensures Pow2(11) == 0x800 && Pow2(16) == 0x1_0000 && Pow2(32) == 0x1_0000_0000
  {
    assert Pow2(8) == 256;
    Pow2Of32();
  }

  /** MOVHI and ORI of the parts of x, where ORI's operand is sign extended: right when bit 15 is clear,
      and otherwise the upper half becomes all ones. */
  lemma UpperThenLower(x: Word)
    ensures x % 0x1_0000 < 0x8000 ==> WordBitwise(Or, Upper(x, 0x800), x % 0x1_0000) == x
    ensures x % 0x1_0000 >= 0x8000 ==>
              WordBitwise(Or, Upper(x, 0x800), 0xFFFF_0000 + x % 0x1_0000) == 0xFFFF_0000 + x % 0x1_0000
  {
    hide Bitwise;
    Pow2Values();
    OrOverlap(x, 11, 16, 32);
    var u, t := Upper(x, 0x800), 0xFFFF_0000 + x % 0x1_0000;
    BitwiseSplit(Or, u, t, 16, 16);
    OrOnes(Quot(u, 0x1_0000), 16);
    BitwiseLow(Or, u, t, 16);
    OrOverlap(x, 11, 16, 16);
  }
}
