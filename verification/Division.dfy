/** Division as the source computes it, through floating point: `int(sa / sb)`. */
module Division {
  import opened Words
  import opened Isa
  import Alu

  const TWO31 := 0x8000_0000
  const TWO53 := 0x20_0000_0000_0000

  /** Rounding to binary64 as IEEE 754-2008, section 4.3.1, has it, as far as quotients of 32-bit integers need:
      integers of up to 53 bits are exact, and between 2^-31 and 2^31 in magnitude, far from underflow and
      overflow, the relative error is at most 2^-53. */
  ghost predicate Rounds(rnd: real -> real) {
    && (forall n: int :: -TWO53 <= n <= TWO53 ==> Exact(rnd, n))
    && forall x: real :: InRange(x) ==> Close(rnd(x), x)
  }

  predicate Exact(rnd: real -> real, n: int) { rnd(n as real) == n as real }

  function Size(x: real): real { if x >= 0.0 then x else -x }

  /** 2^-31 <= |x| <= 2^31 */
  predicate InRange(x: real) { Size(x) * TWO31 as real >= 1.0 && Size(x) <= TWO31 as real }

  /** |y - x| <= 2^-53 |x| */
  predicate Close(y: real, x: real) { -Size(x) <= (y - x) * TWO53 as real <= Size(x) }

  /** Python's int(): truncation toward zero. */
  function Truncate(x: real): int { if x >= 0.0 then x.Floor else -((-x).Floor) }

  /** The exact quotient of two integers. */
  function Ratio(a: int, b: int): real
    requires b != 0
  {
    a as real / b as real
  }

  lemma QuotientRemainder(a: nat, b: nat)
    requires b > 0
    ensures a == a / b * b + a % b && 0 <= a % b < b
  {
  }

  // ---- Products of reals

  function Times(x: real, c: real): real { x * c }

  lemma Monotone(x: real, y: real, c: real)
    requires c > 0.0
    ensures x <= y <==> Times(x, c) <= Times(y, c)
  {
    if x <= y { assert (y - x) * c >= 0.0; } else { assert (x - y) * c > 0.0; }
  }

  lemma Linear(x: real, y: real, k: real, c: real)
    ensures Times(x - y, c) == Times(x, c) - Times(y, c) && Times(x * k, c) == Times(x, c) * k
  {
  }

  lemma RatioTimes(a: int, b: int)
    requires b != 0
    ensures Times(Ratio(a, b), b as real) == a as real
  {
  }

  lemma TimesWhole(q: int, b: int)
    ensures Times(q as real, b as real) == (q * b) as real
  {
  }

  // ---- Rounding a quotient

  /** If x times b is q times b with a remainder from 1 to b - 1, rounding does not take x out of (q, q + 1). */
  lemma StaysBetween(q: real, r: real, b: real, x: real, y: real)
    requires b > 0.0 && x >= 0.0 && Times(x, b) == Times(q, b) + r && 1.0 <= r <= b - 1.0
    requires Times(x, b) < TWO53 as real && Close(y, x)
    ensures q < y < q + 1.0
  {
    hide Times;
    var d := TWO53 as real;
    Monotone((x - y) * d, x, b);
    Monotone((y - x) * d, x, b);
    Linear(x - y, 0.0, d, b);
    Linear(y - x, 0.0, d, b);
    Linear(x, y, 1.0, b);
    Linear(y, x, 1.0, b);
    Linear(q + 1.0, 1.0, 1.0, b);
    assert Times(1.0, b) == b by { TimesOne(b); }
    Monotone(y, q, b);
    Monotone(q + 1.0, y, b);
  }

  lemma TimesOne(c: real)
    ensures Times(1.0, c) == c
  {
  }

  /** The ratio of positive integers up to 2^31 is in range. */
  lemma RatioInRange(a: nat, b: nat)
    requires 0 < a <= TWO31 && 0 < b <= TWO31
    ensures Ratio(a, b) > 0.0 && InRange(Ratio(a, b)) && InRange(-Ratio(a, b))
  {
    RatioTimes(a, b);
    var x := Ratio(a, b);
    hide Times, Ratio;
    Monotone(x, 0.0, b as real);
    TimesZero(b as real);
    BoundedFactor(x, b as real, TWO31 as real);
    BoundedFactor(x, 1.0, b as real);
    TimesOneRight(x);
  }

  lemma TimesZero(c: real)
    ensures Times(0.0, c) == 0.0
  {
  }

  lemma TimesOneRight(x: real)
    ensures Times(x, 1.0) == x && Times(x, TWO31 as real) == x * TWO31 as real
  {
  }

  lemma BoundedFactor(x: real, c: real, d: real)
    requires x > 0.0 && c <= d
    ensures Times(x, c) <= Times(x, d)
  {
    assert x * (d - c) >= 0.0;
  }

  /** A ratio that is not whole keeps its integer part in rounding. */
  lemma RoundedBetween(rnd: real -> real, a: nat, b: nat, q: nat, r: nat)
    requires Rounds(rnd) && 0 < b <= TWO31 && a <= TWO31 && a == q * b + r && 0 < r < b
    ensures q as real < rnd(Ratio(a, b)) < q as real + 1.0
    ensures q as real < -rnd(-Ratio(a, b)) < q as real + 1.0
  {
    var x := Ratio(a, b);
    RatioTimes(a, b);
    TimesWhole(q, b);
    assert a > 0 by { QuotientSmall(q, b); }
    RatioInRange(a, b);
    hide Ratio, Times;
    assert Close(rnd(x), x) && Close(rnd(-x), -x);
    StaysBetween(q as real, r as real, b as real, x, rnd(x));
    StaysBetween(q as real, r as real, b as real, x, -rnd(-x));
  }

  lemma QuotientSmall(q: nat, b: nat)
    requires b > 0
    ensures q * b >= q
  {
    assert q * b == q + q * (b - 1);
  }

  lemma RatioWhole(q: int, b: nat)
    requires b > 0
    ensures Ratio(q * b, b) == q as real
  {
    TimesWhole(q, b);
  }

  lemma TruncateBetween(y: real, q: nat)
    requires q as real <= y < q as real + 1.0
    ensures Truncate(y) == q && Truncate(-y) == -(q as int)
  {
  }

  /** Rounding keeps the integer part of a quotient, on both sides of zero. */
  lemma RoundedTruncates(rnd: real -> real, a: nat, b: nat, q: nat, r: nat)
    requires Rounds(rnd) && 0 < b <= TWO31 && a <= TWO31 && a == q * b + r && r < b
    ensures Truncate(rnd(Ratio(a, b))) == q && Truncate(rnd(-Ratio(a, b))) == -(q as int)
  {
    hide Ratio, Truncate, Close, InRange;
    if r == 0 {
      QuotientSmall(q, b);
      RatioWhole(q, b);
      WholeStays(rnd, q);
      TruncateBetween(q as real, q);
    } else {
      RoundedBetween(rnd, a, b, q, r);
      TruncateBetween(rnd(Ratio(a, b)), q);
      TruncateBetween(-rnd(-Ratio(a, b)), q);
    }
  }

  lemma WholeStays(rnd: real -> real, q: nat)
    requires Rounds(rnd) && q <= TWO53
    ensures rnd(q as real) == q as real && rnd(-(q as real)) == -(q as real)
  {
    assert Exact(rnd, q) && Exact(rnd, -(q as int));
  }

  /** int(sa / sb) is the truncating quotient, for all signed 32-bit operands. */
  lemma FloatDivisionExact(rnd: real -> real, a: Word, b: Word)
    requires Rounds(rnd) && b != 0
    ensures Truncate(rnd(Ratio(ToSigned(a), ToSigned(b)))) == Alu.TruncDiv(ToSigned(a), ToSigned(b))
  {
    hide *;
    var sa, sb := ToSigned(a), ToSigned(b);
    SignedSize(a);
    SignedSize(b);
    var m, n := Alu.Abs(sa), Alu.Abs(sb);
    var q, r := Divide(m, n);
    RoundedTruncates(rnd, m, n, q, r);
    RatioSigns(sa, sb);
    TruncDivBySize(sa, sb);
  }

  lemma SignedSize(a: Word)
    ensures Alu.Abs(ToSigned(a)) <= TWO31 && (ToSigned(a) == 0 <==> a == 0) && (Alu.Abs(ToSigned(a)) == 0 <==> a == 0)
  {
  }

  lemma Divide(a: nat, b: nat) returns (q: nat, r: nat)
    requires b > 0
    ensures q == a / b && a == q * b + r && r < b
  {
    q, r := a / b, a % b;
  }

  lemma TruncDivBySize(a: int, b: int)
    requires b != 0 && Alu.Abs(b) > 0
    ensures Alu.TruncDiv(a, b)
         == if (a < 0) == (b < 0) then Alu.Abs(a) / Alu.Abs(b) else -(Alu.Abs(a) / Alu.Abs(b))
  {
  }

  lemma RatioSigns(a: int, b: int)
    requires b != 0
    ensures Ratio(a, b) == if (a < 0) == (b < 0) then Ratio(Alu.Abs(a), Alu.Abs(b)) else -Ratio(Alu.Abs(a), Alu.Abs(b))
  {
  }

  /** DIV as the source computes it. */
  function FloatDiv(rnd: real -> real, a: Word, b: Word): Word {
    if b == 0 then 0xFFFF_FFFF else Wrap(Truncate(rnd(Ratio(ToSigned(a), ToSigned(b)))))
  }

  /** REM as the source computes it. */
  function FloatRem(rnd: real -> real, a: Word, b: Word): Word {
    if b == 0 then a else Wrap(ToSigned(a) - Truncate(rnd(Ratio(ToSigned(a), ToSigned(b)))) * ToSigned(b))
  }

  /** So the unit's DIV and REM are exact integer operations. */
  lemma FloatUnitIsExact(rnd: real -> real, a: Word, b: Word)
    requires Rounds(rnd)
    ensures FloatDiv(rnd, a, b) == Alu.Execute(DIV, a, b) && FloatRem(rnd, a, b) == Alu.Execute(REM, a, b)
  {
    if b != 0 { FloatDivisionExact(rnd, a, b); }
    hide ToSigned, Alu.TruncDiv, Truncate, Ratio, WordBitwise, Pow2;
  }

  /** DIV and REM satisfy a = (a / b) * b + a % b modulo 2^32 (section 6.5.5 of ISO/IEC 9899:1999), the pair
      -2^31 and -1 included, and a zero divisor too. */
  lemma DivRemIdentity(a: Word, b: Word)
    ensures Wrap(Alu.Execute(DIV, a, b) * b + Alu.Execute(REM, a, b)) == a
    ensures b != 0 ==> Alu.Abs(ToSigned(a) - Alu.TruncDiv(ToSigned(a),
            ToSigned(b)) * ToSigned(b)) < Alu.Abs(ToSigned(b))
  {
    if b != 0 {
      var sa, sb := ToSigned(a), ToSigned(b);
      var q := Alu.TruncDiv(sa, sb);
      TruncatedRemainder(sa, sb);
      var d, r := Alu.Execute(DIV, a, b), Alu.Execute(REM, a, b);
      assert d == Wrap(q) && r == Wrap(sa - q * sb) by { hide ToSigned, Alu.TruncDiv, WordBitwise, Pow2; }
      Congruent(q, sb, b, sa, a);
    }
  }

  lemma TruncatedRemainder(a: int, b: int)
    requires b != 0
    ensures Alu.Abs(a - Alu.TruncDiv(a, b) * b) < Alu.Abs(b)
  {
    var m, n := Alu.Abs(a), Alu.Abs(b);
    QuotientRemainder(m, n);
    var q := m / n;
    if (a < 0) == (b < 0) {
      assert a - q * b == if a < 0 then -(m - q * n) else m - q * n;
    } else {
      assert a - -q * b == if a < 0 then -(m - q * n) else m - q * n;
    }
  }

  /** Words stand for their signed readings modulo 2^32. */
  lemma Congruent(q: int, sb: int, b: Word, sa: int, a: Word)
    requires sb == ToSigned(b) && sa == ToSigned(a)
    ensures Wrap(Wrap(q) * b + Wrap(sa - q * sb)) == a
  {
    var M := 0x1_0000_0000;
    var i, j := if b == sb then 0 else 1, if a == sa then 0 else 1;
    var wq, wr, k, l := Wrap(q), Wrap(sa - q * sb), q / M, (sa - q * sb) / M;
    assert b == sb + i * M && a == sa + j * M && q == wq + k * M && sa - q * sb == wr + l * M;
    hide ToSigned, Wrap;
    Combine(q, sb, i, k, l, j, sa, wq, wr, M);
    Shift(a, q * i - k * b - l - j);
  }

  lemma Combine(q: int, sb: int, i: int, k: int, l: int, j: int, sa: int, wq: int, wr: int, M: int)
    requires q == wq + k * M && sa - q * sb == wr + l * M
    ensures wq * (sb + i * M) + wr == sa + j * M + (q * i - k * (sb + i * M) - l - j) * M
  {
    var b := sb + i * M;
    assert wq * b == q * b - k * M * b;
    assert q * b == q * sb + q * i * M;
    assert k * M * b == k * b * M;
    assert (q * i - k * b - l - j) * M == q * i * M - k * b * M - l * M - j * M;
  }

  lemma Shift(a: Word, t: int)
    ensures Wrap(a + t * 0x1_0000_0000) == a
  {
  }
}
