/**
  The 64-bit signed division and remainder runtime (_alldiv, _allrem), built
  from 32-bit multiply and divide instructions.  Register pairs hold 64-bit
  words; every instruction is modelled with its 32-bit wrap-around.
  */
module Division {
  const B := 0x1_0000_0000
  const BB := 0x1_0000_0000_0000_0000
  const HALF := 0x8000_0000_0000_0000

  type word = x: int | 0 <= x < 0x1_0000_0000

  /** The 64-bit word in a pair of registers. */
  function Pair(hi: word, lo: word): nat {
    hi * B + lo
  }

  /** The signed value of a 64-bit word. */
  function Signed(w: nat): int
    requires w < BB
  {
    if w < HALF then w else w - BB
  }

  function Abs(x: int): nat {
    if x < 0 then -x else x
  }

  /** Quotient rounded toward zero, and the remainder that goes with it. */
  function TruncDiv(n: int, d: int): int
    requires d != 0
  {
    if (n < 0) == (d < 0) then Abs(n) / Abs(d) else -(Abs(n) / Abs(d))
  }

  function TruncRem(n: int, d: int): int
    requires d != 0
  {
    if n < 0 then -(Abs(n) % Abs(d)) else Abs(n) % Abs(d)
  }

  // ---- multiplication facts

  lemma {:induction false} MulMono(k: nat, a: nat, b: nat)
    requires a <= b
    ensures k * a <= k * b
  {
    if a < b {
      MulMono(k, a, b - 1);
      assert k * b == k * (b - 1) + k;
    }
  }

  lemma QuotientIs(n: nat, d: nat, a: nat)
    requires d > 0 && d * a <= n < d * a + d
    ensures n / d == a && n % d == n - d * a
  {
    var x := n / d;
    assert n == d * x + n % d;
    assert d * (x + 1) == d * x + d && d * (a + 1) == d * a + d;
    if x < a {
      MulMono(d, x + 1, a);
    } else if a < x {
      MulMono(d, a + 1, x);
    }
  }

  /** Truncating division: the product and the remainder make up the dividend, which gives the remainder its sign. */
  lemma TruncDivRem(n: int, d: int)
    requires d != 0
    ensures n == d * TruncDiv(n, d) + TruncRem(n, d)
    ensures Abs(TruncRem(n, d)) < Abs(d)
    ensures n >= 0 ==> TruncRem(n, d) >= 0
    ensures n <= 0 ==> TruncRem(n, d) <= 0
  {
    var q, r := Abs(n) / Abs(d), Abs(n) % Abs(d);
    assert Abs(n) == Abs(d) * q + r;
    ProductSigns(d, q);
  }

  lemma ProductSigns(d: int, q: int)
    ensures d * q == (if d < 0 then -(Abs(d) * q) else Abs(d) * q) && d * -q == -(d * q)
  {
  }

  // ---- instructions

  /** neg hi; neg lo; sbb hi, 0. */
  method NegPair(hi: word, lo: word) returns (h: word, l: word)
    ensures Pair(h, l) == (BB - Pair(hi, lo)) % BB
  {
    h := (B - hi) % B;
    l := (B - lo) % B;
    var borrow := if lo != 0 then 1 else 0;
    h := (h - borrow) % B;
  }

  /** mul: the whole product in two registers. */
  method Mul32(a: word, b: word) returns (hi: word, lo: word)
    ensures Pair(hi, lo) == a * b
  {
    MulMono(a, b, B - 1);
    MulMono(B - 1, a, B - 1);
    assert a * b <= (B - 1) * (B - 1);
    hi := a * b / B;
    lo := a * b % B;
  }

  /** div: a 64-bit dividend by a 32-bit divisor; the quotient must fit, or the instruction traps. */
  method Div32(hi: word, lo: word, d: word) returns (q: word, r: word)
    requires hi < d
    ensures Pair(hi, lo) == d * q + r && r < d
  {
    var n := Pair(hi, lo);
    MulMono(B, hi + 1, d);
    assert n < d * B;
    var x := n / d;
    assert n == d * x + n % d;
    if x >= B {
      MulMono(d, B, x);
      assert false;
    }
    q, r := x, n % d;
  }

  /** shr hi, 1; rcr lo, 1. */
  method ShiftPair(hi: word, lo: word) returns (h: word, l: word)
    ensures Pair(h, l) == Pair(hi, lo) / 2 && h == hi / 2
  {
    h := hi / 2;
    l := hi % 2 * 0x8000_0000 + lo / 2;
  }

  // ---- the estimate

  /** x is n shifted right by the shift that multiplies by p. */
  ghost predicate Shifted(n: nat, x: nat, p: nat) {
    p > 0 && x * p <= n < x * p + p
  }

  lemma ShiftOnce(n: nat, x: nat, p: nat)
    requires Shifted(n, x, p)
    ensures Shifted(n, x / 2, 2 * p)
  {
    var h, b := x / 2, x % 2;
    assert x == 2 * h + b;
    assert x * p == h * (2 * p) + b * p;
    assert b == 0 || b == 1;
  }

  lemma Swap(a: nat, b: nat, c: nat)
    ensures a * (b * c) == b * (a * c)
  {
  }

  /** n < (n1 + 1) p <= d1 (q + 1) p <= d (q + 1) */
  lemma EstimateNotLow(n: nat, d: nat, n1: nat, d1: nat, p: nat, q: nat)
    requires n < p * (n1 + 1) && d1 * p <= d && n1 + 1 <= d1 * (q + 1)
    ensures n < d * (q + 1)
  {
    MulMono(p, n1 + 1, d1 * (q + 1));
    Swap(p, d1, q + 1);
    Swap(q + 1, d1, p);
    MulMono(q + 1, d1 * p, d);
  }

  /** d (q - 1) <= (d1 + 1) p (q - 1) <= n1 p <= n, where m is q - 1 */
  lemma EstimateNotHigh(n: nat, d: nat, n1: nat, d1: nat, p: nat, m: nat)
    requires n1 * p <= n && d <= (d1 + 1) * p && (d1 + 1) * m <= n1
    ensures d * m <= n
  {
    MulMono(m, d, (d1 + 1) * p);
    Swap(m, d1 + 1, p);
    Swap(p, d1 + 1, m);
    MulMono(p, (d1 + 1) * m, n1);
  }

  /**
    Dividing the shifted dividend by the shifted divisor gives the true quotient
    or one more, when the result does not exceed the shifted divisor by more than one.
    */
  lemma EstimateBounds(n: nat, d: nat, n1: nat, d1: nat, p: nat, q: nat)
    requires Shifted(n, n1, p) && Shifted(d, d1, p) && d1 > 0
    requires d1 * q <= n1 < d1 * q + d1 && q <= d1 + 1
    ensures n < d * q + d
    ensures q > 0 ==> d * (q - 1) <= n
  {
    assert p * (n1 + 1) == n1 * p + p && d1 * (q + 1) == d1 * q + d1 && d * (q + 1) == d * q + d;
    EstimateNotLow(n, d, n1, d1, p, q);
    if q > 0 {
      assert (d1 + 1) * p == d1 * p + p;
      assert (d1 + 1) * (q - 1) == d1 * q + q - d1 - 1;
      EstimateNotHigh(n, d, n1, d1, p, q - 1);
    }
  }

  /** The true quotient is the estimate, unless the estimate's product is too large: then it is one less. */
  lemma EstimateCorrected(n: nat, d: nat, q: nat)
    requires d > 0 && n < d * q + d && (q > 0 ==> d * (q - 1) <= n)
    ensures d * q <= n ==> n / d == q && n % d == n - d * q
    ensures d * q > n ==> q > 0 && n / d == q - 1 && n % d == n - (d * q - d)
  {
    if d * q <= n {
      QuotientIs(n, d, q);
    } else {
      assert d * (q - 1) == d * q - d;
      QuotientIs(n, d, q - 1);
    }
  }

  // ---- sign handling

  /** A 64-bit word made nonnegative; neg counts one if it was negative. */
  method Magnitude(hi: word, lo: word) returns (h: word, l: word, neg: nat)
    ensures Pair(h, l) == Abs(Signed(Pair(hi, lo))) <= HALF
    ensures neg == if Signed(Pair(hi, lo)) < 0 then 1 else 0
  {
    h, l, neg := hi, lo, 0;
    if hi >= 0x8000_0000 {
      neg := 1;
      h, l := NegPair(hi, lo);
    }
  }

  // ---- long division

  /** The loop L5: both operands are shifted until the divisor fits one register. */
  method Normalize(dh: word, dl: word, nh: word, nl: word) returns (ecx: word, edx: word, eax: word, ghost p: nat)
    requires dh > 0 && Pair(nh, nl) <= HALF
    ensures Shifted(Pair(nh, nl), Pair(edx, eax), p) && Shifted(Pair(dh, dl), ecx, p)
    ensures 0x8000_0000 <= ecx && edx <= 0x4000_0000
  {
    var ebx := dh;
    ecx, edx, eax, p := dl, nh, nl, 1;
    while true
      invariant ebx > 0 && edx <= 0x8000_0000
      invariant Shifted(Pair(nh, nl), Pair(edx, eax), p) && Shifted(Pair(dh, dl), Pair(ebx, ecx), p)
      decreases ebx
    {
      ShiftOnce(Pair(nh, nl), Pair(edx, eax), p);
      ShiftOnce(Pair(dh, dl), Pair(ebx, ecx), p);
      ebx, ecx := ShiftPair(ebx, ecx);
      edx, eax := ShiftPair(edx, eax);
      p := 2 * p;
      if ebx == 0 {
        break;
      }
    }
  }

  /** The product of estimate and divisor, as the code assembles it from two multiplications. */
  method Product(q: word, dh: word, dl: word) returns (carry: bool, hi: word, lo: word)
    requires q * Pair(dh, dl) < BB
    ensures !carry && Pair(hi, lo) == q * Pair(dh, dl)
  {
    var top, ecx := Mul32(q, dh);
    var edx, eax := Mul32(dl, q);
    ProductParts(q, dh, dl, top, ecx, edx, eax);
    carry := edx + ecx >= B;
    hi, lo := (edx + ecx) % B, eax;
  }

  /** With a product below 2^64 the discarded high word is zero and the addition does not carry. */
  lemma ProductParts(q: word, dh: word, dl: word, top: word, ecx: word, edx: word, eax: word)
    requires Pair(top, ecx) == q * dh && Pair(edx, eax) == dl * q && q * Pair(dh, dl) < BB
    ensures top == 0 && edx + ecx < B
    ensures Pair(edx + ecx, eax) == q * Pair(dh, dl)
  {
    assert q * Pair(dh, dl) == (q * dh) * B + q * dl;
    assert q * Pair(dh, dl) == top * (B * B) + (ecx + edx) * B + eax;
  }

  /** Estimate and correction: div on the normalized operands, then one comparison of the product with the dividend. */
  method Estimate(dh: word, dl: word, nh: word, nl: word) returns (esi: word, above: bool, hi: word, lo: word)
    requires dh > 0 && Pair(nh, nl) <= HALF && Pair(dh, dl) <= HALF
    ensures Pair(hi, lo) == Pair(dh, dl) * esi
    ensures above <==> Pair(dh, dl) * esi > Pair(nh, nl)
    ensures !above ==> Pair(nh, nl) / Pair(dh, dl) == esi && Pair(nh, nl) % Pair(dh, dl) == Pair(nh, nl) - Pair(hi, lo)
    ensures above ==> esi > 0 && Pair(nh, nl) / Pair(dh, dl) == esi - 1
    ensures above ==>
      Pair(dh, dl) <= Pair(hi, lo) && Pair(nh, nl) % Pair(dh, dl) == Pair(nh, nl) - (Pair(hi, lo) - Pair(dh, dl))
  {
    ghost var n, d := Pair(nh, nl), Pair(dh, dl);
    var ecx, edx, eax, p := Normalize(dh, dl, nh, nl);
    var rest;
    esi, rest := Div32(edx, eax, ecx);
    SmallEstimate(edx, eax, ecx, esi);
    EstimateBounds(n, d, Pair(edx, eax), ecx, p, esi);
    EstimateCorrected(n, d, esi);
    if esi > 0 {
      MulMono(d, 1, esi);
    }
    EqualOperands(n, d, Pair(edx, eax), ecx, p, esi);
    EstimateFits(n, d, esi);
    var carry;
    carry, hi, lo := Product(esi, dh, dl);
    above := carry || hi > nh || (hi == nh && lo > nl);
  }

  lemma SmallEstimate(edx: word, eax: word, ecx: word, q: word)
    requires ecx >= 0x8000_0000 && edx <= 0x4000_0000 && ecx * q <= Pair(edx, eax)
    ensures q <= ecx + 1
  {
    MulMono(0x8000_0002, 0x8000_0000, ecx);
    if q > ecx + 1 {
      MulMono(ecx, 0x8000_0002, q);
    }
  }

  /** Equal operands give the estimate 1. */
  lemma EqualOperands(n: nat, d: nat, n1: nat, d1: nat, p: nat, q: nat)
    requires Shifted(n, n1, p) && Shifted(d, d1, p) && d1 > 0 && d1 * q <= n1 < d1 * q + d1
    ensures n == d ==> q == 1
  {
    if n == d {
      assert p * (n1 + 1) == n1 * p + p && p * (d1 + 1) == d1 * p + p;
      if n1 < d1 {
        MulMono(p, n1 + 1, d1);
      } else if d1 < n1 {
        MulMono(p, d1 + 1, n1);
      }
      QuotientIs(n1, d1, q);
      QuotientIs(n1, d1, 1);
    }
  }

  /** The product of the estimate never reaches 2^64. */
  lemma EstimateFits(n: nat, d: nat, q: nat)
    requires n <= HALF && d <= HALF && (q > 0 ==> d * (q - 1) <= n) && (n == d ==> q == 1)
    ensures q * d < BB
  {
    if q > 0 {
      assert q * d == d * (q - 1) + d;
    }
  }

  // ---- the runtime functions

  /** Division by a 32-bit divisor: two chained div instructions, high word first. */
  method ShortDivide(nh: word, nl: word, d: word) returns (qh: word, ql: word, r: word)
    requires d > 0
    ensures Pair(qh, ql) == Pair(nh, nl) / d && r == Pair(nh, nl) % d
  {
    var r1;
    qh, r1 := Div32(0, nh, d);
    ql, r := Div32(r1, nl, d);
    assert Pair(nh, nl) == (d * qh + r1) * B + nl == d * qh * B + d * ql + r == d * Pair(qh, ql) + r;
    QuotientIs(Pair(nh, nl), d, Pair(qh, ql));
  }

  lemma {:induction false} QuotientSmall(n: nat, d: nat)
    requires d > 0
    ensures n / d <= n
  {
    MulMono(n / d, 1, d);
    assert n == d * (n / d) + n % d;
  }

  /** The word that stands for the signed quotient: the quotient of the magnitudes, negated when the signs differ. */
  lemma QuotientWord(n: int, d: int)
    requires d != 0 && Abs(n) <= HALF
    ensures var w := Abs(n) / Abs(d);
      w <= HALF && TruncDiv(n, d) % BB == if (n < 0) == (d < 0) then w else (BB - w) % BB
  {
    QuotientSmall(Abs(n), Abs(d));
    WordOf(Abs(n) / Abs(d));
  }

  lemma WordOf(w: nat)
    requires w < BB
    ensures w % BB == w && (-(w as int)) % BB == (BB - w) % BB
    ensures (BB - (BB - w) % BB) % BB == w
  {
  }

  /** The word that stands for the signed remainder: the remainder of the magnitudes, negated with the dividend. */
  lemma RemainderWord(n: int, d: int)
    requires d != 0 && Abs(d) <= HALF
    ensures var w := Abs(n) % Abs(d);
      w < BB && TruncRem(n, d) % BB == if n < 0 then (BB - w) % BB else w
  {
    WordOf(Abs(n) % Abs(d));
  }

  /** _alldiv: the signed quotient rounded toward zero, as a 64-bit word. */
  method AllDiv(nh: word, nl: word, dh: word, dl: word) returns (edx: word, eax: word)
    requires Pair(dh, dl) != 0
    ensures Pair(edx, eax) == TruncDiv(Signed(Pair(nh, nl)), Signed(Pair(dh, dl))) % BB
  {
    ghost var n, d := Signed(Pair(nh, nl)), Signed(Pair(dh, dl));
    var edi: int := 0;
    var n1, n0, neg := Magnitude(nh, nl);
    edi := edi + neg;
    var d1, d0, dneg := Magnitude(dh, dl);
    edi := edi + dneg;
    QuotientWord(n, d);
    edx, eax := MagnitudeQuotient(d1, d0, n1, n0);
    hide Pair, Signed, Abs, TruncDiv;
    edi := edi - 1;
    if edi == 0 {
      edx, eax := NegPair(edx, eax);
    }
  }

  /** Between the sign handling: the quotient of the magnitudes. */
  method MagnitudeQuotient(dh: word, dl: word, nh: word, nl: word) returns (edx: word, eax: word)
    requires 0 < Pair(dh, dl) <= HALF && Pair(nh, nl) <= HALF
    ensures Pair(edx, eax) == Pair(nh, nl) / Pair(dh, dl)
  {
    if dh == 0 {
      var r;
      edx, eax, r := ShortDivide(nh, nl, dl);
    } else {
      var esi, above, hi, lo := Estimate(dh, dl, nh, nl);
      if above {
        esi := esi - 1;
      }
      edx, eax := 0, esi;
    }
  }

  /** sub lo; sbb hi. */
  method SubPair(hi: word, lo: word, bh: word, bl: word) returns (h: word, l: word)
    ensures Pair(h, l) == (Pair(hi, lo) - Pair(bh, bl)) % BB
  {
    var borrow := if lo < bl then 1 else 0;
    l := (lo - bl) % B;
    h := (hi - bh - borrow) % B;
  }

  lemma PairRange(hi: word, lo: word)
    ensures Pair(hi, lo) < BB
  {
  }

  /** The subtract-back correction: the corrected product minus the dividend, which is the negated remainder. */
  method NegatedRemainder(dh: word, dl: word, nh: word, nl: word) returns (edx: word, eax: word)
    requires dh > 0 && Pair(dh, dl) <= HALF && Pair(nh, nl) <= HALF
    ensures Pair(edx, eax) == (BB - Pair(nh, nl) % Pair(dh, dl)) % BB
  {
    ghost var n, d := Pair(nh, nl), Pair(dh, dl);
    var esi, above;
    esi, above, edx, eax := Estimate(dh, dl, nh, nl);
    hide Pair;
    ghost var r := n % d;
    PairRange(edx, eax);
    if above {
      edx, eax := SubPair(edx, eax, dh, dl);
    }
    assert Pair(edx, eax) + r == n;
    ghost var m := Pair(edx, eax);
    edx, eax := SubPair(edx, eax, nh, nl);
    assert m as int - n == -(r as int);
    WordOf(r);
  }

  /** _allrem: the remainder of that quotient, signed like the dividend, as a 64-bit word. */
  method AllRem(nh: word, nl: word, dh: word, dl: word) returns (edx: word, eax: word)
    requires Pair(dh, dl) != 0
    ensures Pair(edx, eax) == TruncRem(Signed(Pair(nh, nl)), Signed(Pair(dh, dl))) % BB
  {
    ghost var n, d := Signed(Pair(nh, nl)), Signed(Pair(dh, dl));
    var n1, n0, edi := Magnitude(nh, nl);
    var d1, d0, dneg := Magnitude(dh, dl);
    RemainderWord(n, d);
    WordOf(Abs(n) % Abs(d));
    if d1 == 0 {
      var qh, ql, r := ShortDivide(n1, n0, d0);
      edx, eax := 0, r;
      if edi == 1 {
        edx, eax := NegPair(edx, eax);
      }
    } else {
      edx, eax := NegatedRemainder(d1, d0, n1, n0);
      if edi == 0 {
        edx, eax := NegPair(edx, eax);
      }
    }
  }

  /** The 64-bit word carries the whole quotient except for the one quotient that does not fit. */
  lemma QuotientRepresentable(n: int, d: int)
    requires d != 0 && -HALF <= n < HALF && -HALF <= d < HALF
    ensures Signed(TruncDiv(n, d) % BB) == TruncDiv(n, d) <==> !(n == -HALF && d == -1)
  {
    MagnitudeFits(Abs(n), Abs(d));
    SignedBack(TruncDiv(n, d));
  }

  /** A quotient of magnitudes is HALF only for HALF by 1. */
  lemma MagnitudeFits(a: nat, b: nat)
    requires b > 0 && a <= HALF
    ensures 0 <= a / b <= HALF && (a / b == HALF <==> a == HALF && b == 1)
  {
    var q := a / b;
    assert a == b * q + a % b;
    if b >= 2 {
      MulMono(q, 2, b);
    }
  }

  /** A number comes back from its word exactly when it is less than HALF. */
  lemma SignedBack(x: int)
    requires -HALF <= x <= HALF
    ensures Signed(x % BB) == x <==> x < HALF
  {
    if x < 0 {
      assert x % BB == x + BB;
    }
  }

  /** The remainder always fits, and with the quotient it gives back the dividend. */
  lemma RemainderRepresentable(n: int, d: int)
    requires d != 0 && -HALF <= n < HALF && -HALF <= d < HALF
    ensures Signed(TruncRem(n, d) % BB) == TruncRem(n, d)
    ensures n == d * TruncDiv(n, d) + TruncRem(n, d)
  {
    TruncDivRem(n, d);
    WordOf(Abs(n) % Abs(d));
  }
}
