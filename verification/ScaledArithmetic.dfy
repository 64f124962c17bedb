/** llMulDiv and Int64x32Div32: (a * b + d) / c out of 32-bit limbs. */
module ScaledArithmetic {
  import opened Words

  // ----- What the two functions are for -----

  const MAX_I64: i64 := 0x7FFF_FFFF_FFFF_FFFF
  const MIN_I64: i64 := -0x8000_0000_0000_0000

  /** The sign flag both functions hold when they come to divide. A zero numerator keeps the
      sign the product would have had, which shows only when c is zero. */
  function Negative(a: int, b: int, c: int, n: int): bool {
    if n == 0 then ((a < 0) != (b < 0)) != (c < 0) else (n < 0) != (c < 0)
  }

  predicate Overflows(n: int, c: int) {
    Abs(n) >= Abs(c) * TWO64
  }

  /** The intended value: the truncated quotient in a signed 64-bit word; the signed extreme when
      the quotient needs more than 64 bits or c is zero. */
  function Scaled(a: int, b: int, c: int, d: int): i64 {
    Saturating(a, b, c, a * b + d)
  }

  function Saturating(a: int, b: int, c: int, n: int): i64 {
    if Overflows(n, c) then (if Negative(a, b, c, n) then MIN_I64 else MAX_I64)
    else NonZeroDivisor(n, c); ToI64(TruncDiv(n, c))
  }

  lemma NonZeroDivisor(n: int, c: int)
    requires !Overflows(n, c)
    ensures c != 0
  {
  }

  // ----- The stages -----

  /** The long multiplication: p1:p0 becomes the 128-bit product. Every intermediate has an
      unsigned 64-bit type, so no limb product and no sum of limb products overflows. */
  method LongMultiply(ua: u64, ub: u64) returns (p0: u64, p1: u64)
    requires ua <= TWO63 && ub <= TWO63
    ensures p1 * TWO64 + p0 == ua * ub
  {
    var al, ah, bl, bh := Lo(ua), Hi(ua), Lo(ub), Hi(ub);
    MulMonotone(al, bl, TWO32 - 1, TWO32 - 1);
    MulMonotone(al, bh, TWO32 - 1, TWO31);
    MulMonotone(ah, bl, TWO31, TWO32 - 1);
    MulMonotone(ah, bh, TWO31, TWO31);
    p0 := al * bl;
    var x: u64 := al * bh + ah * bl + Hi(p0);
    LimbProduct(al, ah, bl, bh);
    p0 := Quad(Lo(x), Lo(p0));
    p1 := ah * bh + Hi(x);
  }

  lemma LimbProduct(al: int, ah: int, bl: int, bh: int)
    ensures (ah * TWO32 + al) * (bh * TWO32 + bl)
         == ah * bh * TWO64 + (al * bh + ah * bl) * TWO32 + al * bl
  {
    calc {
      (ah * TWO32 + al) * (bh * TWO32 + bl);
      (ah * TWO32) * (bh * TWO32 + bl) + al * (bh * TWO32 + bl);
      (ah * TWO32) * (bh * TWO32) + (ah * TWO32) * bl + al * (bh * TWO32) + al * bl;
      { assert (ah * TWO32) * (bh * TWO32) == ah * bh * TWO64; }
      { assert (ah * TWO32) * bl == ah * bl * TWO32; }
      { assert al * (bh * TWO32) == al * bh * TWO32; }
      ah * bh * TWO64 + (al * bh + ah * bl) * TWO32 + al * bl;
    }
  }

  /** What d adds to the magnitude of a product whose sign flag is negative. */
  function Delta(d: int, negative: bool): int {
    if negative then -d else d
  }

  /** The two low limbs of the extended addition, with the carries of the source. */
  method AddLow(q0: u64, ud0: u64) returns (p0: u64, carry: u32)
    ensures carry * TWO64 + p0 == q0 + ud0
  {
    var total: u64 := Lo(ud0) + Lo(q0);
    HalvesOf(Hi(q0), Lo(total));
    p0 := Quad(Hi(q0), Lo(total));
    total := Quad(0, Hi(total));
    var carried: u64 := total + (Hi(ud0) + Hi(p0));
    CarryChain(ud0, q0, total, carried);
    p0 := Quad(Lo(carried), Lo(p0));
    carry := Hi(carried);
  }

  lemma HalvesOf(h: u32, l: u32)
    ensures Hi(Quad(h, l)) == h && Lo(Quad(h, l)) == l
  {
  }

  /** The extended addition, modulo 2^128. */
  method AddLimbs(q0: u64, q1: u64, ud0: u64, ud1: u64) returns (p0: u64, p1: u64)
    ensures p1 * TWO64 + p0 == (q1 * TWO64 + q0 + ud1 * TWO64 + ud0) % (TWO64 * TWO64)
  {
    var carry: u32;
    p0, carry := AddLow(q0, ud0);
    p1 := ToU64(q1 + ToU64(ud1 + carry));
    HighWordWraps(q1 + ud1 + carry, p1, p0);
  }

  lemma CarryChain(x: u64, y: u64, c: int, t: int)
    requires c == (Lo(x) + Lo(y)) / TWO32
    requires t == c + Hi(x) + Hi(y)
    ensures 0 <= c <= 1 && 0 <= t < 2 * TWO32
    ensures t * TWO32 + (Lo(x) + Lo(y)) % TWO32 == x + y
  {
  }

  lemma HighWordWraps(h: int, p1: u64, p0: u64)
    requires p1 == h % TWO64
    ensures p1 * TWO64 + p0 == (h * TWO64 + p0) % (TWO64 * TWO64)
  {
    var k := h / TWO64;
    assert h * TWO64 + p0 == k * (TWO64 * TWO64) + (p1 * TWO64 + p0);
    QuotientUnique(h * TWO64 + p0, k, TWO64 * TWO64, p1 * TWO64 + p0);
  }

  /** Two's complement negation of a 128-bit value held in two words. */
  method Negate128(q0: u64, q1: u64) returns (p0: u64, p1: u64)
    requires q0 != 0 || q1 != 0
    ensures p1 * TWO64 + p0 == TWO64 * TWO64 - (q1 * TWO64 + q0)
  {
    p0, p1 := TWO64 - 1 - q0, TWO64 - 1 - q1;
    p0 := ToU64(p0 + 1);
    p1 := ToU64(p1 + (if p0 == 0 then 1 else 0));
  }

  /** The addition of a sign-extended d to the product of magnitudes, followed by the negation
      that keeps p1:p0 a magnitude and sign its sign. */
  method AddSigned(q0: u64, q1: u64, d: i64, negative: bool) returns (p0: u64, p1: u64, sign: bool)
    requires q1 * TWO64 + q0 <= TWO63 * TWO63
    ensures var t := q1 * TWO64 + q0 + Delta(d, negative);
      p1 * TWO64 + p0 == Abs(t) && sign == (if t < 0 then !negative else negative)
  {
    p0, p1, sign := q0, q1, negative;
    if d != 0 {
      var ud0: u64, ud1: u64;
      if sign {
        ud0 := ToU64(-(d as int));
        ud1 := if d > 0 then TWO64 - 1 else 0;
      } else {
        ud0 := ToU64(d);
        ud1 := if d < 0 then TWO64 - 1 else 0;
      }
      p0, p1 := AddLimbs(p0, p1, ud0, ud1);
      ghost var t := q1 * TWO64 + q0 + Delta(d, negative);
      SignExtension(Delta(d, negative), ud0, ud1, q1 * TWO64 + q0);
      assert p1 * TWO64 + p0 == (if t < 0 then t + TWO64 * TWO64 else t);
      if Hi(p1) >= TWO31 {
        sign := !sign;
        p0, p1 := Negate128(p0, p1);
      }
    }
  }

  lemma SignExtension(d: int, ud0: u64, ud1: u64, m: nat)
    requires -TWO63 <= d <= TWO63 && m <= TWO63 * TWO63
    requires ud0 == d % TWO64 && ud1 == (if d < 0 then TWO64 - 1 else 0)
    ensures (m + ud1 * TWO64 + ud0) % (TWO64 * TWO64) == (if m + d < 0 then m + d + TWO64 * TWO64 else m + d)
  {
    if d < 0 {
      assert ud0 == d + TWO64;
      assert ud1 * TWO64 + ud0 == TWO64 * TWO64 + d;
      if m + d >= 0 {
        QuotientUnique(m + ud1 * TWO64 + ud0, 1, TWO64 * TWO64, m + d);
      }
    } else {
      assert ud0 == d;
    }
  }

  // ----- The three divisions of llMulDiv -----

  /** Two 64/32 divisions, for a divisor that fits in 32 bits. */
  method DivideByDword(q0: u64, q1: u64, uc: u32) returns (r: u64)
    requires q1 < uc
    ensures r == (q1 * TWO64 + q0) / uc
  {
    var dividend := Quad(q1, Hi(q0));
    StepFits(q1, Hi(q0), uc);
    var high: u32 := dividend / uc;
    var p0 := Quad(dividend % uc, Lo(q0));
    StepFits(dividend % uc, Lo(q0), uc);
    var low: u32 := p0 / uc;
    assert q1 * TWO64 + q0 == dividend * TWO32 + Lo(q0) by {
      LimbsOf(q0, q1);
    }
    TwoStepQuotient(q1 * TWO64 + q0, dividend, Lo(q0), uc);
    r := low + Quad(high, 0);
  }

  lemma LimbsOf(q0: u64, q1: u32)
    ensures q1 * TWO64 + q0 == Quad(q1, Hi(q0)) * TWO32 + Lo(q0)
  {
  }

  /** A 64/32 division whose high word is below the divisor has a 32-bit quotient. */
  lemma StepFits(h: u32, l: u32, c: u32)
    requires h < c
    ensures 0 <= Quad(h, l) / c < TWO32 && 0 <= Quad(h, l) % c < c
  {
    QuotientBelow(Quad(h, l), c, TWO32);
  }

  lemma TwoStepQuotient(n: nat, dividend: nat, low: u32, c: nat)
    requires c > 0 && n == dividend * TWO32 + low
    ensures n / c == (dividend / c) * TWO32 + ((dividend % c) * TWO32 + low) / c
  {
    var qh, rh := dividend / c, dividend % c;
    var ql, rl := (rh * TWO32 + low) / c, (rh * TWO32 + low) % c;
    assert dividend == qh * c + rh;
    assert rh * TWO32 + low == ql * c + rl;
    assert (qh * TWO32 + ql) * c == qh * c * TWO32 + ql * c;
    QuotientUnique(n, qh * TWO32 + ql, c, rl);
  }

  lemma Pow2Is64()
    ensures Pow2(63) == TWO63 && Pow2(64) == TWO64
  {
    Pow2Is16();
    Pow2Adds(16, 16);
    Pow2Adds(32, 32);
    assert Pow2(64) == 2 * Pow2(63);
  }

  /** The state of the long division after i of its 64 rounds: low is the part of the dividend
      not shifted in yet, held in the top bits of p0. */
  ghost predicate Partial(i: nat, n: nat, uc: nat, q: nat, p1: nat, p0: nat, low: nat) {
    && i <= 64
    && n == (q * uc + p1) * Pow2(64 - i) + low
    && p0 == low * Pow2(i)
    && low < Pow2(64 - i)
    && p1 < uc
    && q < Pow2(i)
  }

  /** One round: the top bit of what is left moves into p1, and uc is taken off p1 if it fits. */
  lemma Round(i: nat, n: nat, uc: nat, q: nat, p1: nat, p0: nat, low: nat) returns (low': nat)
    requires i < 64 && uc <= TWO63 && Partial(i, n, uc, q, p1, p0, low)
    ensures p0 < TWO64 && 2 * p1 + 1 < TWO64 && 2 * q + 1 < TWO64
    ensures var p1' := 2 * p1 + (if p0 >= TWO63 then 1 else 0);
      if uc <= p1' then Partial(i + 1, n, uc, 2 * q + 1, p1' - uc, (2 * p0) % TWO64, low')
      else Partial(i + 1, n, uc, 2 * q, p1', (2 * p0) % TWO64, low')
  {
    Pow2Is64();
    var half, w := Pow2(63 - i), Pow2(i);
    assert Pow2(64 - i) == 2 * half && Pow2(i + 1) == 2 * w && 64 - (i + 1) == 63 - i;
    Pow2Adds(i, 63 - i);
    Pow2AtMost(i + 1);
    var top := if low >= half then 1 else 0;
    low' := low - top * half;
    ShiftedOut(low, low', top, half, w, p0);
    ShiftedIn(n, uc, q, p1, low, low', top, half);
  }

  lemma ShiftedIn(n: nat, uc: nat, q: nat, p1: nat, low: nat, low': nat, top: nat, half: nat)
    requires n == (q * uc + p1) * (2 * half) + low && low == low' + top * half
    ensures n == (2 * q * uc + (2 * p1 + top)) * half + low'
    ensures n == ((2 * q + 1) * uc + (2 * p1 + top - uc)) * half + low'
  {
    var m := q * uc + p1;
    assert m * (2 * half) == (2 * m) * half;
    assert (2 * m + top) * half == (2 * m) * half + top * half;
    assert 2 * q * uc + (2 * p1 + top) == 2 * m + top;
    assert (2 * q + 1) * uc == 2 * q * uc + uc;
  }

  lemma {:induction false} Pow2AtMost(i: nat)
    requires i <= 64
    ensures Pow2(i) <= TWO64
  {
    Pow2Is64();
    Pow2Adds(i, 64 - i);
    MulMonotone(Pow2(i), 1, Pow2(i), Pow2(64 - i));
  }

  lemma ShiftedOut(low: nat, low': nat, top: nat, half: nat, w: nat, p0: nat)
    requires w * half == TWO63 && p0 == low * w && w >= 1
    requires top == (if low >= half then 1 else 0) && low' == low - top * half && low < 2 * half
    ensures top == (if p0 >= TWO63 then 1 else 0) && p0 < TWO64
    ensures (2 * p0) % TWO64 == low' * (2 * w)
  {
    assert p0 == low' * w + top * (half * w) by {
      assert low * w == (low' + top * half) * w == low' * w + top * half * w;
    }
    MulMonotone(low', w, half - 1, w);
    assert (half - 1) * w == TWO63 - w;
    assert 2 * p0 == top * TWO64 + low' * (2 * w);
    QuotientUnique(2 * p0, top, TWO64, low' * (2 * w));
  }

  lemma Unstarted(n: nat, uc: nat, p1: nat, p0: nat)
    requires n == p1 * TWO64 + p0 && p1 < uc && p0 < TWO64
    ensures Partial(0, n, uc, 0, p1, p0, p0)
  {
    Pow2Is64();
    assert p0 * Pow2(0) == p0;
  }

  lemma Finished(n: nat, uc: nat, q: nat, p1: nat, p0: nat, low: nat)
    requires Partial(64, n, uc, q, p1, p0, low)
    ensures q == n / uc
  {
    assert Pow2(0) == 1;
    QuotientUnique(n, q, uc, p1);
  }

  /** The 64-round shift and subtract loop. */
  method ShiftSubtract(q0: u64, q1: u64, uc: u64) returns (r: u64)
    requires q1 < uc <= TWO63
    ensures r == (q1 * TWO64 + q0) / uc
  {
    hide Partial, Pow2;
    var p0: u64, p1: u64 := q0, q1;
    r := 0;
    ghost var low: nat := q0;
    ghost var n := q1 * TWO64 + q0;
    Unstarted(n, uc, q1, q0);
    var i := 0;
    while i < 64
      invariant 0 <= i <= 64
      invariant Partial(i, n, uc, r, p1, p0, low)
    {
      low := Round(i, n, uc, r, p1, p0, low);
      r := r * 2;
      p1 := p1 * 2;
      if Hi(p0) >= TWO31 {
        p1 := p1 + 1;
      }
      p0 := ToU64(p0 * 2);
      if uc <= p1 {
        p1 := p1 - uc;
        r := r + 1;
      }
      i := i + 1;
    }
    Finished(n, uc, r, p1, p0, low);
  }

  /** The choice between the three routes: all of them give the same quotient. */
  method Divide(p0: u64, p1: u64, uc: u64) returns (q: u64)
    requires p1 < uc <= TWO63
    ensures q == (p1 * TWO64 + p0) / uc
  {
    if p1 == 0 {
      QuotientBelow(p0, uc, TWO64);
      q := p0 / uc;
    } else if Hi(uc) == 0 {
      q := DivideByDword(p0, p1, uc);
    } else {
      q := ShiftSubtract(p0, p1, uc);
    }
  }

  // ----- From magnitudes back to signed values -----

  /** What the stages compute, on magnitudes and a sign flag. */
  lemma SignedMagnitude(a: int, b: int, d: int)
    ensures var negative := (a < 0) != (b < 0);
      a * b + d == (if negative then -1 else 1) * (Abs(a) * Abs(b) + Delta(d, negative))
  {
    if a < 0 && b < 0 {
      assert a * b == (-a) * (-b);
    } else if a < 0 {
      assert a * b == -((-a) * b);
    } else if b < 0 {
      assert a * b == -(a * (-b));
    }
  }

  lemma Magnitude(a: i64)
    ensures ToU64(if a >= 0 then a else -(a as int)) == Abs(a) <= TWO63
  {
  }

  lemma Magnitude32(b: i32)
    ensures ToU32(if b >= 0 then b else -(b as int)) == Abs(b) <= TWO31
  {
  }

  lemma ProductOfMagnitudes(a: i64, b: i64)
    ensures 0 <= Abs(a) * Abs(b) <= TWO63 * TWO63
  {
    MulMonotone(Abs(a), Abs(b), TWO63, TWO63);
  }

  /** The sign flag the division stage works with is that of the specification. */
  lemma SignOfResult(a: int, b: int, c: int, d: int, t: int, sign: bool)
    requires t == Abs(a) * Abs(b) + Delta(d, (a < 0) != (b < 0))
    requires sign == ((if t < 0 then (a < 0) == (b < 0) else (a < 0) != (b < 0)) != (c < 0))
    ensures Abs(t) == Abs(a * b + d) && sign == Negative(a, b, c, a * b + d)
  {
    SignedMagnitude(a, b, d);
  }

  /** A quotient of magnitudes with the sign put back is the truncated quotient. */
  lemma SignedQuotient(a: int, b: int, c: int, n: int, q: u64)
    requires c != 0 && q == Abs(n) / Abs(c)
    ensures ToI64(TruncDiv(n, c)) == ToI64(if Negative(a, b, c, n) then -(q as int) else q)
  {
    if n == 0 {
      QuotientUnique(0, 0, Abs(c), 0);
    }
  }

  /** The value in terms of what the division stage is given. */
  function Outcome(sign: bool, m: nat, uc: nat): i64 {
    if m >= uc * TWO64 then (if sign then MIN_I64 else MAX_I64)
    else ToI64(if sign then -(m / uc) else m / uc)
  }

  lemma SaturatingOutcome(a: int, b: int, c: int, n: int, m: nat, uc: nat, sign: bool)
    requires m == Abs(n) && uc == Abs(c) && sign == Negative(a, b, c, n)
    ensures Outcome(sign, m, uc) == Saturating(a, b, c, n)
  {
    if !Overflows(n, c) {
      QuotientBelow(Abs(n), Abs(c), TWO64);
      SignedQuotient(a, b, c, n, Abs(n) / Abs(c));
    }
  }

  /** The cast of the quotient with its sign put back; negating a cast that wrapped is the cast
      of the negation. */
  method WithSign(q: u64, sign: bool) returns (r: i64)
    ensures r == ToI64(if sign then -(q as int) else q)
  {
    hide ToI64;
    CastOf(q);
    CastOf(-(ToI64(q) as int));
    CastOf(-(q as int));
    r := if sign then ToI64(-(ToI64(q) as int)) else ToI64(q);
  }

  /** The cast without a remainder, near enough to the range. */
  lemma CastOf(x: int)
    requires -TWO64 < x < TWO64
    ensures ToI64(x) == if x < -TWO63 then x + TWO64 else if x < TWO63 then x else x - TWO64
  {
  }

  /** The second half of llMulDiv: the test that catches c == 0 and overflow, then the division. */
  method DivideSigned(p0: u64, p1: u64, uc: u64, sign: bool) returns (r: i64)
    requires uc <= TWO63
    ensures r == Outcome(sign, p1 * TWO64 + p0, uc)
  {
    if uc <= p1 {
      return if sign then MIN_I64 else MAX_I64;
    }
    var q := Divide(p0, p1, uc);
    r := WithSign(q, sign);
  }

  /** The first half of llMulDiv: magnitude and sign of the numerator over c. */
  method Numerator(a: i64, b: i64, c: i64, d: i64) returns (p0: u64, p1: u64, sign: bool)
    ensures p1 * TWO64 + p0 == Abs(a * b + d) && sign == Negative(a, b, c, a * b + d)
  {
    hide Negative, Delta, ToU64, Abs;
    var ua := ToU64(if a >= 0 then a else -(a as int));
    var ub := ToU64(if b >= 0 then b else -(b as int));
    Magnitude(a);
    Magnitude(b);
    sign := (a < 0) != (b < 0);
    ProductOfMagnitudes(a, b);
    p0, p1 := LongMultiply(ua, ub);
    p0, p1, sign := AddSigned(p0, p1, d, sign);
    if c < 0 {
      sign := !sign;
    }
    SignOfResult(a, b, c, d, Abs(a) * Abs(b) + Delta(d, (a < 0) != (b < 0)), sign);
  }

  /** (a * b + d) / c on signed 64-bit words. */
  method LlMulDiv(a: i64, b: i64, c: i64, d: i64) returns (r: i64)
    ensures r == Scaled(a, b, c, d)
  {
    hide Outcome, Saturating, Negative;
    var uc := ToU64(if c >= 0 then c else -(c as int));
    var p0, p1, sign := Numerator(a, b, c, d);
    ghost var n := a * b + d;
    r := DivideSigned(p0, p1, uc, sign);
    SaturatingOutcome(a, b, c, n, p1 * TWO64 + p0, uc, sign);
  }

  // ----- Int64x32Div32: the same value from 96-bit arithmetic -----

  /** The product of a 64-bit and a 32-bit magnitude; the high limb is skipped when it is zero. */
  method Multiply96(ua: u64, ub: u32) returns (p0: u64, p1: u32)
    requires ua <= TWO63 && ub <= TWO31
    ensures p1 * TWO64 + p0 == ua * ub
  {
    MulMonotone(Lo(ua), ub, TWO32 - 1, TWO31);
    MulMonotone(Hi(ua), ub, TWO31, TWO31);
    LimbProduct(Lo(ua), Hi(ua), ub, 0);
    p0 := Lo(ua) * ub;
    if Hi(ua) != 0 {
      var x: u64 := Hi(ua) * ub + Hi(p0);
      p0 := Quad(Lo(x), Lo(p0));
      p1 := Hi(x);
    } else {
      p1 := 0;
    }
  }

  /** The extended addition, modulo 2^96. */
  method AddLimbs96(q0: u64, q1: u32, ud0: u64, ud1: u32) returns (p0: u64, p1: u32)
    ensures p1 * TWO64 + p0 == (q1 * TWO64 + q0 + ud1 * TWO64 + ud0) % (TWO32 * TWO64)
  {
    var carry: u32;
    p0, carry := AddLow(q0, ud0);
    p1 := ToU32(q1 + ToU32(ud1 + carry));
    HighDwordWraps(q1 + ud1 + carry, p1, p0);
  }

  lemma HighDwordWraps(h: int, p1: u32, p0: u64)
    requires p1 == h % TWO32
    ensures p1 * TWO64 + p0 == (h * TWO64 + p0) % (TWO32 * TWO64)
  {
    var k := h / TWO32;
    assert h * TWO64 + p0 == k * (TWO32 * TWO64) + (p1 * TWO64 + p0);
    QuotientUnique(h * TWO64 + p0, k, TWO32 * TWO64, p1 * TWO64 + p0);
  }

  lemma SignExtension96(d: i32, negative: bool, ud0: u64, ud1: u32, m: nat)
    requires m <= TWO63 * TWO31
    requires ud0 == Delta(d, negative) % TWO64 && ud1 == (if Delta(d, negative) < 0 then TWO32 - 1 else 0)
    ensures var t := m + Delta(d, negative);
      (m + ud1 * TWO64 + ud0) % (TWO32 * TWO64) == (if t < 0 then t + TWO32 * TWO64 else t)
  {
    var e := Delta(d, negative);
    if e < 0 {
      assert ud1 * TWO64 + ud0 == TWO32 * TWO64 + e;
      if m + e >= 0 {
        QuotientUnique(m + ud1 * TWO64 + ud0, 1, TWO32 * TWO64, m + e);
      }
    }
  }

  method Negate96(q0: u64, q1: u32) returns (p0: u64, p1: u32)
    requires q0 != 0 || q1 != 0
    ensures p1 * TWO64 + p0 == TWO32 * TWO64 - (q1 * TWO64 + q0)
  {
    p0, p1 := TWO64 - 1 - q0, TWO32 - 1 - q1;
    p0 := ToU64(p0 + 1);
    p1 := ToU32(p1 + (if p0 == 0 then 1 else 0));
  }

  method AddSigned96(q0: u64, q1: u32, d: i32, negative: bool) returns (p0: u64, p1: u32, sign: bool)
    requires q1 * TWO64 + q0 <= TWO63 * TWO31
    ensures var t := q1 * TWO64 + q0 + Delta(d, negative);
      p1 * TWO64 + p0 == Abs(t) && sign == (if t < 0 then !negative else negative)
  {
    p0, p1, sign := q0, q1, negative;
    if d != 0 {
      var ud0: u64, ud1: u32;
      if sign {
        ud0 := ToU64(-(d as int));
        ud1 := if d > 0 then TWO32 - 1 else 0;
      } else {
        ud0 := ToU64(d);
        ud1 := if d < 0 then TWO32 - 1 else 0;
      }
      p0, p1 := AddLimbs96(p0, p1, ud0, ud1);
      SignExtension96(d, negative, ud0, ud1, q1 * TWO64 + q0);
      if p1 >= TWO31 {
        sign := !sign;
        p0, p1 := Negate96(p0, p1);
      }
    }
  }

  lemma TopIsZero(q0: u64, q1: u32, uc: u32)
    requires Quad(q1, Hi(q0)) < uc
    ensures q0 == Quad(Quad(q1, Hi(q0)), Lo(q0))
  {
  }

  /** The two 64/32 divisions; the first is skipped when its dividend is below the divisor. Both
      quotients have 32-bit types, so EnlargedUnsignedDivide loses nothing. */
  method Divide96(q0: u64, q1: u32, uc: u32) returns (r: u64)
    requires q1 < uc
    ensures r == (q1 * TWO64 + q0) / uc
  {
    var dividend := Quad(q1, Hi(q0));
    var high: u32, p0 := 0, q0;
    StepFits(q1, Hi(q0), uc);
    if dividend >= uc {
      high := dividend / uc;
      p0 := Quad(dividend % uc, Lo(q0));
    } else {
      QuotientUnique(dividend, 0, uc, dividend);
      TopIsZero(q0, q1, uc);
    }
    assert q1 * TWO64 + q0 == dividend * TWO32 + Lo(q0) by {
      LimbsOf(q0, q1);
    }
    assert p0 == Quad(dividend % uc, Lo(q0));
    StepFits(dividend % uc, Lo(q0), uc);
    var low: u32 := p0 / uc;
    TwoStepQuotient(q1 * TWO64 + q0, dividend, Lo(q0), uc);
    r := Quad(high, low);
  }

  method Numerator96(a: i64, b: i32, c: i32, d: i32) returns (p0: u64, p1: u32, sign: bool)
    ensures p1 * TWO64 + p0 == Abs(a * b + d) && sign == Negative(a, b, c, a * b + d)
  {
    hide Negative, Delta, ToU64, ToU32, Abs;
    var ua := ToU64(if a >= 0 then a else -(a as int));
    var ub := ToU32(if b >= 0 then b else -(b as int));
    Magnitude(a);
    Magnitude32(b);
    sign := (a < 0) != (b < 0);
    MulMonotone(Abs(a), Abs(b), TWO63, TWO31);
    p0, p1 := Multiply96(ua, ub);
    p0, p1, sign := AddSigned96(p0, p1, d, sign);
    if c < 0 {
      sign := !sign;
    }
    SignOfResult(a, b, c, d, Abs(a) * Abs(b) + Delta(d, (a < 0) != (b < 0)), sign);
  }

  method DivideSigned96(p0: u64, p1: u32, uc: u32, sign: bool) returns (r: i64)
    ensures r == Outcome(sign, p1 * TWO64 + p0, uc)
  {
    if uc <= p1 {
      return if sign then MIN_I64 else MAX_I64;
    }
    var q := Divide96(p0, p1, uc);
    r := WithSign(q, sign);
  }

  /** (a * b + d) / c for 32-bit b, c and d: the value of llMulDiv, saturation and wrap included. */
  method Int64x32Div32(a: i64, b: i32, c: i32, d: i32) returns (r: i64)
    ensures r == Scaled(a, b, c, d)
  {
    hide Outcome, Saturating, Negative;
    var uc := ToU32(if c >= 0 then c else -(c as int));
    var p0, p1, sign := Numerator96(a, b, c, d);
    ghost var n := a * b + d;
    r := DivideSigned96(p0, p1, uc, sign);
    SaturatingOutcome(a, b, c, n, p1 * TWO64 + p0, uc, sign);
  }

  // ----- What the common value means -----

  /** q is the quotient of n by c rounded toward zero: the remainder is smaller than c and has
      the sign of n. */
  ghost predicate IsTruncatedQuotient(n: int, c: int, q: int) {
    && Abs(n - q * c) < Abs(c)
    && (n - q * c > 0 ==> n > 0)
    && (n - q * c < 0 ==> n < 0)
  }

  lemma TruncDivDivides(n: int, c: int)
    requires c != 0
    ensures IsTruncatedQuotient(n, c, TruncDiv(n, c))
  {
    hide Abs, TruncDiv, IsTruncatedQuotient;
    AbsIs(c);
    AbsIs(n);
    var q, r := DivideBy(Abs(n), Abs(c));
    SignedProduct(q, n < 0, c);
    assert TruncDiv(n, c) == if (n < 0) != (c < 0) then -(q as int) else q by { SignedQuotientIs(n, c); }
    RemainderDecides(n, c, TruncDiv(n, c), r);
  }

  lemma DivideBy(x: nat, y: nat) returns (q: nat, r: nat)
    requires y > 0
    ensures q == x / y && x == q * y + r && r < y
  {
    q, r := x / y, x % y;
  }

  lemma SignedQuotientIs(n: int, c: int)
    requires c != 0
    ensures Abs(c) > 0
    ensures TruncDiv(n, c) == if (n < 0) != (c < 0) then -(Abs(n) / Abs(c)) else Abs(n) / Abs(c)
  {
    hide Abs;
    AbsIs(c);
  }

  lemma RemainderDecides(n: int, c: int, t: int, r: nat)
    requires n - t * c == (if n < 0 then -(r as int) else r) && r < Abs(c)
    ensures IsTruncatedQuotient(n, c, t)
  {
  }

  lemma SignedProduct(q: nat, negative: bool, c: int)
    ensures (if negative != (c < 0) then -(q as int) else q) * c == (if negative then -(q * Abs(c)) else q * Abs(c))
  {
    assert (-(q as int)) * c == -(q * c) && q * (-c) == -(q * c);
  }

  lemma TruncatedQuotientUnique(n: int, c: int, q: int, q': int)
    requires IsTruncatedQuotient(n, c, q) && IsTruncatedQuotient(n, c, q')
    ensures q == q'
  {
    assert (q - q') * c == (n - q' * c) - (n - q * c);
    if q != q' {
      assert Abs((q - q') * c) == Abs(q - q') * Abs(c) by {
        SignedMagnitude(q - q', c, 0);
      }
      MulMonotone(1, Abs(c), Abs(q - q'), Abs(c));
      assert false;
    }
  }

  /** The value is the truncated quotient exactly when c is not zero and that quotient fits. */
  lemma ScaledIsQuotientIffItFits(a: i64, b: i64, c: i64, d: i64)
    ensures IsTruncatedQuotient(a * b + d, c, Scaled(a, b, c, d))
       <==> c != 0 && MIN_I64 <= TruncDiv(a * b + d, c) <= MAX_I64
  {
    var n := a * b + d;
    if c != 0 {
      TruncDivDivides(n, c);
      if IsTruncatedQuotient(n, c, Scaled(a, b, c, d)) {
        TruncatedQuotientUnique(n, c, Scaled(a, b, c, d), TruncDiv(n, c));
      }
      if MIN_I64 <= TruncDiv(n, c) <= MAX_I64 {
        FittingQuotientDoesNotOverflow(n, c);
      }
    }
  }

  /** The quotient of the magnitudes is the magnitude of the quotient; it is negative when the signs
      differ and it is not zero. */
  lemma MagnitudeOfQuotient(n: int, c: int)
    requires c != 0
    ensures Abs(c) > 0 && Abs(TruncDiv(n, c)) == Abs(n) / Abs(c)
    ensures TruncDiv(n, c) < 0 <==> (n < 0) != (c < 0) && Abs(n) / Abs(c) > 0
  {
    hide Abs;
    AbsIs(c);
    var q := Abs(n) / Abs(c);
    assert q >= 0 by { QuotientNotNegative(Abs(n), Abs(c)); }
    AbsIs(q);
    AbsIs(-q);
  }

  lemma QuotientNotNegative(x: nat, y: nat)
    requires y > 0
    ensures x / y >= 0
  {
  }

  lemma LargeQuotientIff(x: nat, y: nat)
    requires y > 0
    ensures x / y >= TWO64 <==> x >= y * TWO64
  {
    if x < y * TWO64 {
      QuotientBelow(x, y, TWO64);
    } else {
      var q, r := x / y, x % y;
      assert x == q * y + r;
      if q < TWO64 {
        MulMonotone(q, y, TWO64 - 1, y);
      }
    }
  }

  lemma FittingQuotientDoesNotOverflow(n: int, c: int)
    requires c != 0 && Abs(TruncDiv(n, c)) < TWO64
    ensures !Overflows(n, c)
  {
    hide Abs, TruncDiv;
    MagnitudeOfQuotient(n, c);
    LargeQuotientIff(Abs(n), Abs(c));
  }

  /** Saturation happens exactly when c is zero or the quotient needs more than 64 bits. The extreme
      has the sign of the exact quotient; when c is zero it has the sign of the numerator, and for a
      zero numerator that of the product. */
  lemma SaturationIff(a: i64, b: i64, c: i64, d: i64)
    ensures Overflows(a * b + d, c) <==> c == 0 || Abs(TruncDiv(a * b + d, c)) >= TWO64
    ensures c != 0 && Overflows(a * b + d, c) ==>
      Scaled(a, b, c, d) == if TruncDiv(a * b + d, c) < 0 then MIN_I64 else MAX_I64
    ensures c == 0 ==>
      var n := a * b + d;
      Scaled(a, b, c, d) == if n < 0 || (n == 0 && (a < 0) != (b < 0)) then MIN_I64 else MAX_I64
    ensures c != 0 && !Overflows(a * b + d, c) ==>
      exists k: int :: Scaled(a, b, c, d) == TruncDiv(a * b + d, c) + k * TWO64
  {
    var n := a * b + d;
    if c == 0 {
      return;
    }
    TruncDivBound(n, c);
    if Overflows(n, c) {
      assert Negative(a, b, c, n) == (TruncDiv(n, c) < 0);
    } else {
      CastIsCongruent(TruncDiv(n, c));
    }
  }

  lemma TruncDivBound(n: int, c: int)
    requires c != 0
    ensures Overflows(n, c) <==> Abs(TruncDiv(n, c)) >= TWO64
    ensures Overflows(n, c) ==> n != 0 && ((n < 0) != (c < 0) <==> TruncDiv(n, c) < 0)
  {
    hide Abs, TruncDiv;
    MagnitudeOfQuotient(n, c);
    LargeQuotientIff(Abs(n), Abs(c));
    assert n != 0 || Abs(n) == 0 by { ZeroMagnitude(); }
  }

  lemma ZeroMagnitude()
    ensures Abs(0) == 0
  {
  }

  lemma CastIsCongruent(q: int)
    ensures exists k: int :: ToI64(q) == q + k * TWO64
  {
    var k := -(q / TWO64) - (if q % TWO64 < TWO63 then 0 else 1);
    assert ToI64(q) == q + k * TWO64;
  }
}
