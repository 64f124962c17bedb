/** Machine words: the fixed-width integers of the Win32 types, with the casts that wrap. */
module Words {
  const TWO8 := 0x100
  const TWO16 := 0x1_0000
  const TWO24 := 0x100_0000
  const TWO31 := 0x8000_0000
  const TWO32 := 0x1_0000_0000
  const TWO63 := 0x8000_0000_0000_0000
  const TWO64 := 0x1_0000_0000_0000_0000

  type u8 = x: int | 0 <= x < 0x100
  type u16 = x: int | 0 <= x < 0x1_0000
  type u32 = x: int | 0 <= x < 0x1_0000_0000
  type u64 = x: int | 0 <= x < 0x1_0000_0000_0000_0000
  type i32 = x: int | -0x8000_0000 <= x < 0x8000_0000
  type i64 = x: int | -0x8000_0000_0000_0000 <= x < 0x8000_0000_0000_0000

  /** The LowPart of a ULARGE_INTEGER. */
  function Lo(x: u64): u32 {
    x % TWO32
  }

  /** The HighPart of a ULARGE_INTEGER. */
  function Hi(x: u64): u32 {
    x / TWO32
  }

  /** The QuadPart of a ULARGE_INTEGER given its two halves. */
  function Quad(hi: u32, lo: u32): u64 {
    hi * TWO32 + lo
  }

  /** Cast of any integer to an unsigned 64-bit word. */
  function ToU64(x: int): u64 {
    x % TWO64
  }

  /** Cast of any integer to an unsigned 32-bit word. */
  function ToU32(x: int): u32 {
    x % TWO32
  }

  /** Cast of any integer to a signed 64-bit word (two's complement). */
  function ToI64(x: int): i64 {
    var u := x % TWO64;
    if u < TWO63 then u else u - TWO64
  }

  /** Cast of any integer to a signed 32-bit word (two's complement). */
  function ToI32(x: int): i32 {
    var u := x % TWO32;
    if u < TWO31 then u else u - TWO32
  }

  function Abs(x: int): nat {
    if x < 0 then -x else x
  }

  /** Division as C does it: the quotient is rounded toward zero. */
  function TruncDiv(n: int, c: int): int
    requires c != 0
  {
    var q := Abs(n) / Abs(c);
    if (n < 0) != (c < 0) then -q else q
  }

  /** Remainder as C does it: it has the sign of the dividend. */
  function TruncMod(n: int, c: int): int
    requires c != 0
  {
    n - c * TruncDiv(n, c)
  }

  lemma AbsIs(x: int)
    ensures Abs(x) == if x < 0 then -x else x
  {
  }

  // ----- Facts about products and quotients -----

  lemma MulMonotone(x: nat, y: nat, mx: nat, my: nat)
    requires x <= mx && y <= my
    ensures 0 <= x * y <= mx * my
  {
    assert x * y <= mx * y <= mx * my;
  }

  lemma QuotientUnique(n: int, q: int, c: int, r: int)
    requires c > 0 && n == q * c + r && 0 <= r < c
    ensures n / c == q && n % c == r
  {
    var q', r' := n / c, n % c;
    assert n == q' * c + r';
    assert (q - q') * c == r' - r;
    if q > q' {
      MulMonotone(1, c, q - q', c);
      assert false;
    } else if q < q' {
      assert (q' - q) * c == r - r';
      MulMonotone(1, c, q' - q, c);
      assert false;
    }
  }

  lemma QuotientBelow(n: nat, c: nat, bound: nat)
    requires c > 0 && n < c * bound
    ensures n / c < bound
  {
    if n / c >= bound {
      MulMonotone(bound, c, n / c, c);
      assert false;
    }
  }

  // ----- Powers of two -----

  ghost function Pow2(k: nat): (r: nat)
    ensures r >= 1
  {
    if k == 0 then 1 else 2 * Pow2(k - 1)
  }

  lemma {:induction false} Pow2Adds(i: nat, j: nat)
    ensures Pow2(i) * Pow2(j) == Pow2(i + j)
  {
    if i > 0 {
      Pow2Adds(i - 1, j);
      assert Pow2(i) * Pow2(j) == 2 * (Pow2(i - 1) * Pow2(j));
    }
  }

  lemma Pow2Is16()
    ensures Pow2(16) == 0x1_0000
  {
    assert Pow2(4) == 0x10;
    Pow2Adds(4, 4);
    Pow2Adds(8, 8);
  }
}
