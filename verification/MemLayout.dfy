/** The sizes that CMemAllocator agrees to, and where it lays its samples in the block. */
module MemLayout {
  import opened Words
  import opened Wrappers

  const MAXLONG := 0x7FFF_FFFF

  /** ALLOCATOR_PROPERTIES. */
  datatype Properties = Properties(cBuffers: i32, cbBuffer: i32, cbAlign: i32, cbPrefix: i32)

  /** Bitwise and. */
  function BitAnd(x: nat, y: nat): nat {
    if x == 0 || y == 0 then 0 else (x % 2) * (y % 2) + 2 * BitAnd(x / 2, y / 2)
  }

  /** The test of SetProperties on the alignment. */
  predicate AlignmentAccepted(granularity: u32, cbAlign: i32) {
    cbAlign != 0 && BitAnd(granularity, ToU32(cbAlign - 1)) == 0
  }

  /** C's lSize - lRemainder + cbAlign, in a LONG. */
  function RoundedUp(size: i32, align: i32): i32
    requires align != 0
  {
    var remainder := TruncMod(size, align);
    if remainder == 0 then size else ToI32(size - remainder + align)
  }

  /** The buffer size that SetProperties settles on. */
  function SettledSize(r: Properties): i32
    requires r.cbAlign != 0
  {
    ToI32(RoundedUp(ToI32(r.cbBuffer + r.cbPrefix), r.cbAlign) - r.cbPrefix)
  }

  /** CMemAllocator::Alloc: the distance from one sample to the next, unless a check fails. */
  function AlignedSize(size: i32, prefix: i32, align: i32): Option<i32>
    requires align > 0
  {
    if size < 0 || prefix < 0 then None
    else
      var aligned := ToI32(size + prefix);
      if aligned < size then None
      else
        var remainder := TruncMod(aligned, align);
        if align > 1 && remainder != 0 then
          var bigger := ToI32(aligned + align - remainder);
          if bigger < aligned then None else Some(bigger)
        else Some(aligned)
  }

  // ----- What an accepted request and a successful Alloc give -----

  /** Alloc gets as far as the block with what SetProperties has settled. */
  predicate LaidOut(r: Properties)
    requires r.cbAlign > 0
  {
    SettledSize(r) > 0 && AlignedSize(SettledSize(r), r.cbPrefix, r.cbAlign).Some?
  }

  /** On numbers that are not negative the remainder is the one of arithmetic. */
  lemma RemainderOf(n: nat, c: int)
    requires c > 0
    ensures TruncMod(n, c) == n % c
  {
    assert n == c * (n / c) + n % c;
  }

  lemma FitsInLong(x: int)
    ensures -TWO31 <= x < TWO31 ==> ToI32(x) == x
    ensures TWO31 <= x < TWO31 + TWO32 ==> ToI32(x) == x - TWO32
    ensures -TWO31 - TWO32 <= x < -TWO31 ==> ToI32(x) == x + TWO32
  {
  }

  lemma MultipleHasNoRemainder(q: int, c: int)
    requires c > 0
    ensures (q * c) % c == 0
  {
    QuotientUnique(q * c, q, c, 0);
  }

  /** Rounding up reaches the least multiple of the alignment, before it is put in a LONG. */
  lemma RoundsToMultiple(n: nat, c: i32) returns (exact: nat)
    requires n <= MAXLONG && c > 0
    ensures n <= exact < n + c && exact % c == 0
    ensures RoundedUp(n, c) == ToI32(exact)
  {
    hide ToI32, TruncMod;
    RemainderOf(n, c);
    FitsInLong(n);
    if n % c == 0 {
      exact := n;
    } else {
      exact := n - n % c + c;
      var q := n / c;
      assert exact == (q + 1) * c by {
        assert n == c * q + n % c;
        assert (q + 1) * c == q * c + c;
      }
      MultipleHasNoRemainder(q + 1, c);
    }
  }

  /** Rounding a negative size up gives at most the alignment itself. */
  lemma NegativeRoundsBelow(n: int, c: int)
    requires n < 0 < c
    ensures var m := TruncMod(n, c); n - m == 0 || n <= n - m <= -c
  {
    hide Abs;
    var q := Abs(n) / c;
    assert Abs(n) == -n && Abs(c) == c by { AbsIs(n); AbsIs(c); }
    assert -n == c * q + (-n) % c;
    assert TruncDiv(n, c) == -q;
    assert c * (-q) == -(c * q);
    if q >= 1 {
      MulMonotone(c, 1, c, q);
    }
  }

  /** An accepted request whose sum fits: the settled size with its prefix is the least multiple of
      the alignment that holds both, and Alloc adds nothing to it. */
  lemma FittingRequest(r: Properties)
    requires r.cbBuffer > 0 && r.cbPrefix >= 0 && r.cbAlign > 0
    requires r.cbBuffer + r.cbPrefix <= MAXLONG
    ensures LaidOut(r) ==> var size := SettledSize(r);
      && AlignedSize(size, r.cbPrefix, r.cbAlign) == Some(size + r.cbPrefix)
      && (size + r.cbPrefix) % r.cbAlign == 0
      && r.cbBuffer <= size < r.cbBuffer + r.cbAlign
  {
    hide ToI32, TruncMod, RoundedUp;
    FitsInLong(r.cbBuffer + r.cbPrefix);
    var exact := RoundsToMultiple(r.cbBuffer + r.cbPrefix, r.cbAlign);
    var size := SettledSize(r);
    FitsInLong(exact);
    FitsInLong(ToI32(exact) - r.cbPrefix);
    FitsInLong(size + r.cbPrefix);
    RemainderOf(exact, r.cbAlign);
  }

  /** A request whose sum overflows is only laid out when it has wrapped to one alignment unit, and
      then the buffer is too small. */
  lemma WrappedRequest(r: Properties)
    requires r.cbBuffer > 0 && r.cbPrefix >= 0 && r.cbAlign > 0
    requires r.cbBuffer + r.cbPrefix > MAXLONG
    ensures LaidOut(r) ==> var size := SettledSize(r);
      && AlignedSize(size, r.cbPrefix, r.cbAlign) == Some(size + r.cbPrefix)
      && size + r.cbPrefix == r.cbAlign
      && size < r.cbBuffer
  {
    hide ToI32, TruncMod;
    FitsInLong(r.cbBuffer + r.cbPrefix);
    var sum := ToI32(r.cbBuffer + r.cbPrefix);
    NegativeRoundsBelow(sum, r.cbAlign);
    FitsInLong(sum - TruncMod(sum, r.cbAlign) + r.cbAlign);
    var rounded := RoundedUp(sum, r.cbAlign);
    FitsInLong(rounded - r.cbPrefix);
    FitsInLong(SettledSize(r) + r.cbPrefix);
    assert LaidOut(r) ==> rounded == r.cbAlign;
    RemainderOf(r.cbAlign, r.cbAlign);
    MultipleHasNoRemainder(1, r.cbAlign);
  }

  /** Whatever SetProperties accepts and Alloc lays out: Alloc's own rounding adds nothing, each
      sample with its prefix takes a multiple of the alignment, and the usable part is at least
      what was asked for exactly when the sum of buffer and prefix fits in a LONG. */
  lemma LaidOutSizeIff(r: Properties)
    requires r.cbBuffer > 0 && r.cbPrefix >= 0 && r.cbAlign > 0
    ensures LaidOut(r) ==> var size := SettledSize(r);
      && AlignedSize(size, r.cbPrefix, r.cbAlign) == Some(size + r.cbPrefix)
      && (size + r.cbPrefix) % r.cbAlign == 0
      && (size >= r.cbBuffer <==> r.cbBuffer + r.cbPrefix <= MAXLONG)
  {
    hide SettledSize, AlignedSize;
    if r.cbBuffer + r.cbPrefix <= MAXLONG {
      FittingRequest(r);
    } else {
      WrappedRequest(r);
      MultipleHasNoRemainder(1, r.cbAlign);
    }
  }

  // ----- Which requests are laid out -----

  /** The least multiple of c that is not below n. */
  function LeastMultiple(n: nat, c: nat): (m: nat)
    requires c > 0
    ensures m % c == 0 && n <= m < n + c
  {
    var q := (n + c - 1) / c;
    assert n + c - 1 == c * q + (n + c - 1) % c;
    MultipleHasNoRemainder(q, c);
    q * c
  }

  /** No multiple of c lies in between, so that there is just one such number. */
  lemma LeastMultipleIff(n: nat, c: nat, m: nat)
    requires c > 0
    ensures m == LeastMultiple(n, c) <==> m % c == 0 && n <= m && forall k :: n <= k < m ==> k % c != 0
  {
    hide LeastMultiple;
    var least := LeastMultiple(n, c);
    forall k | n <= k && k % c == 0
      ensures k >= least
    {
      CloseMultiples(k, least, c);
    }
  }

  lemma CloseMultiples(k: nat, m: nat, c: nat)
    requires c > 0 && k % c == 0 && m % c == 0
    ensures k < m ==> k + c <= m
  {
    var q, q' := k / c, m / c;
    assert k == c * q && m == c * q';
    if k < m {
      if q >= q' {
        MulMonotone(c, q', c, q);
        assert false;
      }
      MulMonotone(c, q + 1, c, q');
      assert c * (q + 1) == c * q + c;
    }
  }

  lemma SameMultiple(n: nat, c: nat, m: nat)
    requires c > 0 && m % c == 0 && n <= m < n + c
    ensures m == LeastMultiple(n, c)
  {
    hide LeastMultiple;
    CloseMultiples(m, LeastMultiple(n, c), c);
    CloseMultiples(LeastMultiple(n, c), m, c);
  }

  /** Alloc's distance is the least multiple that holds buffer and prefix, as long as a LONG holds
      it; and it fails in no other case but for a negative prefix. */
  lemma AlignedSizeIs(size: nat, prefix: i32, align: i32)
    requires size <= MAXLONG && align > 0
    ensures AlignedSize(size, prefix, align) ==
      if prefix >= 0 && LeastMultiple(size + prefix, align) <= MAXLONG then Some(LeastMultiple(size + prefix, align))
      else None
  {
    hide ToI32, TruncMod, LeastMultiple;
    if prefix >= 0 {
      FitsInLong(size + prefix);
      if size + prefix <= MAXLONG {
        var exact := RoundsToMultiple(size + prefix, align);
        SameMultiple(size + prefix, align, exact);
        FitsInLong(exact);
        RemainderOf(size + prefix, align);
        var remainder := (size + prefix) % align;
        if remainder == 0 {
          SameMultiple(size + prefix, align, size + prefix);
        } else {
          RaisedMultiple(size + prefix, align);
        }
      }
    }
  }

  lemma RaisedMultiple(n: nat, c: nat)
    requires c > 0 && n % c != 0
    ensures LeastMultiple(n, c) == n + c - n % c
  {
    hide LeastMultiple;
    var q := n / c;
    assert n == c * q + n % c;
    assert (q + 1) * c == c * q + c;
    MultipleHasNoRemainder(q + 1, c);
    SameMultiple(n, c, n + c - n % c);
  }

  lemma SettledFitting(r: Properties)
    requires r.cbBuffer > 0 && r.cbPrefix >= 0 && r.cbAlign > 0
    requires r.cbBuffer + r.cbPrefix <= MAXLONG
    ensures var m := LeastMultiple(r.cbBuffer + r.cbPrefix, r.cbAlign);
      if m <= MAXLONG then SettledSize(r) == m - r.cbPrefix
      else SettledSize(r) > 0 ==> SettledSize(r) == m - r.cbPrefix
  {
    hide ToI32, TruncMod, RoundedUp, LeastMultiple;
    FitsInLong(r.cbBuffer + r.cbPrefix);
    var exact := RoundsToMultiple(r.cbBuffer + r.cbPrefix, r.cbAlign);
    SameMultiple(r.cbBuffer + r.cbPrefix, r.cbAlign, exact);
    FitsInLong(exact);
    FitsInLong(ToI32(exact) - r.cbPrefix);
  }

  /** A request whose sum fits is laid out exactly when the least multiple of the alignment that
      holds buffer and prefix fits as well. */
  lemma FittingLaidOutIff(r: Properties)
    requires r.cbBuffer > 0 && r.cbPrefix >= 0 && r.cbAlign > 0
    requires r.cbBuffer + r.cbPrefix <= MAXLONG
    ensures LaidOut(r) <==> LeastMultiple(r.cbBuffer + r.cbPrefix, r.cbAlign) <= MAXLONG
  {
    hide LeastMultiple, SettledSize, AlignedSize;
    var m, size := LeastMultiple(r.cbBuffer + r.cbPrefix, r.cbAlign), SettledSize(r);
    SettledFitting(r);
    if size > 0 {
      AlignedSizeIs(size, r.cbPrefix, r.cbAlign);
      SameMultiple(m, r.cbAlign, m);
    }
  }

  /** A request whose sum wraps is laid out exactly when what is missing to 2^32, and the prefix, are
      both below the alignment. */
  lemma WrappedLaidOutIff(r: Properties)
    requires r.cbBuffer > 0 && r.cbPrefix >= 0 && r.cbAlign > 0
    requires r.cbBuffer + r.cbPrefix > MAXLONG
    ensures LaidOut(r) <==> TWO32 - (r.cbBuffer + r.cbPrefix) < r.cbAlign && r.cbPrefix < r.cbAlign
  {
    hide LeastMultiple, AlignedSize, ToI32, TruncMod;
    var sum, size := r.cbBuffer + r.cbPrefix - TWO32, SettledSize(r);
    FitsInLong(r.cbBuffer + r.cbPrefix);
    NegativeRemainder(sum, r.cbAlign);
    NegativeRoundsBelow(sum, r.cbAlign);
    FitsInLong(sum - TruncMod(sum, r.cbAlign) + r.cbAlign);
    var rounded := RoundedUp(sum, r.cbAlign);
    FitsInLong(rounded - r.cbPrefix);
    if size > 0 {
      AlignedSizeIs(size, r.cbPrefix, r.cbAlign);
      if rounded == r.cbAlign {
        MultipleHasNoRemainder(1, r.cbAlign);
        SameMultiple(r.cbAlign, r.cbAlign, r.cbAlign);
      }
    }
  }

  /** Which requests get as far as the block. */
  lemma LaidOutIff(r: Properties)
    requires r.cbBuffer > 0 && r.cbPrefix >= 0 && r.cbAlign > 0
    ensures LaidOut(r) <==>
      if r.cbBuffer + r.cbPrefix <= MAXLONG then LeastMultiple(r.cbBuffer + r.cbPrefix, r.cbAlign) <= MAXLONG
      else TWO32 - (r.cbBuffer + r.cbPrefix) < r.cbAlign && r.cbPrefix < r.cbAlign
  {
    hide LaidOut, LeastMultiple;
    if r.cbBuffer + r.cbPrefix <= MAXLONG {
      FittingLaidOutIff(r);
    } else {
      WrappedLaidOutIff(r);
    }
  }

  /** There is a block for so many samples of that size: what Alloc needs when it has to build. */
  predicate Affordable(count: i32, size: i32, prefix: i32, align: i32) {
    && count > 0 && size > 0 && prefix >= 0 && align > 0
    && count * LeastMultiple(size + prefix, align) <= MAXLONG
  }

  /** A request whose sum fits is affordable, once it is settled, exactly when so many times the least
      multiple of the alignment that holds what was asked for fit in a LONG. */
  lemma AffordableIff(r: Properties)
    requires r.cbBuffer > 0 && r.cbPrefix >= 0 && r.cbAlign > 0
    requires r.cbBuffer + r.cbPrefix <= MAXLONG
    ensures Affordable(r.cBuffers, SettledSize(r), r.cbPrefix, r.cbAlign) <==>
      r.cBuffers > 0 && r.cBuffers * LeastMultiple(r.cbBuffer + r.cbPrefix, r.cbAlign) <= MAXLONG
  {
    hide LeastMultiple, SettledSize;
    var m := LeastMultiple(r.cbBuffer + r.cbPrefix, r.cbAlign);
    SettledFitting(r);
    if r.cBuffers > 0 {
      MulMonotone(1, m, r.cBuffers, m);
      if SettledSize(r) > 0 {
        SameMultiple(m, r.cbAlign, m);
      }
    }
  }

  /** A negative number is its own remainder exactly when it is above the negated divisor. */
  lemma NegativeRemainder(n: int, c: int)
    requires n < 0 < c
    ensures TruncMod(n, c) == n <==> -n < c
  {
    hide Abs;
    var q := Abs(n) / c;
    assert Abs(n) == -n && Abs(c) == c by { AbsIs(n); AbsIs(c); }
    assert -n == c * q + (-n) % c;
    assert TruncDiv(n, c) == -q;
    assert c * (-q) == -(c * q);
    if q >= 1 {
      MulMonotone(c, 1, c, q);
    }
  }

  /** A request that is accepted and laid out with less than it asked for. */
  lemma TooSmallBuffer()
    ensures var r := Properties(1, 0x7FFF_FFFF, 0x7FFF_0000, 0x7000_0000);
      && AlignmentAccepted(0x1_0000, r.cbAlign)
      && SettledSize(r) == 0x0FFF_0000
      && AlignedSize(SettledSize(r), r.cbPrefix, r.cbAlign) == Some(r.cbAlign)
  {
    hide TruncMod, BitAnd, Pow2;
    LargeAlignmentAccepted();
    assert TruncMod(-0x1000_0001, 0x7FFF_0000) == -0x1000_0001 by { LargeRemainders(); }
    assert TruncMod(0x7FFF_0000, 0x7FFF_0000) == 0 by { LargeRemainders(); }
  }

  lemma LargeRemainders()
    ensures TruncMod(-0x1000_0001, 0x7FFF_0000) == -0x1000_0001
    ensures TruncMod(0x7FFF_0000, 0x7FFF_0000) == 0
  {
  }

  lemma LargeAlignmentAccepted()
    ensures BitAnd(0x1_0000, 0x7FFE_FFFF) == 0
  {
    hide BitAnd, Pow2;
    Pow2Is16();
    ClearBit(16, 0x7FFE_FFFF);
  }

  // ----- The tiling -----

  /** The k-th of the regions that are aligned bytes long: a sample with its prefix. */
  predicate InRegion(x: int, k: int, aligned: int) {
    k * aligned <= x < (k + 1) * aligned
  }

  /** The regions of count samples tile a block of count * aligned bytes: each byte is in exactly
      one of them and they hold no other byte. */
  lemma RegionsTile(count: nat, aligned: int, x: int)
    requires aligned > 0
    ensures 0 <= x < count * aligned ==> 0 <= x / aligned < count
    ensures forall k :: 0 <= k < count ==>
      (InRegion(x, k, aligned) <==> 0 <= x < count * aligned && k == x / aligned)
  {
    if 0 <= x < count * aligned {
      QuotientBelow(x, aligned, count);
    }
    forall k | 0 <= k < count
      ensures InRegion(x, k, aligned) <==> 0 <= x < count * aligned && k == x / aligned
    {
      OneRegion(count, aligned, x, k);
    }
  }

  lemma OneRegion(count: nat, aligned: int, x: int, k: int)
    requires aligned > 0 && 0 <= k < count
    ensures InRegion(x, k, aligned) <==> 0 <= x < count * aligned && k == x / aligned
  {
    assert (k + 1) * aligned == k * aligned + aligned;
    if InRegion(x, k, aligned) {
      assert (k + 1) * aligned <= count * aligned by { MulMonotone(k + 1, aligned, count, aligned); }
      assert 0 <= k * aligned by { MulMonotone(0, 0, k, aligned); }
      assert k == x / aligned by { QuotientUnique(x, k, aligned, x - k * aligned); }
    }
    if 0 <= x && k == x / aligned {
      assert x == aligned * (x / aligned) + x % aligned;
    }
  }

  // ----- Which alignments keep their promise in memory -----

  /** And-ing with a power of two looks at one bit. */
  lemma {:induction false} ClearBit(k: nat, x: nat)
    ensures BitAnd(Pow2(k), x) == 0 <==> (x / Pow2(k)) % 2 == 0
  {
    if x == 0 {
    } else if k > 0 {
      ClearBit(k - 1, x / 2);
      assert Pow2(k) % 2 == 0 && Pow2(k) / 2 == Pow2(k - 1);
      HalfThenQuotient(x, Pow2(k - 1));
      assert BitAnd(Pow2(k), x) == 2 * BitAnd(Pow2(k - 1), x / 2);
    } else {
      assert BitAnd(0, x / 2) == 0;
    }
  }

  lemma HalfThenQuotient(x: nat, b: nat)
    requires b > 0
    ensures x / 2 / b == x / (2 * b)
  {
    var h := x / 2;
    var q, m := h / b, h % b;
    assert h == b * q + m;
    var r := 2 * m + x % 2;
    assert x == q * (2 * b) + r by {
      assert 2 * (b * q) == q * (2 * b);
    }
    QuotientUnique(x, q, 2 * b, r);
  }

  /** Among the powers of two, the test lets through the divisors of the granularity. */
  lemma PowerAcceptedIff(k: nat, j: nat)
    requires Pow2(k) < TWO32 && Pow2(j) <= MAXLONG
    ensures AlignmentAccepted(Pow2(k), Pow2(j)) <==> j <= k
    ensures j <= k <==> Pow2(k) % Pow2(j) == 0
  {
    hide BitAnd, Pow2;
    var x := Pow2(j) - 1;
    assert ToU32(x) == x;
    ClearBit(k, x);
    if j <= k {
      SmallerPower(j, k);
    } else {
      LargerPower(j, k);
    }
  }

  lemma SmallerPower(j: nat, k: nat)
    requires j <= k
    ensures Pow2(k) % Pow2(j) == 0 && (Pow2(j) - 1) / Pow2(k) == 0
  {
    hide Pow2;
    Pow2Adds(j, k - j);
    Divides(Pow2(j), Pow2(k - j), Pow2(k));
  }

  lemma Divides(c: nat, d: nat, product: nat)
    requires c > 0 && d > 0 && product == c * d
    ensures product > 0 && product % c == 0 && (c - 1) / product == 0
  {
    MulMonotone(c, 1, c, d);
    QuotientUnique(product, d, c, 0);
    QuotientUnique(c - 1, 0, product, c - 1);
  }

  lemma LargerPower(j: nat, k: nat)
    requires j > k
    ensures Pow2(k) % Pow2(j) != 0 && (Pow2(j) - 1) / Pow2(k) % 2 == 1
  {
    Pow2Adds(j - k - 1, k + 1);
    assert Pow2(k + 1) == 2 * Pow2(k);
    hide Pow2;
    EvenMultiple(Pow2(k), Pow2(j - k - 1), Pow2(j));
  }

  lemma EvenMultiple(c: nat, m: nat, product: nat)
    requires c > 0 && m > 0 && product == m * (2 * c)
    ensures product > 0 && c % product != 0 && (product - 1) / c % 2 == 1
  {
    assert product == (2 * m) * c;
    assert product - 1 == (2 * m - 1) * c + (c - 1);
    MulMonotone(2, c, 2 * m, c);
    QuotientUnique(product - 1, 2 * m - 1, c, c - 1);
    QuotientUnique(c, 0, product, c);
  }

  /** Only the powers of two divide a power of two. */
  lemma {:induction false} DivisorOfPower(a: nat, b: nat, k: nat) returns (j: nat)
    requires a * b == Pow2(k)
    ensures j <= k && a == Pow2(j)
  {
    j := 0;
    if k == 0 {
      OneTimesOne(a, b);
    } else if a % 2 == 0 {
      HalvedFactor(a, b, Pow2(k - 1));
      j := DivisorOfPower(a / 2, b, k - 1);
      j := j + 1;
    } else {
      OddTimesOdd(a, b);
      HalvedFactor(b, a, Pow2(k - 1));
      j := DivisorOfPower(a, b / 2, k - 1);
    }
  }

  lemma OneTimesOne(a: nat, b: nat)
    requires a * b == 1
    ensures a == 1
  {
    if a > 1 && b >= 1 {
      MulMonotone(2, 1, a, b);
    }
  }

  lemma HalvedFactor(a: nat, b: nat, product: nat)
    requires a % 2 == 0 && a * b == 2 * product
    ensures (a / 2) * b == product && b * (a / 2) == product
  {
    var h := a / 2;
    assert a == 2 * h;
    assert 2 * h * b == 2 * (h * b);
  }

  lemma OddTimesOdd(a: nat, b: nat)
    requires a % 2 == 1 && a * b % 2 == 0
    ensures b % 2 == 0
  {
    var h := a / 2;
    assert a == 2 * h + 1;
    assert (2 * h + 1) * b == 2 * (h * b) + b;
  }

  /** Every region starts at a multiple of a, wherever a block that begins at a multiple of the
      granularity lies. */
  ghost predicate StartsAligned(granularity: nat, a: int)
    requires a > 0
  {
    forall n: nat, i: nat, aligned: nat | aligned % a == 0 :: (n * granularity + i * aligned) % a == 0
  }

  lemma DivisorAligns(granularity: nat, a: int)
    requires a > 0 && granularity % a == 0
    ensures StartsAligned(granularity, a)
  {
    forall n: nat, i: nat, aligned: nat | aligned % a == 0
      ensures (n * granularity + i * aligned) % a == 0
    {
      SumOfMultiples(n, granularity, i, aligned, a);
    }
  }

  lemma AlignsOnlyIfDivisor(granularity: nat, a: int)
    requires a > 0 && StartsAligned(granularity, a)
    ensures granularity % a == 0 && granularity == a * (granularity / a)
  {
    var n, i, aligned := 1, 0, 0;
    assert aligned % a == 0;
    assert (n * granularity + i * aligned) % a == 0;
    assert n * granularity + i * aligned == granularity;
  }

  /** An accepted alignment is kept at every start exactly when it is a power of two: the others
      are logged by the source, not refused. */
  lemma AcceptedAlignmentHoldsIff(k: nat, a: i32)
    requires Pow2(k) < TWO32 && a > 0 && AlignmentAccepted(Pow2(k), a)
    ensures StartsAligned(Pow2(k), a) <==> exists j: nat :: Pow2(j) == a
  {
    hide BitAnd, Pow2, StartsAligned;
    if j: nat :| Pow2(j) == a {
      PowerAcceptedIff(k, j);
      DivisorAligns(Pow2(k), a);
    }
    if StartsAligned(Pow2(k), a) {
      AlignsOnlyIfDivisor(Pow2(k), a);
      var j := DivisorOfPower(a, Pow2(k) / a, k);
      assert Pow2(j) == a;
    }
  }

  lemma SumOfMultiples(n: nat, g: nat, i: nat, s: nat, a: int)
    requires a > 0 && g % a == 0 && s % a == 0
    ensures (n * g + i * s) % a == 0
  {
    var u, v := g / a, s / a;
    assert g == a * u && s == a * v;
    var q := n * u + i * v;
    assert n * g + i * s == q * a by {
      assert n * (a * u) == (n * u) * a;
      assert i * (a * v) == (i * v) * a;
    }
    QuotientUnique(n * g + i * s, q, a, 0);
  }
}
