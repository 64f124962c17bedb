/** Big-endian byte fields: what AS_Bytestream and the FLV tag headers write and read. */
module BigEndian {
  import opened Words

  type Bytes = seq<u8>

  function BE16(x: u16): (r: Bytes)
    ensures |r| == 2
  {
    [x / 0x100, x % 0x100]
  }

  function BE24(x: nat): (r: Bytes)
    requires x < TWO24
    ensures |r| == 3
  {
    [x / 0x1_0000, x / 0x100 % 0x100, x % 0x100]
  }

  function BE32(x: u32): (r: Bytes)
    ensures |r| == 4
  {
    BE16(x / 0x1_0000) + BE16(x % 0x1_0000)
  }

  function BE64(x: u64): (r: Bytes)
    ensures |r| == 8
  {
    BE32(x / TWO32) + BE32(x % TWO32)
  }

  function U16At(s: Bytes): u16
    requires |s| >= 2
  {
    (s[0] as int) * 0x100 + s[1]
  }

  function U24At(s: Bytes): (r: nat)
    requires |s| >= 3
    ensures r < TWO24
  {
    (s[0] as int) * 0x1_0000 + (s[1] as int) * 0x100 + s[2]
  }

  function U32At(s: Bytes): u32
    requires |s| >= 4
  {
    (s[0] as int) * 0x100_0000 + (s[1] as int) * 0x1_0000 + (s[2] as int) * 0x100 + s[3]
  }

  function U64At(s: Bytes): u64
    requires |s| >= 8
  {
    U32At(s[..4]) * TWO32 + U32At(s[4..8])
  }

  /** The reading of a field is the value written, whatever bytes follow it. */
  lemma Read16(x: u16, s: Bytes)
    ensures U16At(BE16(x) + s) == x && (BE16(x) + s)[2..] == s
  {
  }

  lemma Read24(x: nat, s: Bytes)
    requires x < TWO24
    ensures U24At(BE24(x) + s) == x && (BE24(x) + s)[3..] == s
  {
    var y := x / 0x100;
    assert x / 0x1_0000 == y / 0x100;
    assert x == (y / 0x100) * 0x1_0000 + (y % 0x100) * 0x100 + x % 0x100;
  }

  lemma Read32(x: u32, s: Bytes)
    ensures U32At(BE32(x) + s) == x && (BE32(x) + s)[4..] == s
  {
    var t := BE32(x) + s;
    assert t[0] == x / 0x1_0000 / 0x100 && t[1] == x / 0x1_0000 % 0x100;
    assert t[2] == x % 0x1_0000 / 0x100 && t[3] == x % 0x1_0000 % 0x100;
  }

  lemma Read64(x: u64, s: Bytes)
    ensures U64At(BE64(x) + s) == x && (BE64(x) + s)[8..] == s
  {
    var t := BE64(x) + s;
    assert t[..4] == BE32(x / TWO32) + [] && t[4..8] == BE32(x % TWO32) + [];
    Read32(x / TWO32, []);
    Read32(x % TWO32, []);
  }

  /** Writing back what was read gives the same bytes. */
  lemma Write32(s: Bytes)
    requires |s| == 4
    ensures BE32(U32At(s)) == s
  {
    var x := U32At(s);
    assert x / 0x1_0000 == (s[0] as int) * 0x100 + s[1];
    assert x % 0x1_0000 == (s[2] as int) * 0x100 + s[3];
  }

  lemma Write64(s: Bytes)
    requires |s| == 8
    ensures BE64(U64At(s)) == s
  {
    hide BE32, U32At;
    Write32(s[..4]);
    Write32(s[4..]);
    assert s == s[..4] + s[4..];
    assert s[4..8] == s[4..];
  }

  /** A signed 16-bit value in its field, and back. */
  function I16(x: u16): int {
    if x < 0x8000 then x else x - 0x1_0000
  }

  // ----- Fields by index -----

  /** The n bytes from at on as a number: each weighs 256 times as much as the one behind it. */
  function Number(b: Bytes, at: nat, n: nat): nat
    requires at + n <= |b|
  {
    if n == 0 then 0 else 0x100 * Number(b, at, n - 1) + b[at + n - 1]
  }

  predicate TextAt(b: Bytes, at: nat, text: Bytes) {
    at + |text| <= |b| && forall i :: 0 <= i < |text| ==> b[at + i] == text[i]
  }

  lemma TextIsSlice(b: Bytes, at: nat, text: Bytes)
    requires at + |text| <= |b|
    ensures TextAt(b, at, text) <==> b[at..at + |text|] == text
  {
    if TextAt(b, at, text) {
      assert b[at..at + |text|] == text;
    } else {
      var i :| 0 <= i < |text| && b[at + i] != text[i];
      assert b[at..at + |text|][i] == b[at + i];
    }
  }

  lemma NumberOfTwo(b: Bytes, at: nat)
    requires at + 2 <= |b|
    ensures Number(b, at, 1) == b[at] && Number(b, at, 2) == 0x100 * b[at] + b[at + 1] < TWO16
  {
    assert Number(b, at, 0) == 0;
  }

  lemma NumberOfFour(b: Bytes, at: nat)
    requires at + 4 <= |b|
    ensures Number(b, at, 4) == TWO16 * Number(b, at, 2) + Number(b, at + 2, 2) < TWO32
  {
    NumberOfTwo(b, at);
    NumberOfTwo(b, at + 2);
    assert Number(b, at, 3) == 0x100 * Number(b, at, 2) + b[at + 2];
  }

  lemma NumberOfEight(b: Bytes, at: nat)
    requires at + 8 <= |b|
    ensures Number(b, at, 8) == TWO32 * Number(b, at, 4) + Number(b, at + 4, 4) < TWO64
  {
    NumberOfFour(b, at);
    NumberOfFour(b, at + 4);
    NumberOfTwo(b, at + 4);
    assert Number(b, at, 5) == 0x100 * Number(b, at, 4) + b[at + 4];
    assert Number(b, at, 6) == 0x100 * Number(b, at, 5) + b[at + 5];
    assert Number(b, at, 7) == 0x100 * Number(b, at, 6) + b[at + 6];
    assert Number(b, at + 4, 3) == 0x100 * Number(b, at + 4, 2) + b[at + 6];
  }

  lemma NumberOfThree(b: Bytes, at: nat)
    requires at + 3 <= |b|
    ensures Number(b, at, 3) == 0x100 * Number(b, at, 2) + b[at + 2] < TWO24
  {
    NumberOfTwo(b, at);
  }

  /** A field holds a number exactly when its bytes are those that are written for it. */
  lemma Number16Iff(b: Bytes, at: nat, x: u16)
    requires at + 2 <= |b|
    ensures Number(b, at, 2) == x <==> b[at..at + 2] == BE16(x)
  {
    NumberOfTwo(b, at);
    assert b[at..at + 2] == [b[at], b[at + 1]];
  }

  lemma Number24Iff(b: Bytes, at: nat, x: nat)
    requires at + 3 <= |b| && x < TWO24
    ensures Number(b, at, 3) == x <==> b[at..at + 3] == BE24(x)
  {
    NumberOfTwo(b, at);
    assert Number(b, at, 3) == 0x100 * Number(b, at, 2) + b[at + 2];
    assert x / 0x1_0000 == x / 0x100 / 0x100;
    assert b[at..at + 3] == [b[at], b[at + 1], b[at + 2]];
  }

  lemma Number32Iff(b: Bytes, at: nat, x: u32)
    requires at + 4 <= |b|
    ensures Number(b, at, 4) == x <==> b[at..at + 4] == BE32(x)
  {
    hide BE16, Number;
    NumberOfFour(b, at);
    NumberOfTwo(b, at);
    NumberOfTwo(b, at + 2);
    Number16Iff(b, at, x / TWO16);
    Number16Iff(b, at + 2, x % TWO16);
    Halves(b[at..at + 4], 2, BE16(x / TWO16), BE16(x % TWO16));
    assert b[at..at + 4][..2] == b[at..at + 2] && b[at..at + 4][2..] == b[at + 2..at + 4];
  }

  lemma Number64Iff(b: Bytes, at: nat, x: u64)
    requires at + 8 <= |b|
    ensures Number(b, at, 8) == x <==> b[at..at + 8] == BE64(x)
  {
    hide BE32, Number;
    NumberOfEight(b, at);
    NumberOfFour(b, at);
    NumberOfFour(b, at + 4);
    Number32Iff(b, at, x / TWO32);
    Number32Iff(b, at + 4, x % TWO32);
    Halves(b[at..at + 8], 4, BE32(x / TWO32), BE32(x % TWO32));
    assert b[at..at + 8][..4] == b[at..at + 4] && b[at..at + 8][4..] == b[at + 4..at + 8];
  }

  lemma Halves(s: Bytes, n: nat, x: Bytes, y: Bytes)
    requires |s| >= n == |x|
    ensures s == x + y <==> s[..n] == x && s[n..] == y
  {
    if s[..n] == x && s[n..] == y {
      assert s == s[..n] + s[n..];
    }
  }

  // ----- Bytes in their place -----

  predicate HoldsAt(b: Bytes, at: nat, s: Bytes) {
    at + |s| <= |b| && b[at..at + |s|] == s
  }

  lemma HoldsParts(b: Bytes, at: nat, s: Bytes, t: Bytes)
    ensures HoldsAt(b, at, s + t) <==> HoldsAt(b, at, s) && HoldsAt(b, at + |s|, t)
  {
    var end := at + |s| + |t|;
    if end <= |b| {
      Halves(b[at..end], |s|, s, t);
      assert b[at..end][..|s|] == b[at..at + |s|] && b[at..end][|s|..] == b[at + |s|..end];
    }
  }

  lemma HoldsByte(b: Bytes, at: nat, x: u8)
    ensures HoldsAt(b, at, [x]) <==> at + 1 <= |b| && b[at] == x
  {
    if at + 1 <= |b| {
      assert b[at..at + 1] == [b[at]];
    }
  }

  lemma Holds16(b: Bytes, at: nat, x: u16)
    ensures HoldsAt(b, at, BE16(x)) <==> at + 2 <= |b| && Number(b, at, 2) == x
  {
    hide BE16, Number;
    if at + 2 <= |b| {
      Number16Iff(b, at, x);
    }
  }

  lemma Holds24(b: Bytes, at: nat, x: nat)
    requires x < TWO24
    ensures HoldsAt(b, at, BE24(x)) <==> at + 3 <= |b| && Number(b, at, 3) == x
  {
    hide BE24, Number;
    if at + 3 <= |b| {
      Number24Iff(b, at, x);
    }
  }

  lemma Holds32(b: Bytes, at: nat, x: u32)
    ensures HoldsAt(b, at, BE32(x)) <==> at + 4 <= |b| && Number(b, at, 4) == x
  {
    hide BE32, Number;
    if at + 4 <= |b| {
      Number32Iff(b, at, x);
    }
  }

  lemma Holds64(b: Bytes, at: nat, x: u64)
    ensures HoldsAt(b, at, BE64(x)) <==> at + 8 <= |b| && Number(b, at, 8) == x
  {
    hide BE64, Number;
    if at + 8 <= |b| {
      Number64Iff(b, at, x);
    }
  }

  lemma HoldsText(b: Bytes, at: nat, text: Bytes)
    ensures HoldsAt(b, at, text) <==> TextAt(b, at, text)
  {
    if at + |text| <= |b| {
      TextIsSlice(b, at, text);
    }
  }
}
