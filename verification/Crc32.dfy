/** CRC-32 (IEEE 802.3) written twice: by table in the packager, bit by bit in the
    bug report. */
module Crc32 {
  import opened Words

  const POLYNOMIAL: bv32 := 0xEDB8_8320

  /** One shift as the table builder writes it. */
  function Shift(c: bv32): bv32 {
    if Odd(c) then Xor(POLYNOMIAL, Half(c)) else Half(c)
  }

  predicate Odd(c: bv32) {
    c & 1 != 0
  }

  function Half(c: bv32): bv32 {
    c >> 1
  }

  function Xor(a: bv32, b: bv32): bv32 {
    a ^ b
  }

  /** One shift as the bug report writes it: the low bit negated to a mask. */
  function MaskedShift(c: bv32): bv32 {
    (c >> 1) ^ (POLYNOMIAL & (0 - (c & 1)))
  }

  lemma ShiftsAgree(c: bv32)
    ensures Shift(c) == MaskedShift(c)
  {
    assert c & 1 == 0 || c & 1 == 1;
  }

  function Shifts(c: bv32, n: nat): bv32
    decreases n
  {
    if n == 0 then c else Shifts(Shift(c), n - 1)
  }

  lemma OddXor(x: bv32, y: bv32)
    ensures Odd(Xor(x, y)) <==> Odd(x) != Odd(y)
  {
    assert x & 1 == 0 || x & 1 == 1;
    assert y & 1 == 0 || y & 1 == 1;
    assert (x ^ y) & 1 == (x & 1) ^ (y & 1);
  }

  lemma HalfXor(x: bv32, y: bv32)
    ensures Half(Xor(x, y)) == Xor(Half(x), Half(y))
  {
  }

  lemma XorAssociates(p: bv32, a: bv32, b: bv32)
    ensures Xor(p, Xor(a, b)) == Xor(Xor(p, a), b)
  {
  }

  lemma XorMoves(p: bv32, a: bv32, b: bv32)
    ensures Xor(p, Xor(a, b)) == Xor(a, Xor(p, b))
  {
  }

  lemma XorUndoes(p: bv32, c: bv32)
    ensures Xor(p, Xor(p, c)) == c
  {
  }

  lemma XorCancels(p: bv32, a: bv32, b: bv32)
    ensures Xor(Xor(p, a), Xor(p, b)) == Xor(a, b)
  {
    hide Xor;
    XorMoves(Xor(p, a), p, b);
    XorAssociates(p, a, b);
    XorUndoes(p, Xor(a, b));
  }

  lemma ShiftIsLinear(x: bv32, y: bv32)
    ensures Shift(Xor(x, y)) == Xor(Shift(x), Shift(y))
  {
    hide Odd, Half, Xor;
    OddXor(x, y);
    HalfXor(x, y);
    XorAssociates(POLYNOMIAL, Half(x), Half(y));
    XorMoves(POLYNOMIAL, Half(x), Half(y));
    XorCancels(POLYNOMIAL, Half(x), Half(y));
  }

  lemma {:induction false} ShiftsAreLinear(x: bv32, y: bv32, n: nat)
    ensures Shifts(Xor(x, y), n) == Xor(Shifts(x, n), Shifts(y, n))
    decreases n
  {
    hide Shift, Xor;
    if n > 0 {
      ShiftIsLinear(x, y);
      ShiftsAreLinear(Shift(x), Shift(y), n - 1);
    }
  }

  /** While the low bits are clear, eight shifts only shift. */
  lemma HighBitsOnlyShift(c: bv32)
    ensures Shifts(c & 0xFFFF_FF00, 8) == c >> 8
  {
    var x := c & 0xFFFF_FF00;
    ClearBits(x);
    assert Shifts(x, 8) == Shifts(x >> 1, 7) == Shifts(x >> 2, 6) == Shifts(x >> 3, 5) == Shifts(x >> 4, 4);
    assert Shifts(x >> 4, 4) == Shifts(x >> 5, 3) == Shifts(x >> 6, 2) == Shifts(x >> 7, 1) == x >> 8;
  }

  lemma ClearBits(x: bv32)
    requires x & 0xFF == 0
    ensures Shift(x) == x >> 1 && Shift(x >> 1) == x >> 2 && Shift(x >> 2) == x >> 3 && Shift(x >> 3) == x >> 4
    ensures Shift(x >> 4) == x >> 5 && Shift(x >> 5) == x >> 6 && Shift(x >> 6) == x >> 7 && Shift(x >> 7) == x >> 8
  {
  }

  // ---------------------------------------------------------------- the checksum

  /** One byte folded in, as the bug report does: xor, then eight shifts. */
  function Fold(crc: bv32, b: bv8): bv32 {
    Shifts(Xor(crc, b as bv32), 8)
  }

  function FoldAll(crc: bv32, data: Bytes): bv32 {
    if data == [] then crc else Fold(FoldAll(crc, data[..|data| - 1]), data[|data| - 1])
  }

  function Checksum(data: Bytes): bv32 {
    !FoldAll(0xFFFF_FFFF, data)
  }

  /** The low byte of a word. */
  function LowByte(c: bv32): bv8 {
    (c & 0xFF) as bv8
  }

  lemma SplitWord(v: bv32)
    ensures Xor(LowByte(v) as bv32, v & 0xFFFF_FF00) == v
  {
  }

  lemma UpperOfXor(crc: bv32, b: bv8)
    ensures Xor(crc, b as bv32) >> 8 == crc >> 8
  {
  }

  /** Eight shifts of a byte's worth of word, looked up, and the rest shifted. */
  lemma TableStep(crc: bv32, b: bv8)
    ensures Fold(crc, b) == Xor(Shifts(LowByte(Xor(crc, b as bv32)) as bv32, 8), crc >> 8)
  {
    var v := Xor(crc, b as bv32);
    SplitWord(v);
    UpperOfXor(crc, b);
    HighBitsOnlyShift(v);
    hide Xor, LowByte, Shifts;
    ShiftsAreLinear(LowByte(v) as bv32, v & 0xFFFF_FF00, 8);
  }

  lemma FoldOne(crc: bv32, data: Bytes, i: nat)
    requires i < |data|
    ensures FoldAll(crc, data[..i + 1]) == Fold(FoldAll(crc, data[..i]), data[i])
  {
    assert data[..i + 1][..i] == data[..i];
  }

  /** crc32 of crates/fluxd/src/bugreport.rs. */
  method BitwiseCrc32(data: Bytes) returns (r: bv32)
    ensures r == Checksum(data)
  {
    hide Xor, Fold, FoldAll;
    var crc: bv32 := 0xFFFF_FFFF;
    assert crc == FoldAll(0xFFFF_FFFF, data[..0]) by { FoldNone(data); }
    for i := 0 to |data|
      invariant crc == FoldAll(0xFFFF_FFFF, data[..i])
    {
      FoldOne(0xFFFF_FFFF, data, i);
      crc := EightMaskedShifts(Xor(crc, data[i] as bv32));
      FoldIs(FoldAll(0xFFFF_FFFF, data[..i]), data[i]);
    }
    assert data[..|data|] == data;
    return !crc;
  }

  lemma FoldNone(data: Bytes)
    ensures FoldAll(0xFFFF_FFFF, data[..0]) == 0xFFFF_FFFF
  {
  }

  lemma FoldIs(crc: bv32, b: bv8)
    ensures Fold(crc, b) == Shifts(Xor(crc, b as bv32), 8)
  {
  }

  method EightMaskedShifts(c: bv32) returns (r: bv32)
    ensures r == Shifts(c, 8)
  {
    hide Shift, MaskedShift;
    r := c;
    for k := 0 to 8
      invariant Shifts(c, 8) == Shifts(r, 8 - k)
    {
      ShiftsAgree(r);
      r := MaskedShift(r);
    }
  }

  method EightShifts(c: bv32) returns (r: bv32)
    ensures r == Shifts(c, 8)
  {
    hide Shift;
    r := c;
    for k := 0 to 8
      invariant Shifts(c, 8) == Shifts(r, 8 - k)
    {
      r := Shift(r);
    }
  }

  /** crc32 of xtask/src/zip.rs. */
  method TableCrc32(data: Bytes) returns (r: bv32)
    ensures r == Checksum(data)
  {
    hide Xor, Fold, FoldAll, Shifts, LowByte;
    var table := new bv32[256];
    for i := 0 to 256
      invariant forall k :: 0 <= k < i ==> table[k] == Shifts(ByteOf(k) as bv32, 8)
    {
      var c := EightShifts(ByteOf(i) as bv32);
      table[i] := c;
    }
    var crc: bv32 := 0xFFFF_FFFF;
    assert crc == FoldAll(0xFFFF_FFFF, data[..0]) by { FoldNone(data); }
    for i := 0 to |data|
      invariant forall k :: 0 <= k < 256 ==> table[k] == Shifts(ByteOf(k) as bv32, 8)
      invariant crc == FoldAll(0xFFFF_FFFF, data[..i])
    {
      var low := LowByte(Xor(crc, data[i] as bv32));
      ByteIndex(low);
      TableStep(crc, data[i]);
      FoldOne(0xFFFF_FFFF, data, i);
      crc := Xor(table[low as nat], crc >> 8);
    }
    assert data[..|data|] == data;
    return !crc;
  }

  lemma ByteIndex(b: bv8)
    ensures 0 <= b as nat < 256 && ByteOf(b as nat) == b
  {
    ByteRoundTrip(b as nat);
  }

  // --------------------------------------------------------- as long division

  // x^32 + x^26 + x^23 + x^22 + x^16 + x^12 + x^11 + x^10 + x^8 + x^7 + x^5 + x^4 + x^2 + x + 1,
  // the leading term left out.
  const GENERATOR: bv32 := 0x04C1_1DB7

  /** One step of long division by the generator, highest power first. */
  function Divide(r: bv32, bit: bool): bv32 {
    if TopBit(r) != bit then Xor(Twice(r), GENERATOR) else Twice(r)
  }

  predicate TopBit(r: bv32) {
    r >> 31 == 1
  }

  function Twice(r: bv32): bv32 {
    r << 1
  }

  function Remainder(r: bv32, bits: seq<bool>): bv32
    decreases |bits|
  {
    if bits == [] then r else Remainder(Divide(r, bits[0]), bits[1..])
  }

  /** The lowest n bits of a byte, lowest first, as they are sent. */
  function Bits(b: bv8, n: nat): (r: seq<bool>)
    ensures |r| == n
    decreases n
  {
    if n == 0 then [] else [b & 1 == 1] + Bits(b >> 1, n - 1)
  }

  function AllBits(data: Bytes): seq<bool> {
    if data == [] then [] else AllBits(data[..|data| - 1]) + Bits(data[|data| - 1], 8)
  }

  /** A word read from its other end. */
  function Mirror(x: bv32): bv32 {
    var a := ((x & 0x5555_5555) << 1) | ((x >> 1) & 0x5555_5555);
    var b := ((a & 0x3333_3333) << 2) | ((a >> 2) & 0x3333_3333);
    var c := ((b & 0x0F0F_0F0F) << 4) | ((b >> 4) & 0x0F0F_0F0F);
    var d := ((c & 0x00FF_00FF) << 8) | ((c >> 8) & 0x00FF_00FF);
    (d << 16) | (d >> 16)
  }

  lemma MirrorWords(x: bv32, y: bv32)
    ensures Mirror(x ^ y) == Mirror(x) ^ Mirror(y) && Mirror(x << 1) == Mirror(x) >> 1
    ensures (x >> 31 == 1) <==> Mirror(x) & 1 == 1
    ensures Mirror(GENERATOR) == POLYNOMIAL && Mirror(0xFFFF_FFFF) == 0xFFFF_FFFF
  {
  }

  lemma MirrorXor(x: bv32, y: bv32)
    ensures Mirror(Xor(x, y)) == Xor(Mirror(x), Mirror(y))
  {
    MirrorWords(x, y);
    hide Mirror;
  }

  lemma MirrorTwice(x: bv32)
    ensures Mirror(Twice(x)) == Half(Mirror(x)) && (TopBit(x) <==> Mirror(x) & 1 == 1)
  {
    MirrorWords(x, x);
    hide Mirror;
  }

  lemma OddIsLowBit(m: bv32)
    ensures Odd(m) <==> m & 1 == 1
  {
  }

  /** One bit of the register form is one step of the division, mirrored. */
  lemma DivideMirrored(r: bv32, bit: bool)
    ensures Mirror(Divide(r, bit)) == Shift(Xor(Mirror(r), if bit then 1 else 0))
  {
    MirrorXor(Twice(r), GENERATOR);
    MirrorTwice(r);
    MirrorWords(r, r);
    OddIsLowBit(Mirror(r));
    LowBitAlone(Mirror(r));
    hide Mirror, Xor, Half, Twice, TopBit, Odd;
  }

  lemma LowBitAlone(m: bv32)
    ensures Half(Xor(m, 1)) == Half(m) && Xor(m, 0) == m && Xor(POLYNOMIAL, Half(m)) == Xor(Half(m), POLYNOMIAL)
    ensures Odd(Xor(m, 1)) == !Odd(m)
  {
  }

  lemma EvenPartWaits(c: bv32, b: bv8)
    ensures Shift(Xor(c, b as bv32)) == Xor(Shift(Xor(c, if b & 1 == 1 then 1 else 0)), (b >> 1) as bv32)
  {
    var x: bv32 := b as bv32;
    var low: bv32 := if b & 1 == 1 then 1 else 0;
    ByteParts(b);
    EvenPart(c, x, low);
  }

  lemma ByteParts(b: bv8)
    ensures (b as bv32) & 1 == (if b & 1 == 1 then 1 else 0) && ((b >> 1) as bv32) == (b as bv32) >> 1
  {
  }

  lemma EvenPart(c: bv32, x: bv32, low: bv32)
    requires x & 1 == low
    ensures Shift(Xor(c, x)) == Xor(Shift(Xor(c, low)), x >> 1)
  {
    OddXor(c, x);
    OddXor(c, low);
    EvenHalf(c, x, low);
    XorAssociates(POLYNOMIAL, Half(Xor(c, low)), x >> 1);
    hide Half, Xor;
  }

  lemma EvenHalf(c: bv32, x: bv32, low: bv32)
    requires x & 1 == low
    ensures Half(Xor(c, x)) == Xor(Half(Xor(c, low)), x >> 1) && Odd(low) == Odd(x)
  {
  }

  /** Eight shifts after the byte is added are eight steps with its bits. */
  lemma {:induction false} ShiftsAreSteps(r: bv32, b: bv8, n: nat)
    requires n <= 8 && (b as nat) < Power(n)
    ensures Mirror(Remainder(r, Bits(b, n))) == Shifts(Xor(Mirror(r), b as bv32), n)
    decreases n
  {
    hide Mirror, Divide, Shift, Xor;
    if n == 0 {
      XorZero(Mirror(r), b);
    } else {
      var bit := b & 1 == 1;
      HalfByte(b, n);
      ShiftsAreSteps(Divide(r, bit), b >> 1, n - 1);
      DivideMirrored(r, bit);
      EvenPartWaits(Mirror(r), b);
    }
  }

  function Power(n: nat): nat {
    if n == 0 then 1 else 2 * Power(n - 1)
  }

  lemma XorZero(c: bv32, b: bv8)
    requires (b as nat) < 1
    ensures Xor(c, b as bv32) == c
  {
    assert b == 0;
  }

  lemma HalfByte(b: bv8, n: nat)
    requires 0 < n && (b as nat) < Power(n)
    ensures ((b >> 1) as nat) < Power(n - 1)
  {
    assert (b >> 1) as nat == b as nat / 2;
  }

  lemma {:induction false} RemainderSplits(r: bv32, a: seq<bool>, b: seq<bool>)
    ensures Remainder(r, a + b) == Remainder(Remainder(r, a), b)
    decreases |a|
  {
    hide Divide;
    if a == [] {
      assert a + b == b;
    } else {
      assert (a + b)[1..] == a[1..] + b;
      RemainderSplits(Divide(r, a[0]), a[1..], b);
    }
  }

  lemma {:induction false} FoldIsRemainder(data: Bytes)
    ensures FoldAll(0xFFFF_FFFF, data) == Mirror(Remainder(0xFFFF_FFFF, AllBits(data)))
  {
    hide Mirror, Divide, Shift, Xor, Fold, Bits, Shifts;
    if data == [] {
      MirrorWords(0, 0);
    } else {
      var front, b := data[..|data| - 1], data[|data| - 1];
      FoldIsRemainder(front);
      RemainderSplits(0xFFFF_FFFF, AllBits(front), Bits(b, 8));
      AnyByte(b);
      ShiftsAreSteps(Remainder(0xFFFF_FFFF, AllBits(front)), b, 8);
      FoldOne(0xFFFF_FFFF, data, |front|);
      assert data[..|data|] == data;
      FoldIs(FoldAll(0xFFFF_FFFF, front), b);
    }
  }

  /** The checksum is the remainder of the message, its bits in the order they are sent,
      in long division by the generator; it starts from ones and ends complemented. */
  lemma ChecksumIsRemainder(data: Bytes)
    ensures Checksum(data) == !Mirror(Remainder(0xFFFF_FFFF, AllBits(data)))
  {
    FoldIsRemainder(data);
    hide Mirror, FoldAll, Remainder, AllBits;
  }

  lemma AnyByte(b: bv8)
    ensures (b as nat) < Power(8)
  {
    assert Power(8) == 256;
  }
}
