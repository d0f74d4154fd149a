/** CRC-16 as in modules/misc/hss_crc16.c.

    The reference is a serial register with polynomial 0x1021 that takes message bits most
    significant first; the code instead adds a whole byte to the register and shifts eight times. */
module Crc16 {
  import opened ShiftRegister
  import opened Words

  const POLY: bv16 := 0x1021

  // ---------------------------------------------------------------- reference

  function FeedBit(r: bv16, bit: bool): bv16 {
    if (r & 0x8000 == 0x8000) != bit then (r << 1) ^ POLY else r << 1
  }

  /** The top `n` bits of `y`, most significant first. */
  function FeedBits(r: bv16, y: bv16, n: nat): bv16
    decreases n, y
  {
    if n == 0 then r else FeedBits(FeedBit(r, y & 0x8000 == 0x8000), y << 1, n - 1)
  }

  function High(b: byte): bv16 { (b as bv16) << 8 }

  function FeedByte(r: bv16, b: byte): bv16 { FeedBits(r, High(b), 8) }

  /** What `CRC16_calculate(s, |s|)` is meant to return. */
  function Crc(s: seq<byte>): bv16 { Feed(FeedByte, 0, s) }

  // ---------------------------------------------------------------- the code's shift

  function Shift(r: bv16): bv16 {
    if r & 0x8000 == 0x8000 then (r << 1) ^ POLY else r << 1
  }

  function Xor(a: bv16, b: bv16): bv16 { a ^ b }

  function Shifts(r: bv16, n: nat): bv16 { Iter(Shift, r, n) }

  ghost predicate LinearAt(a: bv16, b: bv16) {
    Shift(Xor(a, b)) == Xor(Shift(a), Shift(b))
  }

  lemma XorShiftTopTop(a: bv16, b: bv16)
    requires a & 0x8000 == 0x8000 && b & 0x8000 == 0x8000
    ensures (a ^ b) << 1 == ((a << 1) ^ POLY) ^ ((b << 1) ^ POLY) && (a ^ b) & 0x8000 != 0x8000
  {
  }

  lemma XorShiftOneTop(a: bv16, b: bv16)
    requires a & 0x8000 == 0x8000 && b & 0x8000 != 0x8000
    ensures ((a ^ b) << 1) ^ POLY == ((a << 1) ^ POLY) ^ (b << 1) && (a ^ b) & 0x8000 == 0x8000
  {
  }

  lemma XorShiftNoTop(a: bv16, b: bv16)
    requires a & 0x8000 != 0x8000 && b & 0x8000 != 0x8000
    ensures (a ^ b) << 1 == (a << 1) ^ (b << 1) && (a ^ b) & 0x8000 != 0x8000
  {
  }

  lemma LinearTopTop(a: bv16, b: bv16)
    requires a & 0x8000 == 0x8000 && b & 0x8000 == 0x8000
    ensures LinearAt(a, b)
  {
    XorShiftTopTop(a, b);
  }

  lemma LinearOneTop(a: bv16, b: bv16)
    requires a & 0x8000 == 0x8000 && b & 0x8000 != 0x8000
    ensures LinearAt(a, b)
  {
    XorShiftOneTop(a, b);
  }

  lemma LinearNoTop(a: bv16, b: bv16)
    requires a & 0x8000 != 0x8000 && b & 0x8000 != 0x8000
    ensures LinearAt(a, b)
  {
    XorShiftNoTop(a, b);
  }

  lemma XorSwaps(a: bv16, b: bv16)
    ensures Xor(a, b) == Xor(b, a)
  {
  }

  lemma LinearSwaps(a: bv16, b: bv16)
    requires LinearAt(a, b)
    ensures LinearAt(b, a)
  {
    XorSwaps(a, b); XorSwaps(Shift(a), Shift(b));
  }

  lemma LinearTop(a: bv16, b: bv16)
    requires a & 0x8000 == 0x8000
    ensures LinearAt(a, b)
  {
    if b & 0x8000 == 0x8000 { LinearTopTop(a, b); } else { LinearOneTop(a, b); }
  }

  lemma LinearBottom(a: bv16, b: bv16)
    requires a & 0x8000 != 0x8000
    ensures LinearAt(a, b)
  {
    if b & 0x8000 == 0x8000 { LinearOneTop(b, a); LinearSwaps(b, a); } else { LinearNoTop(a, b); }
  }

  lemma ShiftLinear(a: bv16, b: bv16)
    ensures LinearAt(a, b)
  {
    if a & 0x8000 == 0x8000 { LinearTop(a, b); } else { LinearBottom(a, b); }
  }

  lemma ShiftsLinear(a: bv16, b: bv16, n: nat)
    ensures Shifts(Xor(a, b), n) == Xor(Shifts(a, n), Shifts(b, n))
  {
    forall x, y ensures Shift(Xor(x, y)) == Xor(Shift(x), Shift(y)) { ShiftLinear(x, y); }
    IterLinear(Shift, Xor, a, b, n);
  }

  lemma ShiftZeroOnly(x: bv16)
    requires Shift(x) == 0
    ensures x == 0
  {
  }

  lemma EqualByXor(a: bv16, b: bv16)
    ensures a ^ b == 0 <==> a == b
  {
  }

  lemma XorZero(a: bv16, b: bv16)
    ensures Xor(a, b) == 0 <==> a == b
  {
    EqualByXor(a, b);
  }

  lemma ShiftInjective(a: bv16, b: bv16)
    requires Shift(a) == Shift(b)
    ensures a == b
  {
    ShiftLinear(a, b);
    XorZero(Shift(a), Shift(b));
    ShiftZeroOnly(Xor(a, b));
    XorZero(a, b);
  }

  lemma ShiftsInjective(a: bv16, b: bv16, n: nat)
    requires Shifts(a, n) == Shifts(b, n)
    ensures a == b
  {
    forall x, y ensures Shift(x) == Shift(y) ==> x == y {
      if Shift(x) == Shift(y) { ShiftInjective(x, y); }
    }
    IterInjective(Shift, a, b, n);
  }

  lemma {:induction false} ShiftsZero(n: nat)
    ensures Shifts(0, n) == 0
  {
    if n != 0 { ShiftsZero(n - 1); }
  }

  // ---------------------------------------------------------------- serial feeding is shifting

  lemma FeedBitTop(r: bv16, y: bv16)
    ensures FeedBit(r, y & 0x8000 == 0x8000) == Shift(r ^ (y & 0x8000))
  {
  }

  lemma XorTopBit(r: bv16, y: bv16)
    ensures r ^ y == (r ^ (y & 0x8000)) ^ (y & 0x7FFF)
    ensures (y & 0x7FFF) << 1 == y << 1
    ensures (y & 0x7FFF) & 0x8000 != 0x8000
  {
  }

  lemma FeedBitIsShift(r: bv16, y: bv16)
    ensures Shift(Xor(r, y)) == Xor(FeedBit(r, y & 0x8000 == 0x8000), y << 1)
  {
    FeedBitTop(r, y);
    XorTopBit(r, y);
    ShiftLinear(r ^ (y & 0x8000), y & 0x7FFF);
  }

  function Drop(y: bv16, n: nat): bv16
    decreases n, y
  {
    if n == 0 then y else Drop(y << 1, n - 1)
  }

  lemma {:induction false} FeedBitsAreShifts(r: bv16, y: bv16, n: nat)
    ensures Shifts(Xor(r, y), n) == Xor(FeedBits(r, y, n), Drop(y, n))
    decreases n
  {
    if n != 0 {
      FeedBitIsShift(r, y);
      FeedBitsAreShifts(FeedBit(r, y & 0x8000 == 0x8000), y << 1, n - 1);
    }
  }

  lemma DropFour(y: bv16, n: nat)
    ensures Drop(y, n + 4) == Drop(y << 4, n)
  {
    assert Drop(y, n + 4) == Drop(y << 1, n + 3);
    assert Drop(y << 1, n + 3) == Drop(y << 2, n + 2);
    assert Drop(y << 2, n + 2) == Drop(y << 3, n + 1);
  }

  lemma FeedByteIsShifts(r: bv16, b: byte)
    ensures FeedByte(r, b) == Shifts(Xor(r, High(b)), 8)
  {
    FeedBitsAreShifts(r, High(b), 8);
    DropFour(High(b), 4); DropFour(High(b) << 4, 0);
  }

  /** `CRC16_calculate`. */
  method Calculate(input: seq<byte>) returns (result: bv16)
    ensures result == Crc(input)
  {
    result := 0;
    var n := 0;
    while n < |input|
      invariant n <= |input|
      invariant Feed(FeedByte, result, input[n..]) == Crc(input)
    {
      assert input[n..][1..] == input[n + 1..];
      FeedByteIsShifts(result, input[n]);
      ghost var expected := FeedByte(result, input[n]);
      result := Xor(result, High(input[n]));
      var i := 0;
      while i < 8
        invariant i <= 8
        invariant Shifts(result, 8 - i) == expected
      {
        result := if result & 0x8000 == 0x8000 then (result << 1) ^ POLY else result << 1;
        i := i + 1;
      }
      n := n + 1;
    }
  }

  // ---------------------------------------------------------------- single bytes

  function Bit(i: nat): bv16 {
    if i == 0 then 0x1 else if i == 1 then 0x2 else if i == 2 then 0x4 else if i == 3 then 0x8
    else if i == 4 then 0x10 else if i == 5 then 0x20 else if i == 6 then 0x40
    else 0x80
  }

  function Mask(n: nat): bv16 {
    if n == 0 then 0x0 else if n == 1 then 0x1 else if n == 2 then 0x3 else if n == 3 then 0x7
    else if n == 4 then 0xF else if n == 5 then 0x1F else if n == 6 then 0x3F else if n == 7 then 0x7F
    else 0xFF
  }

  /** The checksums of the bytes with one bit: the polynomial, shifted up and reduced again. */
  function Single(i: nat): bv16 {
    if i == 0 then 0x1021 else if i == 1 then 0x2042 else if i == 2 then 0x4084 else if i == 3 then 0x8108
    else if i == 4 then 0x1231 else if i == 5 then 0x2462 else if i == 6 then 0x48C4
    else 0x9188
  }

  lemma MaskSplits(x: bv16, m: bv16, b: bv16)
    requires m & b == 0
    ensures x & (m | b) == (x & m) ^ (x & b)
  {
  }

  /** The low `n` bits, and bit `i`, at the top of the register. */
  function Under(x: bv16, n: nat): bv16 { (x & Mask(n)) << 8 }

  function Picked(x: bv16, i: nat): bv16 { (x & Bit(i)) << 8 }

  lemma MaskStep(x: bv16, n: nat)
    requires n < 8
    ensures Under(x, n + 1) == Xor(Under(x, n), Picked(x, n))
  {
    MaskSplits(x, Mask(n), Bit(n));
    assert Mask(n + 1) == Mask(n) | Bit(n);
    UpLinear(x & Mask(n), x & Bit(n));
  }

  lemma UpLinear(x: bv16, y: bv16)
    ensures (x ^ y) << 8 == (x << 8) ^ (y << 8)
  {
  }

  lemma SingleBit(i: nat)
    requires i < 8
    ensures Shifts(Bit(i) << 8, 8) == Single(i)
  {
    IterEight(Shift, Bit(i) << 8);
  }

  lemma PickedChecksum(x: bv16, i: nat)
    requires i < 8
    ensures Shifts(Picked(x, i), 8) == if Picked(x, i) != 0 then Single(i) else 0
  {
    SingleBit(i);
    ShiftsZero(8);
    hide Single, Shifts;
    assert x & Bit(i) == 0 || x & Bit(i) == Bit(i);
  }

  function Combined(x: bv16, n: nat): bv16 {
    if n == 0 then 0 else Xor(Combined(x, n - 1), if Picked(x, n - 1) != 0 then Single(n - 1) else 0)
  }

  lemma {:induction false} SinglesCombine(x: bv16, n: nat)
    requires n <= 8
    ensures Shifts(Under(x, n), 8) == Combined(x, n)
    decreases n
  {
    ShiftsZero(8);
    if n == 0 {
      NothingLow(x);
    } else {
      hide Xor, Single, Shifts, Under, Picked;
      SinglesCombine(x, n - 1);
      MaskStep(x, n - 1);
      ShiftsLinear(Under(x, n - 1), Picked(x, n - 1), 8);
      PickedChecksum(x, n - 1);
    }
  }

  lemma NothingLow(x: bv16)
    ensures Under(x, 0) == 0
  {
  }

  /** The checksum of every message of one byte, from those. */
  lemma OneByte(b: byte)
    ensures Crc([b]) == Combined(b as bv16, 8)
  {
    assert [b][1..] == [];
    assert Crc([b]) == Feed(FeedByte, FeedByte(0, b), []);
    FeedByteIsShifts(0, b);
    WholeByte(b as bv16);
    SinglesCombine(b as bv16, 8);
  }

  lemma WholeByte(x: bv16)
    requires x <= 0xFF
    ensures Under(x, 8) == x << 8
  {
  }

  // ---------------------------------------------------------------- a message carrying its own checksum

  function Low(b: byte): bv16 { b as bv16 }

  lemma ShiftsTopZero(y: bv16, n: nat)
    requires y & 0x8000 == 0
    ensures Shifts(y, n + 1) == Shifts(y << 1, n)
  {
  }

  lemma ShiftsFour(y: bv16, n: nat)
    requires y & 0xF000 == 0
    ensures Shifts(y, n + 4) == Shifts(y << 4, n)
  {
    ShiftsTopZero(y, n + 3); ShiftsTopZero(y << 1, n + 2); ShiftsTopZero(y << 2, n + 1); ShiftsTopZero(y << 3, n);
  }

  lemma LowBecomesHigh(b: byte)
    ensures Shifts(Low(b), 8) == High(b)
  {
    ShiftsFour(Low(b), 4); ShiftsFour(Low(b) << 4, 0);
  }

  lemma TwoBytes(r: bv16, a: byte, b: byte)
    ensures FeedByte(FeedByte(r, a), b) == Shifts(Xor(Xor(r, High(a)), Low(b)), 16)
  {
    var x := Xor(r, High(a));
    FeedByteIsShifts(r, a);
    FeedByteIsShifts(FeedByte(r, a), b);
    LowBecomesHigh(b);
    ShiftsLinear(x, Low(b), 8);
    IterAdd(Shift, Xor(x, Low(b)), 8, 8);
  }

  lemma CancelsExactly(r: bv16, a: byte, b: byte)
    ensures Xor(Xor(r, High(a)), Low(b)) == 0 <==> a == (r >> 8) as byte && b == (r & 0xFF) as byte
  {
  }

  lemma SelfCheckStep(r: bv16, a: byte, b: byte)
    ensures FeedByte(FeedByte(r, a), b) == 0 <==> a == (r >> 8) as byte && b == (r & 0xFF) as byte
  {
    var x := Xor(Xor(r, High(a)), Low(b));
    TwoBytes(r, a, b);
    ShiftsZero(16);
    if Shifts(x, 16) == 0 { ShiftsInjective(x, 0, 16); }
    CancelsExactly(r, a, b);
  }

  /** A message followed by two bytes checks to zero exactly when those bytes are the
      message's own checksum, high byte first. */
  lemma SelfCheck(m: seq<byte>, a: byte, b: byte)
    ensures Crc(m + [a, b]) == 0 <==> a == (Crc(m) >> 8) as byte && b == (Crc(m) & 0xFF) as byte
  {
    FeedTwoMore(FeedByte, 0, m, a, b);
    SelfCheckStep(Crc(m), a, b);
  }
}
