/** CRC-32 as in modules/misc/hss_crc32.c: a table built once, then one lookup per byte.

    The reference is the serial register of section 8 of RFC 1952: message bits enter least
    significant first, one per clock, into a 32-bit register with reflected polynomial 0xEDB88320. */
module Crc32 {
  import opened ShiftRegister
  import opened Words

  const POLY: bv32 := 0xEDB8_8320

  // ---------------------------------------------------------------- reference

  /** One clock of the serial register: the outgoing bit, added to the message bit, selects feedback. */
  function FeedBit(c: bv32, bit: bool): bv32 {
    if (c & 1 == 1) != bit then (c >> 1) ^ POLY else c >> 1
  }

  /** The low `n` bits of `b`, least significant first. */
  function FeedBits(c: bv32, b: byte, n: nat): bv32
    decreases n, b
  {
    if n == 0 then c else FeedBits(FeedBit(c, b & 1 == 1), b >> 1, n - 1)
  }

  function FeedByte(c: bv32, b: byte): bv32 { FeedBits(c, b, 8) }

  function Register(c: bv32, s: seq<byte>): bv32 { Feed(FeedByte, c, s) }

  function Not(c: bv32): bv32 { !c }

  /** What `CRC32_calculate_ex(seed, s, |s|)` is meant to return. */
  function Crc(seed: bv32, s: seq<byte>): bv32 {
    Not(Register(Not(seed), s))
  }

  // ---------------------------------------------------------------- the shift that builds the table is linear

  function Shift(c: bv32): bv32 {
    if c & 1 == 1 then (c >> 1) ^ POLY else c >> 1
  }

  function Xor(a: bv32, b: bv32): bv32 { a ^ b }

  function Shifts(c: bv32, n: nat): bv32 { Iter(Shift, c, n) }

  ghost predicate LinearAt(a: bv32, b: bv32) {
    Shift(Xor(a, b)) == Xor(Shift(a), Shift(b))
  }

  lemma XorOddOdd(a: bv32, b: bv32)
    requires a & 1 == 1 && b & 1 == 1
    ensures (a ^ b) >> 1 == ((a >> 1) ^ POLY) ^ ((b >> 1) ^ POLY) && (a ^ b) & 1 != 1
  {
  }

  lemma XorOddEven(a: bv32, b: bv32)
    requires a & 1 == 1 && b & 1 != 1
    ensures ((a ^ b) >> 1) ^ POLY == ((a >> 1) ^ POLY) ^ (b >> 1) && (a ^ b) & 1 == 1
  {
  }

  lemma XorEvenOdd(a: bv32, b: bv32)
    requires a & 1 != 1 && b & 1 == 1
    ensures ((a ^ b) >> 1) ^ POLY == (a >> 1) ^ ((b >> 1) ^ POLY) && (a ^ b) & 1 == 1
  {
  }

  lemma XorEvenEven(a: bv32, b: bv32)
    requires a & 1 != 1 && b & 1 != 1
    ensures (a ^ b) >> 1 == (a >> 1) ^ (b >> 1) && (a ^ b) & 1 != 1
  {
  }

  lemma LinearOddOdd(a: bv32, b: bv32)
    requires a & 1 == 1 && b & 1 == 1
    ensures LinearAt(a, b)
  {
    XorOddOdd(a, b);
  }

  lemma LinearOddEven(a: bv32, b: bv32)
    requires a & 1 == 1 && b & 1 != 1
    ensures LinearAt(a, b)
  {
    XorOddEven(a, b);
  }

  lemma LinearEvenOdd(a: bv32, b: bv32)
    requires a & 1 != 1 && b & 1 == 1
    ensures LinearAt(a, b)
  {
    XorEvenOdd(a, b);
  }

  lemma LinearEvenEven(a: bv32, b: bv32)
    requires a & 1 != 1 && b & 1 != 1
    ensures LinearAt(a, b)
  {
    XorEvenEven(a, b);
  }

  lemma ShiftLinear(a: bv32, b: bv32)
    ensures LinearAt(a, b)
  {
    hide LinearAt;
    if a & 1 == 1 {
      if b & 1 == 1 { LinearOddOdd(a, b); } else { LinearOddEven(a, b); }
    } else {
      if b & 1 == 1 { LinearEvenOdd(a, b); } else { LinearEvenEven(a, b); }
    }
  }

  lemma ShiftLinearEverywhere()
    ensures forall x, y {:trigger Shift(Xor(x, y))} :: Shift(Xor(x, y)) == Xor(Shift(x), Shift(y))
  {
    forall x, y ensures Shift(Xor(x, y)) == Xor(Shift(x), Shift(y)) { ShiftLinear(x, y); }
  }

  lemma ShiftsLinear(a: bv32, b: bv32, n: nat)
    ensures Shifts(Xor(a, b), n) == Xor(Shifts(a, n), Shifts(b, n))
  {
    ShiftLinearEverywhere();
    IterLinear(Shift, Xor, a, b, n);
  }

  lemma ShiftInjective(a: bv32, b: bv32)
    requires Shift(a) == Shift(b)
    ensures a == b
  {
  }

  lemma ShiftInjectiveEverywhere()
    ensures forall x, y :: Shift(x) == Shift(y) ==> x == y
  {
    forall x, y | Shift(x) == Shift(y) ensures x == y { ShiftInjective(x, y); }
  }

  lemma ShiftsEven(c: bv32, n: nat)
    requires c & 1 == 0
    ensures Shifts(c, n + 1) == Shifts(c >> 1, n)
  {
  }

  lemma ShiftsTwoZeros(c: bv32, n: nat)
    requires c & 0x3 == 0
    ensures Shifts(c, n + 2) == Shifts(c >> 2, n)
  {
    ShiftsEven(c, n + 1); ShiftsEven(c >> 1, n);
  }

  lemma ShiftsFourZeros(c: bv32, n: nat)
    requires c & 0xF == 0
    ensures Shifts(c, n + 4) == Shifts(c >> 4, n)
  {
    ShiftsTwoZeros(c, n + 2); ShiftsTwoZeros(c >> 2, n);
  }

  /** Eight rounds only move the upper 24 bits down. */
  lemma ShiftsHigh(c: bv32)
    requires c & 0xFF == 0
    ensures Shifts(c, 8) == c >> 8
  {
    ShiftsFourZeros(c, 4); ShiftsFourZeros(c >> 4, 0);
  }

  // ---------------------------------------------------------------- serial feeding is shifting

  function Word(b: byte): bv32 { b as bv32 }

  lemma WordBits(b: byte)
    ensures Word(b >> 1) == Word(b) >> 1
    ensures (b & 1 == 1) == (Word(b) & 1 == 1)
  {
  }

  /** Adding the message bit to the register first, then shifting, is one serial clock. */
  lemma FeedBitLow(c: bv32, y: bv32)
    ensures FeedBit(c, y & 1 == 1) == Shift(c ^ (y & 1))
  {
  }

  lemma XorLowBit(c: bv32, y: bv32)
    ensures c ^ y == (c ^ (y & 1)) ^ (y & 0xFFFF_FFFE)
    ensures (y & 0xFFFF_FFFE) >> 1 == y >> 1
    ensures (y & 0xFFFF_FFFE) & 1 == 0
  {
  }

  lemma FeedBitIsShift(c: bv32, y: bv32)
    ensures Shift(Xor(c, y)) == Xor(FeedBit(c, y & 1 == 1), y >> 1)
  {
    var low, rest := c ^ (y & 1), y & 0xFFFF_FFFE;
    FeedBitLow(c, y);
    XorLowBit(c, y);
    ShiftLinear(low, rest);
  }

  function Drop(b: byte, n: nat): byte
    decreases n
  {
    if n == 0 then b else Drop(b >> 1, n - 1)
  }

  lemma {:induction false} FeedBitsAreShifts(c: bv32, b: byte, n: nat)
    ensures Shifts(Xor(c, Word(b)), n) == Xor(FeedBits(c, b, n), Word(Drop(b, n)))
    decreases n
  {
    if n != 0 {
      FeedBitIsShift(c, Word(b));
      WordBits(b);
      FeedBitsAreShifts(FeedBit(c, b & 1 == 1), b >> 1, n - 1);
    }
  }

  lemma DropAll(b: byte)
    ensures Drop(b, 8) == 0
  {
  }

  /** Eight serial clocks amount to adding the byte to the register and shifting eight times. */
  lemma FeedByteIsShifts(c: bv32, b: byte)
    ensures FeedByte(c, b) == Shifts(Xor(c, Word(b)), 8)
  {
    FeedBitsAreShifts(c, b, 8);
    DropAll(b);
  }

  // ---------------------------------------------------------------- the table

  /** The entry that the table holds for byte value `k`. */
  function Entry(k: bv32): bv32 { Shifts(k, 8) }

  lemma SplitLowByte(x: bv32)
    ensures x == (x & 0xFF) ^ (x & 0xFFFF_FF00)
    ensures (x & 0xFFFF_FF00) & 0xFF == 0
    ensures (x & 0xFFFF_FF00) >> 8 == x >> 8
  {
  }

  lemma AddByteHigh(c: bv32, b: byte)
    ensures (c ^ Word(b)) >> 8 == c >> 8
  {
  }

  lemma XorSwaps(a: bv32, b: bv32)
    ensures Xor(a, b) == Xor(b, a)
  {
  }

  lemma ShiftsSplit(x: bv32)
    ensures Shifts(x, 8) == Xor(x >> 8, Entry(x & 0xFF))
  {
    SplitLowByte(x);
    ShiftsLinear(x & 0xFF, x & 0xFFFF_FF00, 8);
    ShiftsHigh(x & 0xFFFF_FF00);
    XorSwaps(Shifts(x & 0xFF, 8), x >> 8);
  }

  /** One table lookup replaces eight serial clocks. */
  lemma LookupIsFeed(c: bv32, b: byte)
    ensures FeedByte(c, b) == Xor(c >> 8, Entry(Xor(c, Word(b)) & 0xFF))
  {
    FeedByteIsShifts(c, b);
    ShiftsSplit(Xor(c, Word(b)));
    AddByteHigh(c, b);
  }

  function FromSlot(k: nat): byte
    requires k < 256
  {
    k as byte
  }

  /** The array index of a byte value. */
  function Slot(b: byte): (k: nat)
    ensures k < 256 && FromSlot(k) == b
  {
    b as nat
  }

  lemma SlotStep(b: byte)
    requires b != 255
    ensures Slot(b + 1) == Slot(b) + 1
  {
  }

  function LowByte(x: bv32): (b: byte)
    ensures Word(b) == x & 0xFF
  {
    (x & 0xFF) as byte
  }

  ghost predicate GoodTable(t: seq<bv32>) {
    |t| == 256 && forall b: byte {:trigger Slot(b)} :: t[Slot(b)] == Entry(Word(b))
  }

  /** The generator never writes entry 0; its static zero is already right. */
  lemma EntryZero()
    ensures Entry(Word(0)) == 0
  {
    ShiftsHigh(0);
  }

  /** The unit with its static table and the flag that says whether it has been built. */
  class Unit {
    var precalcInitialized: bool
    const precalcTable: array<bv32>

    ghost predicate Valid()
      reads this, precalcTable
    {
      && precalcTable.Length == 256
      && precalcTable[Slot(0)] == 0
      && (precalcInitialized ==> GoodTable(precalcTable[..]))
    }

    constructor ()
      ensures Valid() && fresh(precalcTable) && !precalcInitialized
    {
      precalcInitialized := false;
      precalcTable := new bv32[256](_ => 0);
    }

    /** `CRC32_genTable_`: the index is 8 bits wide, and its wrap to zero ends the loop. */
    method GenTable()
      requires precalcTable.Length == 256 && precalcTable[Slot(0)] == 0
      modifies precalcTable
      ensures precalcTable[Slot(0)] == 0 && GoodTable(precalcTable[..])
    {
      var i: byte := 1;
      EntryZero();
      while i != 0
        invariant precalcTable[Slot(0)] == 0
        invariant forall b: byte {:trigger Slot(b)} :: i == 0 || b < i ==> precalcTable[Slot(b)] == Entry(Word(b))
        decreases if i == 0 then 0 else 256 - Slot(i)
      {
        var crc := GenEntry(i);
        precalcTable[Slot(i)] := crc;
        if i != 255 { SlotStep(i); }
        i := i + 1;
      }
    }

    /** The inner loop of `CRC32_genTable_`. */
    static method GenEntry(i: byte) returns (crc: bv32)
      ensures crc == Entry(Word(i))
    {
      crc := Word(i);
      var bit: byte := 8;
      while bit != 0
        invariant bit <= 8
        invariant Shifts(crc, Slot(bit)) == Entry(Word(i))
        decreases Slot(bit)
      {
        SlotStep(bit - 1);
        crc := if crc & 1 == 1 then (crc >> 1) ^ POLY else crc >> 1;
        bit := bit - 1;
      }
    }

    /** `CRC32_updateByte`. */
    method UpdateByte(crc32: bv32, b: byte) returns (r: bv32)
      requires Valid() && precalcInitialized
      ensures r == FeedByte(crc32, b)
    {
      var index := LowByte(crc32 ^ Word(b));
      LookupIsFeed(crc32, b);
      r := Xor(crc32 >> 8, precalcTable[Slot(index)]);
    }

    /** `CRC32_calculate_ex`: for every seed and input, the table-driven result is the serial one. */
    method CalculateEx(seed: bv32, input: seq<byte>) returns (r: bv32)
      requires Valid()
      modifies this, precalcTable
      ensures Valid() && precalcInitialized
      ensures r == Crc(seed, input)
    {
      var crc32 := Not(seed);
      if !precalcInitialized {
        GenTable();
        precalcInitialized := true;
      }
      var n := 0;
      while n < |input|
        invariant n <= |input|
        invariant Valid() && precalcInitialized
        invariant Register(crc32, input[n..]) == Register(Not(seed), input)
      {
        assert input[n..][1..] == input[n + 1..];
        crc32 := UpdateByte(crc32, input[n]);
        n := n + 1;
      }
      r := Not(crc32);
    }

    /** `CRC32_calculate`. */
    method Calculate(input: seq<byte>) returns (r: bv32)
      requires Valid()
      modifies this, precalcTable
      ensures Valid() && precalcInitialized
      ensures r == Crc(0, input)
    {
      r := CalculateEx(0, input);
    }
  }

  // ---------------------------------------------------------------- the built-in table

  function Bit(i: nat): bv32 {
    if i == 0 then 0x1 else if i == 1 then 0x2 else if i == 2 then 0x4 else if i == 3 then 0x8
    else if i == 4 then 0x10 else if i == 5 then 0x20 else if i == 6 then 0x40
    else 0x80
  }

  function Mask(n: nat): bv32 {
    if n == 0 then 0x0 else if n == 1 then 0x1 else if n == 2 then 0x3 else if n == 3 then 0x7
    else if n == 4 then 0xF else if n == 5 then 0x1F else if n == 6 then 0x3F else if n == 7 then 0x7F
    else 0xFF
  }

  /** What the built-in table holds for the bytes with one bit. */
  function BuiltIn(i: nat): bv32 {
    if i == 0 then 0x7707_3096 else if i == 1 then 0xEE0E_612C
    else if i == 2 then 0x076D_C419 else if i == 3 then 0x0EDB_8832
    else if i == 4 then 0x1DB7_1064 else if i == 5 then 0x3B6E_20C8 else if i == 6 then 0x76DC_4190
    else 0xEDB8_8320
  }

  lemma MaskSplits(x: bv32, m: bv32, b: bv32)
    requires m & b == 0
    ensures x & (m | b) == (x & m) ^ (x & b)
  {
  }

  function Low(x: bv32, n: nat): bv32 { x & Mask(n) }

  function Picked(x: bv32, i: nat): bv32 { x & Bit(i) }

  lemma MaskStep(x: bv32, n: nat)
    requires n < 8
    ensures Low(x, n + 1) == Xor(Low(x, n), Picked(x, n))
  {
    MaskSplits(x, Mask(n), Bit(n));
    assert Mask(n + 1) == Mask(n) | Bit(n);
  }

  lemma SingleBit(i: nat)
    requires i < 8
    ensures Entry(Bit(i)) == BuiltIn(i)
  {
    IterEight(Shift, Bit(i));
  }

  lemma PickedEntry(x: bv32, i: nat)
    requires i < 8
    ensures Entry(Picked(x, i)) == if Picked(x, i) != 0 then BuiltIn(i) else 0
  {
    hide *;
    SingleBit(i);
    EntryOfZero();
    BitOrNothing(x, i);
  }

  lemma BitOrNothing(x: bv32, i: nat)
    requires i < 8
    ensures Picked(x, i) == 0 || Picked(x, i) == Bit(i)
    ensures Bit(i) != 0
  {
  }

  /** The exclusive or of the first `n` of these entries, as far as `x` has their bits set. */
  function Combined(x: bv32, n: nat): bv32 {
    if n == 0 then 0 else Xor(Combined(x, n - 1), if Picked(x, n - 1) != 0 then BuiltIn(n - 1) else 0)
  }

  lemma {:induction false} EntryCombines(x: bv32, n: nat)
    requires n <= 8
    ensures Entry(Low(x, n)) == Combined(x, n)
    decreases n
  {
    EntryOfZero();
    if n == 0 {
      NothingLow(x);
    } else {
      hide Xor, BuiltIn, Entry, Low, Picked;
      EntryCombines(x, n - 1);
      MaskStep(x, n - 1);
      EntryLinear(Low(x, n - 1), Picked(x, n - 1));
      PickedEntry(x, n - 1);
    }
  }

  lemma NothingLow(x: bv32)
    ensures Low(x, 0) == 0
  {
  }

  lemma EntryLinear(x: bv32, y: bv32)
    ensures Entry(Xor(x, y)) == Xor(Entry(x), Entry(y))
  {
    ShiftsLinear(x, y, 8);
  }

  lemma EntryOfZero()
    ensures Entry(0) == 0
  {
    EntryZero();
  }

  /** Every entry is what the built-in table's single-bit entries make of its index: the generator computes
      that table. */
  lemma EntryIsBuiltIn(b: byte)
    ensures Entry(Word(b)) == Combined(Word(b), 8)
  {
    WholeByte(Word(b));
    EntryCombines(Word(b), 8);
  }

  lemma WholeByte(x: bv32)
    requires x <= 0xFF
    ensures Low(x, 8) == x
  {
  }

  // ---------------------------------------------------------------- chaining

  lemma NotNot(c: bv32)
    ensures Not(Not(c)) == c
  {
  }

  /** Feeding one result in as the next seed continues the same checksum. */
  lemma CrcChains(seed: bv32, a: seq<byte>, b: seq<byte>)
    ensures Crc(Crc(seed, a), b) == Crc(seed, a + b)
  {
    FeedConcat(FeedByte, Not(seed), a, b);
    NotNot(Register(Not(seed), a));
  }
}
