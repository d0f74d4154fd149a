/** Physical memory protection as decoded and looked up by services/boot/hss_boot_pmp.c.

    Address matching follows section 3.7.1 of the RISC-V Privileged Architecture: in NAPOT mode the
    bits of pmpaddr above its lowest zero bit name the region. */
module Pmp {
  import opened Words

  const MAX_NUM_PMPS := 16

  datatype AddressMatching = NullRegion | TOR | NA4 | NAPOT

  datatype PmpEntry = PmpEntry(baseAddr: nat, size: nat, A: AddressMatching, R: bool, W: bool, X: bool, L: bool)

  // ---------------------------------------------------------------- bit operations on word values

  /** `h << n`, nothing lost. */
  function Scale(h: nat, n: nat): nat
    decreases n, h
  {
    if n == 0 then h else 2 * Scale(h, n - 1)
  }

  // ---------------------------------------------------------------- the architecture's view of pmpaddr

  /** How many low bits of `v` are ones. */
  function Ones(v: nat): nat {
    if v % 2 == 0 then 0 else 1 + Ones(v / 2)
  }

  /** The bits of `v` above its lowest zero bit. */
  function Upper(v: nat): nat { Shr(v, Ones(v) + 1) }

  /** Byte address `a` is in the NAPOT region that `v` names. */
  predicate Names(v: nat, a: nat) {
    Shr(a / 4, Ones(v) + 1) == Upper(v)
  }

  /** The pmpaddr value for the region of 8 * 2^k bytes that is number `h` of its size. */
  function Encode(h: nat, k: nat): nat { Scale(h, k + 1) + Pow2(k) - 1 }

  // ---------------------------------------------------------------- arithmetic of the encoding

  lemma UpperStep(v: nat)
    ensures v % 2 == 0 ==> Ones(v) == 0 && Upper(v) == v / 2
    ensures v % 2 == 1 ==> Ones(v) == Ones(v / 2) + 1 && Upper(v) == Upper(v / 2)
  {
    if v % 2 == 1 { assert Shr(v, Ones(v) + 1) == Shr(v / 2, Ones(v)); }
    else { assert Shr(v, 1) == Shr(v / 2, 0); }
  }

  /** Every value is its upper bits, a zero, and its trailing ones. */
  lemma {:induction false} Anatomy(v: nat)
    ensures v == Encode(Upper(v), Ones(v))
    decreases v
  {
    UpperStep(v);
    if v % 2 == 1 {
      Anatomy(v / 2);
      assert Scale(Upper(v), Ones(v) + 1) == 2 * Scale(Upper(v), Ones(v));
    } else {
      assert Scale(v / 2, 1) == 2 * Scale(v / 2, 0);
    }
  }

  /** And in one way only. */
  lemma {:induction false} AnatomyUnique(h: nat, k: nat)
    ensures Ones(Encode(h, k)) == k && Upper(Encode(h, k)) == h
    decreases k
  {
    var v := Encode(h, k);
    assert Scale(h, k + 1) == 2 * Scale(h, k);
    UpperStep(v);
    if k > 0 {
      AnatomyUnique(h, k - 1);
      assert v / 2 == Encode(h, k - 1);
    }
  }

  lemma HalfMask(k: nat)
    requires k > 0
    ensures (Pow2(k) - 1) / 2 == Pow2(k - 1) - 1 && (Pow2(k) - 1) % 2 == 1
  {
  }

  lemma AndHalves(v: nat, m: nat)
    ensures And(v, m) / 2 == And(v / 2, m / 2)
    ensures And(v, m) % 2 == 1 <==> v % 2 == 1 && m % 2 == 1
  {
    if v == 0 || m == 0 { assert And(v / 2, m / 2) == 0; }
  }

  lemma {:induction false} OnesMask(v: nat, k: nat)
    ensures And(v, Pow2(k) - 1) == Pow2(k) - 1 <==> k <= Ones(v)
    decreases k
  {
    if k > 0 {
      HalfMask(k);
      AndHalves(v, Pow2(k) - 1);
      OnesMask(v / 2, k - 1);
    }
  }

  lemma AndNotOdd(v: nat, m: nat)
    requires v % 2 == 1 && m % 2 == 1
    ensures AndNot(v, m) == 2 * AndNot(v / 2, m / 2)
  {
  }

  lemma {:induction false} OnesCleared(v: nat)
    ensures AndNot(v, Pow2(Ones(v)) - 1) == Scale(Upper(v), Ones(v) + 1)
    decreases v
  {
    var k := Ones(v);
    UpperStep(v);
    if v % 2 == 1 {
      OnesCleared(v / 2);
      HalfMask(k);
      AndNotOdd(v, Pow2(k) - 1);
    } else {
      AndNotZero(v);
    }
  }

  lemma {:induction false} AndNotZero(v: nat)
    ensures AndNot(v, 0) == v
    decreases v
  {
    if v > 0 { AndNotZero(v / 2); }
  }

  lemma {:induction false} OnesBound(v: nat, n: nat)
    requires v < Pow2(n)
    ensures Ones(v) <= n
    decreases n
  {
    if v % 2 == 1 { OnesBound(v / 2, n - 1); }
  }

  /** A block of 2^n consecutive values is one quotient. */
  lemma {:induction false} BlockIsQuotient(h: nat, n: nat, a: nat)
    ensures Scale(h, n) <= a < Scale(h, n) + Pow2(n) <==> Shr(a, n) == h
    decreases n
  {
    if n > 0 { BlockIsQuotient(h, n - 1, a / 2); }
  }

  lemma {:induction false} ScaleIsMultiple(h: nat, n: nat)
    ensures Scale(h, n) == h * Pow2(n)
    decreases n
  {
    if n > 0 { ScaleIsMultiple(h, n - 1); }
  }

  // ---------------------------------------------------------------- decoding

  /** The longest run of ones the search can find: its first mask has 63 bits. */
  function OnesFound(v: nat): nat { if Ones(v) < 63 then Ones(v) else 63 }

  /** `pmp_decode_napot_size_encoding`: the exponent of the region size, and the mask of ones found. */
  method DecodeNapotSizeEncoding(addrVal: nat) returns (result: nat, foundMask: nat)
    ensures result == OnesFound(addrVal) + 3
    ensures foundMask == Pow2(OnesFound(addrVal)) - 1
  {
    result := 66;
    foundMask := 0;
    var mask := Pow2(63) - 1;
    ghost var k: nat := 63;
    while mask != 0
      invariant k <= 63 && result == k + 3 && mask == Pow2(k) - 1
      invariant Ones(addrVal) <= k || k == 63
      invariant foundMask == 0
      decreases k
    {
      OnesMask(addrVal, k);
      if And(addrVal, mask) == mask {
        foundMask := mask;
        break;
      }
      HalfMask(k);
      result := result - 1;
      mask := mask / 2;
      k := k - 1;
    }
  }

  function DecodedBase(v: nat): nat { Scale(Upper(v), Ones(v) + 3) }

  function DecodedSize(v: nat): nat { Pow2(Ones(v) + 3) }

  lemma ShiftUpTwo(h: nat, k: nat)
    ensures 4 * Scale(h, k) == Scale(h, k + 2) && 4 * Pow2(k) == Pow2(k + 2)
  {
  }

  /** The NA4 and NAPOT arms of `pmp_decode`. */
  method Decode(A: AddressMatching, R: bool, W: bool, X: bool, L: bool, addrVal: nat) returns (e: PmpEntry)
    requires A == NA4 || A == NAPOT
    requires addrVal < Pow2(54)
    ensures e.A == A && e.R == R && e.W == W && e.X == X && e.L == L
    ensures A == NA4 ==> e.baseAddr == 4 * addrVal && e.size == 4
    ensures A == NAPOT ==> e.baseAddr == DecodedBase(addrVal) && e.size == DecodedSize(addrVal)
  {
    if A == NA4 {
      e := PmpEntry(addrVal * 4, 4, A, R, W, X, L);
    } else {
      OnesBound(addrVal, 54);
      var range, mask := DecodeNapotSizeEncoding(addrVal);
      OnesCleared(addrVal);
      var upper := AndNot(addrVal, mask);
      ShiftUpTwo(Upper(addrVal), Ones(addrVal) + 1);
      e := PmpEntry(upper * 4, Pow2(range), A, R, W, X, L);
    }
  }

  /** The decoded region is aligned to its size and is exactly the set of addresses that the
      architecture says the value names. */
  lemma NapotRegion(v: nat, a: nat)
    ensures DecodedBase(v) == Upper(v) * DecodedSize(v)
    ensures DecodedBase(v) <= a < DecodedBase(v) + DecodedSize(v) <==> Names(v, a)
  {
    var k := Ones(v) + 1;
    ScaleIsMultiple(Upper(v), k + 2);
    BlockIsQuotient(Upper(v), k, a / 4);
    ShiftUpTwo(Upper(v), k);
  }

  /** Encoding an aligned power-of-two region of at least 8 bytes and decoding it gives the region back. */
  lemma EncodeDecode(h: nat, k: nat)
    ensures DecodedBase(Encode(h, k)) == Scale(h, k + 3)
    ensures DecodedSize(Encode(h, k)) == Pow2(k + 3)
  {
    AnatomyUnique(h, k);
  }

  /** Every pmpaddr value is the encoding of the region it decodes to. */
  lemma DecodeEncode(v: nat)
    ensures exists h: nat, k: nat ::
      v == Encode(h, k) && DecodedBase(v) == Scale(h, k + 3) && DecodedSize(v) == Pow2(k + 3)
  {
    Anatomy(v);
  }

  /** A region that ends at or below 2^56 has a pmpaddr value that fits its 54 bits. */
  lemma EncodeFits(h: nat, k: nat, n: nat)
    requires Scale(h, k + 3) + Pow2(k + 3) <= Pow2(n + 2)
    ensures Encode(h, k) < Pow2(n)
  {
    ShiftUpTwo(h, k + 1);
    ShiftUpTwo(h, n);
  }

  // ---------------------------------------------------------------- permission lookup

  type Table = t: seq<PmpEntry> | |t| == MAX_NUM_PMPS
    witness seq(MAX_NUM_PMPS, _ => PmpEntry(0, 0, NullRegion, false, false, false, false))

  /** A 64-bit value read as `ptrdiff_t`. */
  function Signed(x: int): int {
    var w := x % 0x1_0000_0000_0000_0000;
    if w < 0x8000_0000_0000_0000 then w else w - 0x1_0000_0000_0000_0000
  }

  /** An active entry holds the region, with at least one byte to spare at its end. */
  predicate Holds(e: PmpEntry, start: int, length: nat) {
    && e.A != NullRegion
    && Signed(e.baseAddr) <= start
    && Signed(Signed(e.baseAddr) + e.size) > Signed(start + length)
  }

  /** The lowest-numbered entry at or after `from` that holds the region. */
  function FirstHolding(t: seq<PmpEntry>, from: nat, start: int, length: nat): (i: nat)
    requires from <= |t|
    ensures from <= i <= |t|
    ensures i < |t| ==> Holds(t[i], start, length)
    ensures forall j :: from <= j < i ==> !Holds(t[j], start, length)
    decreases |t| - from
  {
    if from == |t| || Holds(t[from], start, length) then from else FirstHolding(t, from + 1, start, length)
  }

  predicate WriteAllowed(t: Table, start: int, length: nat) {
    var i := FirstHolding(t, 0, start, length);
    i == |t| || t[i].W
  }

  predicate ReadAllowed(t: Table, start: int, length: nat) {
    var i := FirstHolding(t, 0, start, length);
    i < |t| && t[i].R
  }

  /** `HSS_PMP_CheckWrite`: the first holding entry decides, and no holding entry means yes. */
  method CheckWrite(t: Table, start: int, length: nat) returns (result: bool)
    ensures result <==> WriteAllowed(t, start, length)
    ensures NoWrap(t, start, length) && length > 0 && Unhindered(t, start, length) ==>
      (result <==> AllWritable(t, start, length))
  {
    if NoWrap(t, start, length) && length > 0 && Unhindered(t, start, length) { UnhinderedRight(t, start, length); }
    hide NoWrap, Unhindered, AllWritable;
    var pmpIndex := 0;
    result := true;
    while pmpIndex < MAX_NUM_PMPS
      invariant pmpIndex <= MAX_NUM_PMPS && result
      invariant FirstHolding(t, 0, start, length) == FirstHolding(t, pmpIndex, start, length)
    {
      var e := t[pmpIndex];
      if e.A != NullRegion {
        var pmpStart := Signed(e.baseAddr);
        var pmpEnd := Signed(pmpStart + e.size);
        if pmpStart <= start && pmpEnd > Signed(start + length) {
          return e.W;
        }
      }
      pmpIndex := pmpIndex + 1;
    }
  }

  /** `HSS_PMP_CheckRead`: the first holding entry decides, and no holding entry means no. */
  method CheckRead(t: Table, start: int, length: nat) returns (result: bool)
    ensures result <==> ReadAllowed(t, start, length)
    ensures NoWrap(t, start, length) && length > 0 && Unhindered(t, start, length) ==>
      (result <==> AllReadable(t, start, length))
  {
    if NoWrap(t, start, length) && length > 0 && Unhindered(t, start, length) { UnhinderedRight(t, start, length); }
    hide NoWrap, Unhindered, AllReadable;
    var pmpIndex := 0;
    result := false;
    while pmpIndex < MAX_NUM_PMPS
      invariant pmpIndex <= MAX_NUM_PMPS && !result
      invariant FirstHolding(t, 0, start, length) == FirstHolding(t, pmpIndex, start, length)
    {
      var e := t[pmpIndex];
      if e.A != NullRegion {
        var pmpStart := Signed(e.baseAddr);
        var pmpEnd := Signed(pmpStart + e.size);
        if pmpStart <= start && pmpEnd > Signed(start + length) {
          return e.R;
        }
      }
      pmpIndex := pmpIndex + 1;
    }
  }

  // ---------------------------------------------------------------- what the lookup should find

  const HALF := 0x8000_0000_0000_0000

  /** An active entry contains the region. */
  predicate Contains(e: PmpEntry, start: int, length: nat) {
    e.A != NullRegion && e.baseAddr <= start && start + length <= e.baseAddr + e.size
  }

  /** The entry stops exactly where the region stops. */
  predicate EndsWith(e: PmpEntry, start: int, length: nat) { e.baseAddr + e.size == start + length }

  /** Neither the entries nor the region reach the addresses that `ptrdiff_t` holds as negative. */
  ghost predicate NoWrap(t: Table, start: int, length: nat) {
    && 0 <= start && start + length < HALF
    && forall i :: 0 <= i < |t| ==> Fits(t[i])
  }

  predicate Fits(e: PmpEntry) { e.baseAddr + e.size < HALF }

  /** Decoded entries never reach that far. */
  lemma DecodedFits(v: nat)
    requires v < Pow2(54)
    ensures DecodedBase(v) + DecodedSize(v) <= Pow2(57) < HALF
    ensures 4 * v + 4 < HALF
  {
    var h, k := Upper(v), Ones(v);
    Anatomy(v);
    OnesBound(v, 54);
    if k < 54 { Pow2Monotone(k, 54); }
    ShiftUpTwo(h, k + 1);
    EightFold(k);
    EightFold(54);
    PowersInWord();
  }

  lemma EightFold(k: nat)
    ensures Pow2(k + 3) == 8 * Pow2(k)
  {
    assert Pow2(k + 1) == 2 * Pow2(k);
    assert Pow2(k + 2) == 2 * Pow2(k + 1);
  }

  lemma PowersInWord()
    ensures Pow2(54) == 0x40_0000_0000_0000
  {
    assert Pow2(9) == 512;
    hide Pow2;
    Pow2Sum(9, 9); Pow2Sum(18, 18); Pow2Sum(36, 18);
  }

  /** The code's test is containment with a byte to spare: it refuses just the regions at the entry's end. */
  lemma HoldsIs(e: PmpEntry, start: int, length: nat)
    requires Fits(e) && 0 <= start && start + length < HALF
    ensures Holds(e, start, length) <==> Contains(e, start, length) && !EndsWith(e, start, length)
  {
    SignedSmall(e.baseAddr);
    SignedSmall(e.baseAddr + e.size);
    SignedSmall(start + length);
    hide Signed;
  }

  lemma SignedSmall(x: int)
    requires 0 <= x < HALF
    ensures Signed(x) == x
  {
  }

  // ---------------------------------------------------------------- who decides about a byte

  predicate Matches(e: PmpEntry, a: int) { e.A != NullRegion && e.baseAddr <= a < e.baseAddr + e.size }

  /** The lowest-numbered entry at or after `from` that matches address `a`: the one that decides, by
      section 3.7.1. */
  function Decider(t: seq<PmpEntry>, from: nat, a: int): (i: nat)
    requires from <= |t|
    ensures from <= i <= |t|
    ensures i < |t| ==> Matches(t[i], a)
    ensures forall j :: from <= j < i ==> !Matches(t[j], a)
    decreases |t| - from
  {
    if from == |t| || Matches(t[from], a) then from else Decider(t, from + 1, a)
  }

  /** The byte may be written; where no entry decides, the lookup's own default holds. */
  predicate MayWrite(t: Table, a: int) {
    var i := Decider(t, 0, a);
    i == |t| || t[i].W
  }

  predicate MayRead(t: Table, a: int) {
    var i := Decider(t, 0, a);
    i < |t| && t[i].R
  }

  ghost predicate AllWritable(t: Table, start: int, length: nat) {
    forall a :: start <= a < start + length ==> MayWrite(t, a)
  }

  ghost predicate AllReadable(t: Table, start: int, length: nat) {
    forall a :: start <= a < start + length ==> MayRead(t, a)
  }

  // ---------------------------------------------------------------- when the lookups are right

  /** The entry has nothing to do with the region. */
  predicate Misses(e: PmpEntry, start: int, length: nat) {
    e.A == NullRegion || e.size == 0 || e.baseAddr + e.size <= start || start + length <= e.baseAddr
  }

  lemma MissesNoByte(e: PmpEntry, start: int, length: nat, a: int)
    requires Misses(e, start, length) && start <= a < start + length
    ensures !Matches(e, a)
  {
  }

  lemma MeetsInByte(e: PmpEntry, start: int, length: nat) returns (a: int)
    requires !Misses(e, start, length) && length > 0
    ensures start <= a < start + length && Matches(e, a)
  {
    a := if e.baseAddr >= start then e.baseAddr else start;
  }

  ghost predicate ClearBelow(t: Table, start: int, length: nat, n: nat) {
    forall j :: 0 <= j < n && j < |t| ==> Misses(t[j], start, length)
  }

  /** No entry before the one that the lookups settle on touches the region; none at all if they find none. */
  ghost predicate Unhindered(t: Table, start: int, length: nat) {
    ClearBelow(t, start, length, FirstHolding(t, 0, start, length))
  }

  /** Then one entry decides about every byte, or none about any. */
  lemma OneDecides(t: Table, start: int, length: nat, a: int)
    requires NoWrap(t, start, length) && Unhindered(t, start, length) && start <= a < start + length
    ensures Decider(t, 0, a) == FirstHolding(t, 0, start, length)
  {
    var f, d := FirstHolding(t, 0, start, length), Decider(t, 0, a);
    if f < |t| { HoldsIs(t[f], start, length); }
    if d < f { MissesNoByte(t[d], start, length, a); }
  }

  lemma UnhinderedRight(t: Table, start: int, length: nat)
    requires NoWrap(t, start, length) && length > 0 && Unhindered(t, start, length)
    ensures WriteAllowed(t, start, length) <==> AllWritable(t, start, length)
    ensures ReadAllowed(t, start, length) <==> AllReadable(t, start, length)
  {
    OneDecides(t, start, length, start);
    assert MayWrite(t, start) == WriteAllowed(t, start, length) && MayRead(t, start) == ReadAllowed(t, start, length);
    forall a | start <= a < start + length
      ensures MayWrite(t, a) == WriteAllowed(t, start, length) && MayRead(t, a) == ReadAllowed(t, start, length)
    {
      OneDecides(t, start, length, a);
    }
  }

  /** The same regions in the same order, with any permissions. */
  ghost predicate SameRegions(t: Table, u: Table) {
    forall i :: 0 <= i < |t| ==> t[i].baseAddr == u[i].baseAddr && t[i].size == u[i].size && t[i].A == u[i].A
  }

  lemma {:induction false} SameFirst(t: Table, u: Table, from: nat, start: int, length: nat)
    requires SameRegions(t, u) && from <= |t|
    ensures FirstHolding(t, from, start, length) == FirstHolding(u, from, start, length)
    decreases |t| - from
  {
    if from < |t| {
      assert Holds(t[from], start, length) == Holds(u[from], start, length);
      SameFirst(t, u, from + 1, start, length);
    }
  }

  lemma {:induction false} SameDecider(t: Table, u: Table, from: nat, a: int)
    requires SameRegions(t, u) && from <= |t|
    ensures Decider(t, from, a) == Decider(u, from, a)
    decreases |t| - from
  {
    if from < |t| {
      assert Matches(t[from], a) == Matches(u[from], a);
      SameDecider(t, u, from + 1, a);
    }
  }

  ghost predicate WriteRightForAll(t: Table, start: int, length: nat) {
    forall u: Table :: SameRegions(t, u) ==> (WriteAllowed(u, start, length) <==> AllWritable(u, start, length))
  }

  ghost predicate ReadRightForAll(t: Table, start: int, length: nat) {
    forall u: Table :: SameRegions(t, u) ==> (ReadAllowed(u, start, length) <==> AllReadable(u, start, length))
  }

  /** The first entry that touches the region before the lookups settle, and a byte about which it decides. */
  lemma FirstHindrance(t: Table, start: int, length: nat) returns (j: nat, a: int)
    requires length > 0 && !Unhindered(t, start, length)
    ensures j < FirstHolding(t, 0, start, length) && start <= a < start + length && Decider(t, 0, a) == j
  {
    j := 0;
    while Misses(t[j], start, length)
      invariant j < FirstHolding(t, 0, start, length) && ClearBelow(t, start, length, j)
      decreases |t| - j
    {
      if j + 1 == FirstHolding(t, 0, start, length) { assert ClearBelow(t, start, length, j + 1); }
      j := j + 1;
    }
    a := MeetsInByte(t[j], start, length);
    var d := Decider(t, 0, a);
    if d < j { MissesNoByte(t[d], start, length, a); }
  }

  /** The table with entry `j` forbidding everything and entry `f`, if there is one, allowing it. */
  function Contrary(t: Table, j: nat, f: nat): Table {
    seq(|t|, i requires 0 <= i < |t| =>
      if i == f then t[i].(W := true, R := true) else if i == j then t[i].(W := false, R := false) else t[i])
  }

  lemma HinderedWrong(t: Table, start: int, length: nat)
    requires length > 0 && !Unhindered(t, start, length)
    ensures !WriteRightForAll(t, start, length)
    ensures FirstHolding(t, 0, start, length) < |t| ==> !ReadRightForAll(t, start, length)
  {
    var j, a := FirstHindrance(t, start, length);
    var u := Contrary(t, j, FirstHolding(t, 0, start, length));
    assert SameRegions(t, u);
    SameFirst(t, u, 0, start, length);
    SameDecider(t, u, 0, a);
    assert !MayWrite(u, a) && !MayRead(u, a);
  }

  lemma SameUnhindered(t: Table, u: Table, start: int, length: nat)
    requires SameRegions(t, u) && NoWrap(t, start, length) && Unhindered(t, start, length)
    ensures NoWrap(u, start, length) && Unhindered(u, start, length)
  {
    SameFirst(t, u, 0, start, length);
    forall i | 0 <= i < |u| ensures Fits(u[i]) { assert Fits(t[i]); }
    forall j | 0 <= j < FirstHolding(u, 0, start, length) && j < |u| ensures Misses(u[j], start, length) {
      assert Misses(t[j], start, length);
    }
  }

  /** Whatever the permissions, the write lookup agrees with what each byte's own entry says exactly when
      no entry before the one it settles on touches the region. */
  lemma WriteRightIff(t: Table, start: int, length: nat)
    requires NoWrap(t, start, length) && length > 0
    ensures WriteRightForAll(t, start, length) <==> Unhindered(t, start, length)
  {
    if Unhindered(t, start, length) {
      forall u: Table | SameRegions(t, u) ensures WriteAllowed(u, start, length) <==> AllWritable(u, start, length) {
        SameUnhindered(t, u, start, length);
        UnhinderedRight(u, start, length);
      }
    } else {
      HinderedWrong(t, start, length);
    }
  }

  /** No entry decides about some byte of the region. */
  ghost predicate Gap(t: Table, start: int, length: nat) {
    exists a :: start <= a < start + length && Decider(t, 0, a) == |t|
  }

  /** The read lookup is right also where it settles on no entry, if the entries leave a gap: refusing is
      then right in any case. */
  lemma ReadRightIff(t: Table, start: int, length: nat)
    requires NoWrap(t, start, length) && length > 0
    ensures ReadRightForAll(t, start, length) <==>
      if FirstHolding(t, 0, start, length) < |t| then Unhindered(t, start, length) else Gap(t, start, length)
  {
    if FirstHolding(t, 0, start, length) < |t| {
      if Unhindered(t, start, length) {
        forall u: Table | SameRegions(t, u) ensures ReadAllowed(u, start, length) <==> AllReadable(u, start, length) {
          SameUnhindered(t, u, start, length);
          UnhinderedRight(u, start, length);
        }
      } else {
        HinderedWrong(t, start, length);
      }
    } else if a :| start <= a < start + length && Decider(t, 0, a) == |t| {
      forall u: Table | SameRegions(t, u) ensures ReadAllowed(u, start, length) <==> AllReadable(u, start, length) {
        SameFirst(t, u, 0, start, length);
        SameDecider(t, u, 0, a);
        assert !MayRead(u, a);
      }
    } else {
      AllReadableWrong(t, start, length);
    }
  }

  lemma AllReadableWrong(t: Table, start: int, length: nat)
    requires FirstHolding(t, 0, start, length) == |t| && !Gap(t, start, length)
    ensures !ReadRightForAll(t, start, length)
  {
    var u: Table := seq(|t|, i requires 0 <= i < |t| => t[i].(R := true));
    assert SameRegions(t, u);
    SameFirst(t, u, 0, start, length);
    forall a | start <= a < start + length ensures MayRead(u, a) { SameDecider(t, u, 0, a); }
    assert AllReadable(u, start, length);
  }

  /** Both lookups together. The entry that ends with the region is one that touches it and is passed over. */
  lemma RightIffUnhindered(t: Table, start: int, length: nat)
    requires NoWrap(t, start, length) && length > 0
    ensures WriteRightForAll(t, start, length) && ReadRightForAll(t, start, length) <==> Unhindered(t, start, length)
  {
    WriteRightIff(t, start, length);
    if Unhindered(t, start, length) {
      forall u: Table | SameRegions(t, u) ensures ReadAllowed(u, start, length) <==> AllReadable(u, start, length) {
        SameUnhindered(t, u, start, length);
        UnhinderedRight(u, start, length);
      }
    }
  }

  /** About a region without bytes there is nothing to refuse, yet the read lookup refuses it by default
      and both refuse it for the sake of an entry that holds it. */
  lemma EmptyRegion(t: Table, start: int)
    ensures WriteRightForAll(t, start, 0) <==> FirstHolding(t, 0, start, 0) == |t|
    ensures !ReadRightForAll(t, start, 0)
  {
    var f := FirstHolding(t, 0, start, 0);
    var u: Table := seq(|t|, i requires 0 <= i < |t| => t[i].(W := false, R := false));
    assert SameRegions(t, u);
    SameFirst(t, u, 0, start, 0);
    if f == |t| {
      forall v: Table | SameRegions(t, v) ensures WriteAllowed(v, start, 0) { SameFirst(t, v, 0, start, 0); }
    }
  }

  // ---------------------------------------------------------------- for the permissions at hand

  /** Entry `j` decides about some byte of the region. */
  ghost predicate Decides(t: Table, start: int, length: nat, j: nat) {
    j < |t| && exists a :: start <= a < start + length && Decider(t, 0, a) == j
  }

  /** The region may be written exactly if every entry that decides about some byte of it says so. */
  lemma AllWritableIs(t: Table, start: int, length: nat)
    ensures AllWritable(t, start, length) <==> forall j: nat :: Decides(t, start, length, j) ==> t[j].W
  {
    if forall j: nat :: Decides(t, start, length, j) ==> t[j].W {
      forall a | start <= a < start + length ensures MayWrite(t, a) {
        var j := Decider(t, 0, a);
        if j < |t| { assert Decides(t, start, length, j); }
      }
    }
    if AllWritable(t, start, length) {
      forall j: nat | Decides(t, start, length, j) ensures t[j].W {
        var a :| start <= a < start + length && Decider(t, 0, a) == j;
        assert MayWrite(t, a);
      }
    }
  }

  /** The write lookup is right exactly if, when it allows, all entries before the one it settles on that
      decide about a byte allow too, and when it refuses, some entry that decides does. */
  lemma WriteRight(t: Table, start: int, length: nat)
    requires NoWrap(t, start, length)
    ensures var f := FirstHolding(t, 0, start, length);
      (WriteAllowed(t, start, length) <==> AllWritable(t, start, length)) <==>
        if WriteAllowed(t, start, length) then forall j: nat :: j < f && Decides(t, start, length, j) ==> t[j].W
        else exists j: nat :: Decides(t, start, length, j) && !t[j].W
  {
    var f := FirstHolding(t, 0, start, length);
    AllWritableIs(t, start, length);
    if f < |t| {
      forall j: nat | Decides(t, start, length, j) ensures j <= f { DecidesBelow(t, start, length, j); }
    }
  }

  lemma DecidesBelow(t: Table, start: int, length: nat, j: nat)
    requires NoWrap(t, start, length) && FirstHolding(t, 0, start, length) < |t| && Decides(t, start, length, j)
    ensures j <= FirstHolding(t, 0, start, length)
  {
    var f := FirstHolding(t, 0, start, length);
    HoldsIs(t[f], start, length);
    var a :| start <= a < start + length && Decider(t, 0, a) == j;
    assert Matches(t[f], a);
  }

  lemma AllReadableIs(t: Table, start: int, length: nat)
    ensures AllReadable(t, start, length) <==>
      !Gap(t, start, length) && forall j: nat :: Decides(t, start, length, j) ==> t[j].R
  {
    if !Gap(t, start, length) && forall j: nat :: Decides(t, start, length, j) ==> t[j].R {
      forall a | start <= a < start + length ensures MayRead(t, a) {
        var j := Decider(t, 0, a);
        assert Decides(t, start, length, j);
      }
    }
    if AllReadable(t, start, length) {
      forall a | start <= a < start + length ensures Decider(t, 0, a) < |t| { assert MayRead(t, a); }
      forall j: nat | Decides(t, start, length, j) ensures t[j].R {
        var a :| start <= a < start + length && Decider(t, 0, a) == j;
        assert MayRead(t, a);
      }
    }
  }

  lemma ReadRight(t: Table, start: int, length: nat)
    requires NoWrap(t, start, length)
    ensures var f := FirstHolding(t, 0, start, length);
      (ReadAllowed(t, start, length) <==> AllReadable(t, start, length)) <==>
        if ReadAllowed(t, start, length) then forall j: nat :: j < f && Decides(t, start, length, j) ==> t[j].R
        else Gap(t, start, length) || exists j: nat :: Decides(t, start, length, j) && !t[j].R
  {
    var f := FirstHolding(t, 0, start, length);
    AllReadableIs(t, start, length);
    if f < |t| {
      forall j: nat | Decides(t, start, length, j) ensures j <= f { DecidesBelow(t, start, length, j); }
      NoGap(t, start, length);
    }
  }

  lemma NoGap(t: Table, start: int, length: nat)
    requires NoWrap(t, start, length) && FirstHolding(t, 0, start, length) < |t|
    ensures !Gap(t, start, length)
  {
    var f := FirstHolding(t, 0, start, length);
    HoldsIs(t[f], start, length);
    forall a | start <= a < start + length ensures Decider(t, 0, a) < |t| { assert Matches(t[f], a); }
  }

  // ---------------------------------------------------------------- regions that the lookups get wrong

  const UNUSED := PmpEntry(0, 0, NullRegion, false, false, false, false)

  /** One readable entry of 4096 bytes that may not be written. */
  function ReadOnlyPage(): Table {
    seq(MAX_NUM_PMPS, i => if i == 0 then PmpEntry(0x8000_0000, 0x1000, NAPOT, true, false, false, false) else UNUSED)
  }

  lemma {:induction false} UnusedNeverHolds(t: Table, from: nat, start: int, length: nat)
    requires from <= |t| && forall i :: from <= i < |t| ==> t[i] == UNUSED
    ensures FirstHolding(t, from, start, length) == |t|
    decreases |t| - from
  {
    if from < |t| { UnusedNeverHolds(t, from + 1, start, length); }
  }

  lemma PageDecides(t: Table, a: int)
    requires t[0].A == NAPOT && t[0].baseAddr == 0x8000_0000 && t[0].size == 0x1000 && 0x8000_0000 <= a < 0x8000_1000
    ensures Decider(t, 0, a) == 0
  {
  }

  /** The whole page may be written, by the lookup, and not read; short of its last byte it is the other
      way round, as it should be for both. */
  lemma WholePage()
    ensures var t := ReadOnlyPage();
      && NoWrap(t, 0x8000_0000, 0x1000)
      && WriteAllowed(t, 0x8000_0000, 0x1000) && !AllWritable(t, 0x8000_0000, 0x1000)
      && !ReadAllowed(t, 0x8000_0000, 0x1000) && AllReadable(t, 0x8000_0000, 0x1000)
      && !WriteAllowed(t, 0x8000_0000, 0xFFF) && ReadAllowed(t, 0x8000_0000, 0xFFF)
  {
    var t := ReadOnlyPage();
    UnusedNeverHolds(t, 1, 0x8000_0000, 0x1000);
    HoldsIs(t[0], 0x8000_0000, 0x1000);
    HoldsIs(t[0], 0x8000_0000, 0xFFF);
    hide Holds, Signed;
    forall a | 0x8000_0000 <= a < 0x8000_1000 ensures !MayWrite(t, a) && MayRead(t, a) { PageDecides(t, a); }
    assert !MayWrite(t, 0x8000_0000);
  }

  /** A region of two pages that begins with it may be written as well. */
  lemma PagePassedOver()
    ensures var t := ReadOnlyPage();
      && NoWrap(t, 0x8000_0000, 0x2000)
      && WriteAllowed(t, 0x8000_0000, 0x2000) && !MayWrite(t, 0x8000_0000)
      && !EndsWith(t[0], 0x8000_0000, 0x2000) && !Unhindered(t, 0x8000_0000, 0x2000)
  {
    var t := ReadOnlyPage();
    UnusedNeverHolds(t, 1, 0x8000_0000, 0x2000);
    HoldsIs(t[0], 0x8000_0000, 0x2000);
    hide Holds, Signed;
    PageDecides(t, 0x8000_0000);
    assert !Misses(t[0], 0x8000_0000, 0x2000);
  }

  /** The page twice, first writable and then not. */
  function PageTwice(): Table {
    ReadOnlyPage()[0 := PmpEntry(0x8000_0000, 0x1000, NAPOT, true, true, false, false)][1 := ReadOnlyPage()[0]]
  }

  /** Only the entry that decides matters: here a later one ends with the region as well and says
      otherwise, and the lookup is right all the same. */
  lemma LaterEndIsHarmless()
    ensures var t := PageTwice();
      && NoWrap(t, 0x8000_0000, 0x1000) && FirstHolding(t, 0, 0x8000_0000, 0x1000) == |t|
      && Contains(t[1], 0x8000_0000, 0x1000) && EndsWith(t[1], 0x8000_0000, 0x1000)
      && t[1].W != WriteAllowed(t, 0x8000_0000, 0x1000)
      && (WriteAllowed(t, 0x8000_0000, 0x1000) <==> AllWritable(t, 0x8000_0000, 0x1000))
  {
    var t := PageTwice();
    UnusedNeverHolds(t, 2, 0x8000_0000, 0x1000);
    HoldsIs(t[0], 0x8000_0000, 0x1000);
    HoldsIs(t[1], 0x8000_0000, 0x1000);
    hide Holds, Signed;
    forall a | 0x8000_0000 <= a < 0x8000_1000 ensures MayWrite(t, a) { PageDecides(t, a); }
  }
}
