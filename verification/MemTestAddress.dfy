/** The address bus test of modules/misc/hss_memtest.c and the combined test built on it. */
module MemTestAddress {
  import opened MemTest
  import opened Words
  import opened Wrappers

  const PATTERN: Lines := Bits(0xAAAA_AAAA_AAAA_AAAA)
  const ANTI_PATTERN: Lines := Bits(0x5555_5555_5555_5555)

  // ---------------------------------------------------------------- which offsets are used

  /** How many times the offset doubles before it misses the address mask. */
  function LineCount(mask: nat): nat {
    if mask % 2 == 0 then 0 else 1 + LineCount(mask / 2)
  }

  /** Offset 0 and the powers of two, numbered from 0. */
  function Offset(x: nat): nat { if x == 0 then 0 else Pow2(x - 1) }

  lemma {:induction false} MeetOneHot(i: nat, mask: nat)
    ensures Meet(Pow2(i), mask) <==> Digit(mask, i)
    decreases i
  {
    if i == 0 {
      assert !Meet(0, mask / 2);
    } else {
      MeetOneHot(i - 1, mask / 2);
      if mask == 0 { ZeroDigits(i); }
    }
  }

  lemma {:induction false} LineIsDigit(i: nat, mask: nat)
    requires i <= LineCount(mask)
    ensures Digit(mask, i) <==> i < LineCount(mask)
    decreases i
  {
    if i > 0 { LineIsDigit(i - 1, mask / 2); }
  }

  lemma {:induction false} OffsetInRange(x: nat, mask: nat)
    requires x <= LineCount(mask)
    ensures Offset(x) <= mask
    decreases x
  {
    if x > 1 { OffsetInRange(x - 1, mask / 2); }
  }

  lemma OffsetsDiffer(x: nat, y: nat)
    requires x < y
    ensures Offset(x) < Offset(y)
  {
    if x > 0 { Pow2Monotone(x - 1, y - 1); }
  }

  /** With a power-of-two word count, every power of two in range is used. */
  lemma {:induction false} PowerOfTwoRange(k: nat)
    ensures LineCount(Pow2(k) - 1) == k
    decreases k
  {
    if k > 0 { PowerOfTwoRange(k - 1); }
  }

  // ---------------------------------------------------------------- what the test can see

  function DecodeOf(m: Memory, x: nat): nat
    requires m.Valid() && Offset(x) < |m.decode|
  {
    m.decode[Offset(x)]
  }

  /** What offset `o` shows while `t` carries the anti-pattern and all other used cells the pattern. */
  function Probe(m: Memory, t: nat, o: nat): Lines
    requires m.Valid() && Offset(t) < |m.decode| && Offset(o) < |m.decode|
  {
    Settle(m.faults[DecodeOf(m, o)], if DecodeOf(m, o) == DecodeOf(m, t) then ANTI_PATTERN else PATTERN)
  }

  ghost predicate InRange(m: Memory, c: nat) {
    m.Valid() && forall x: nat {:trigger Offset(x)} :: x <= c ==> Offset(x) < |m.decode|
  }

  /** Every used cell holds the pattern, and used offsets that share a cell share one whose lines
      are all stuck at the pattern. */
  ghost predicate Undetectable(m: Memory, c: nat)
    requires InRange(m, c)
  {
    && (forall x: nat :: x <= c ==> Keeps(m.faults[DecodeOf(m, x)], PATTERN))
    && (forall x: nat, y: nat :: x < y <= c && DecodeOf(m, x) == DecodeOf(m, y) ==>
          Settle(m.faults[DecodeOf(m, x)], ANTI_PATTERN) == PATTERN)
  }

  ghost predicate ProbesPass(m: Memory, t: nat, c: nat)
    requires InRange(m, c) && t <= c
  {
    forall o: nat :: o <= c && o != t ==> Probe(m, t, o) == PATTERN
  }

  lemma ProbesDecide(m: Memory, c: nat)
    requires InRange(m, c) && c > 0
    ensures (forall t: nat :: t <= c ==> ProbesPass(m, t, c)) <==> Undetectable(m, c)
  {
    if forall t: nat :: t <= c ==> ProbesPass(m, t, c) {
      forall x: nat | x <= c ensures Keeps(m.faults[DecodeOf(m, x)], PATTERN) {
        var t := if x == 0 then 1 else 0;
        assert ProbesPass(m, t, c) && Offset(x) == Offset(x);
        assert Probe(m, t, x) == PATTERN;
        ShownIsKept(m.faults[DecodeOf(m, x)], ANTI_PATTERN);
      }
      forall x: nat, y: nat | x < y <= c && DecodeOf(m, x) == DecodeOf(m, y)
        ensures Settle(m.faults[DecodeOf(m, x)], ANTI_PATTERN) == PATTERN
      {
        assert ProbesPass(m, x, c) && Offset(y) == Offset(y);
        assert Probe(m, x, y) == PATTERN;
      }
    }
    if Undetectable(m, c) {
      forall t: nat | t <= c ensures ProbesPass(m, t, c) {
        forall o: nat | o <= c && o != t ensures Probe(m, t, o) == PATTERN {
          assert Keeps(m.faults[DecodeOf(m, o)], PATTERN);
          var x, y := if t < o then t else o, if t < o then o else t;
          assert x < y <= c;
        }
      }
    }
  }

  /** In round `t` the first offset after 0 that does not show the pattern is number `x`. */
  ghost predicate FirstShown(m: Memory, t: nat, x: nat, c: nat)
    requires InRange(m, c) && t <= c
  {
    && 1 <= x <= c && x != t && Probe(m, t, x) != PATTERN
    && forall y: nat :: 1 <= y < x && y != t ==> Probe(m, t, y) == PATTERN
  }

  /** The first round to fail after that of offset 0 is number `x`. */
  ghost predicate FirstFailed(m: Memory, x: nat, c: nat)
    requires InRange(m, c)
  {
    1 <= x <= c && !ProbesPass(m, x, c) && forall s: nat :: 1 <= s < x ==> ProbesPass(m, s, c)
  }

  /** Which offset is to blame: the first that shows the anti-pattern written to offset 0, or, if that shows
      nowhere, the first whose own anti-pattern shows elsewhere. */
  ghost predicate Blamed(m: Memory, x: nat, c: nat)
    requires InRange(m, c)
  {
    if ProbesPass(m, 0, c)
    then FirstFailed(m, x, c)
    else FirstShown(m, 0, x, c)
  }

  // ---------------------------------------------------------------- the loops

  ghost predicate Carries(m: Memory, lo: nat, hi: nat, c: nat)
    requires InRange(m, c) && hi <= c
    reads m.cells
  {
    forall x: nat :: lo <= x <= hi ==> m.cells[DecodeOf(m, x)] == PATTERN
  }

  /** The cells while `t` is being probed. */
  ghost predicate Probing(m: Memory, t: nat, c: nat)
    requires InRange(m, c) && t <= c
    reads m.cells
  {
    forall o: nat :: o <= c && o != t ==> m.Load(Offset(o)) == Probe(m, t, o)
  }

  lemma MaskStep(i: nat, mask: nat)
    requires i <= LineCount(mask)
    ensures Meet(Pow2(i), mask) <==> i < LineCount(mask)
    ensures Pow2(i) == Offset(i + 1)
  {
    MeetOneHot(i, mask); LineIsDigit(i, mask);
  }

  /** Walk up the address bus, setting cells to the pattern. */
  method SetLines(m: Memory, addrMask: nat)
    requires InRange(m, LineCount(addrMask))
    modifies m.cells
    ensures Carries(m, 1, LineCount(addrMask), LineCount(addrMask))
  {
    var offset := 1;
    ghost var i, c := 0, LineCount(addrMask);
    MaskStep(0, addrMask);
    while Meet(offset, addrMask)
      invariant i <= c && offset == Pow2(i)
      invariant Meet(offset, addrMask) <==> i < c
      invariant Carries(m, 1, i, c)
      decreases c - i
    {
      assert Offset(i + 1) == offset;
      m.Store(offset, PATTERN);
      offset := offset * 2;
      i := i + 1;
      MaskStep(i, addrMask);
    }
  }

  ghost predicate FirstWrong(m: Memory, skip: nat, x: nat, c: nat)
    requires InRange(m, c)
    reads m.cells
  {
    && 1 <= x <= c && Offset(x) != skip && m.Load(Offset(x)) != PATTERN
    && forall y: nat {:trigger Offset(y)} :: 1 <= y < x && Offset(y) != skip ==> m.Load(Offset(y)) == PATTERN
  }

  /** Walk up the address bus, verifying cells, `skip` excepted. */
  method CheckLines(m: Memory, addrMask: nat, skip: nat) returns (result: Option<nat>)
    requires InRange(m, LineCount(addrMask))
    ensures result.None? <==>
      forall o: nat {:trigger Offset(o)} :: 1 <= o <= LineCount(addrMask) && Offset(o) != skip ==>
        m.Load(Offset(o)) == PATTERN
    ensures result.Some? ==> exists x: nat :: FirstWrong(m, skip, x, LineCount(addrMask)) && result.value == Offset(x)
  {
    var offset := 1;
    ghost var i, c := 0, LineCount(addrMask);
    MaskStep(0, addrMask);
    result := None;
    while Meet(offset, addrMask)
      invariant i <= c && offset == Pow2(i)
      invariant Meet(offset, addrMask) <==> i < c
      invariant forall o: nat {:trigger Offset(o)} :: 1 <= o <= i && Offset(o) != skip ==> m.Load(Offset(o)) == PATTERN
      decreases c - i
    {
      assert Offset(i + 1) == offset;
      if m.Load(offset) != PATTERN && offset != skip {
        assert FirstWrong(m, skip, i + 1, c);
        result := Some(offset);
        return;
      }
      offset := offset * 2;
      i := i + 1;
      MaskStep(i, addrMask);
    }
  }

  /** One round of the last loop: the anti-pattern goes to one offset and must show nowhere else. */
  method ProbeLine(m: Memory, addrMask: nat, testOffset: nat, ghost t: nat) returns (ok: bool)
    requires InRange(m, LineCount(addrMask))
    requires 1 <= t <= LineCount(addrMask) && testOffset == Offset(t)
    requires Carries(m, 0, LineCount(addrMask), LineCount(addrMask))
    modifies m.cells
    ensures ok <==> ProbesPass(m, t, LineCount(addrMask))
    ensures ok ==> Carries(m, 0, LineCount(addrMask), LineCount(addrMask))
  {
    ghost var c := LineCount(addrMask);
    m.Store(testOffset, ANTI_PATTERN);
    assert Probing(m, t, c);
    OffsetsDiffer(0, t);
    assert Offset(0) == 0;
    ok := m.Load(0) == PATTERN;
    if ok {
      var first := CheckLines(m, addrMask, testOffset);
      ok := first.None?;
      OnlyOneSkipped(m, t, c);
    }
    if ok {
      m.Store(testOffset, PATTERN);
    }
  }

  lemma OnlyOneSkipped(m: Memory, t: nat, c: nat)
    requires InRange(m, c) && 1 <= t <= c && Probing(m, t, c) && m.Load(Offset(0)) == PATTERN
    ensures (forall o: nat {:trigger Offset(o)} :: 1 <= o <= c && Offset(o) != Offset(t) ==>
      m.Load(Offset(o)) == PATTERN)
      <==> ProbesPass(m, t, c)
  {
    forall o: nat {:trigger Offset(o)} | o <= c && o != t ensures Offset(o) != Offset(t) {
      if o < t { OffsetsDiffer(o, t); } else { OffsetsDiffer(t, o); }
    }
    assert Probe(m, t, 0) == PATTERN;
  }

  /** The first round: the anti-pattern goes to offset 0. */
  method ProbeBase(m: Memory, addrMask: nat) returns (result: Option<nat>)
    requires InRange(m, LineCount(addrMask))
    requires Carries(m, 1, LineCount(addrMask), LineCount(addrMask))
    modifies m.cells
    ensures result.None? <==> ProbesPass(m, 0, LineCount(addrMask))
    ensures result.Some? ==> exists x: nat :: FirstShown(m, 0, x, LineCount(addrMask)) && result.value == Offset(x)
    ensures Carries(m, 0, LineCount(addrMask), LineCount(addrMask))
  {
    ghost var c := LineCount(addrMask);
    assert Offset(0) == 0;
    m.Store(0, ANTI_PATTERN);
    assert Probing(m, 0, c);
    result := CheckLines(m, addrMask, 0);
    forall o: nat {:trigger Offset(o)} | 1 <= o <= c ensures Offset(o) != 0 { OffsetsDiffer(0, o); }
    if result.Some? {
      ghost var x: nat :| FirstWrong(m, 0, x, c) && result.value == Offset(x);
      assert FirstShown(m, 0, x, c);
    }
    m.Store(0, PATTERN);
  }

  /** The remaining rounds, one per address line. */
  method ProbeLines(m: Memory, addrMask: nat) returns (result: Option<nat>)
    requires InRange(m, LineCount(addrMask))
    requires Carries(m, 0, LineCount(addrMask), LineCount(addrMask))
    modifies m.cells
    ensures result.None? <==> forall t: nat :: 1 <= t <= LineCount(addrMask) ==> ProbesPass(m, t, LineCount(addrMask))
    ensures result.Some? ==> exists x: nat :: FirstFailed(m, x, LineCount(addrMask)) && result.value == Offset(x)
  {
    ghost var t, c := 0, LineCount(addrMask);
    var testOffset := 1;
    MaskStep(0, addrMask);
    result := None;
    while Meet(testOffset, addrMask)
      invariant t <= c && testOffset == Pow2(t)
      invariant Meet(testOffset, addrMask) <==> t < c
      invariant Carries(m, 0, c, c)
      invariant forall s: nat :: 1 <= s <= t ==> ProbesPass(m, s, c)
      decreases c - t
    {
      var ok := ProbeLine(m, addrMask, testOffset, t + 1);
      if !ok {
        assert FirstFailed(m, t + 1, c);
        result := Some(testOffset);
        return;
      }
      testOffset := testOffset * 2;
      t := t + 1;
      MaskStep(t, addrMask);
    }
  }

  /** `HSS_MemTestAddressBus`, for any word count and any faults: it reports nothing exactly when no
      offset besides 0 is in use or the faults are of the one kind it cannot see, and otherwise the offset to
      blame. */
  method TestAddressBus(m: Memory, numBytes: nat) returns (result: Option<nat>)
    requires m.Valid() && 1 <= numBytes / 8 <= |m.decode|
    modifies m.cells
    ensures InRange(m, LineCount(numBytes / 8 - 1))
    ensures result.None? <==> LineCount(numBytes / 8 - 1) == 0 || Undetectable(m, LineCount(numBytes / 8 - 1))
    ensures result.Some? ==> exists x: nat :: Blamed(m, x, LineCount(numBytes / 8 - 1)) && result.value == Offset(x)
  {
    var addrMask := numBytes / 8 - 1;
    ghost var c := LineCount(addrMask);
    forall x: nat | x <= c ensures Offset(x) < |m.decode| { OffsetInRange(x, addrMask); }
    SetLines(m, addrMask);
    result := ProbeBase(m, addrMask);
    if result == None {
      result := ProbeLines(m, addrMask);
    }
    if c > 0 { ProbesDecide(m, c); }
  }

  // ---------------------------------------------------------------- consequences

  /** Used offsets reach distinct cells. */
  ghost predicate LinesDistinct(m: Memory, c: nat)
    requires InRange(m, c)
  {
    forall x: nat, y: nat :: x < y <= c ==> DecodeOf(m, x) != DecodeOf(m, y)
  }

  lemma PatternsDiffer()
    ensures PATTERN != ANTI_PATTERN
  {
    assert !PATTERN[0] && ANTI_PATTERN[0];
  }

  /** Without stuck lines the test is exact: it passes precisely when address 0 and all powers of two
      in use are decoded apart. */
  lemma SoundCellsExact(m: Memory, c: nat)
    requires InRange(m, c)
    requires forall x: nat :: x <= c ==> Sound(m.faults[DecodeOf(m, x)])
    ensures (c == 0 || Undetectable(m, c)) <==> LinesDistinct(m, c)
  {
    forall x: nat | x <= c
      ensures Keeps(m.faults[DecodeOf(m, x)], PATTERN) && Settle(m.faults[DecodeOf(m, x)], ANTI_PATTERN) == ANTI_PATTERN
    {
      SoundSettles(m.faults[DecodeOf(m, x)], PATTERN);
      SoundSettles(m.faults[DecodeOf(m, x)], ANTI_PATTERN);
    }
    PatternsDiffer();
  }

  /** Address 0 and the addresses with one line set. */
  ghost predicate OnLine(a: nat) { a == 0 || exists i: nat :: a == Pow2(i) }

  lemma OnLineIsOffset(a: nat, k: nat) returns (x: nat)
    requires OnLine(a) && a < Pow2(k)
    ensures x <= k && a == Offset(x)
  {
    if a == 0 { return 0; }
    var i: nat :| a == Pow2(i);
    if k < i { Pow2Monotone(k, i); }
    x := i + 1;
  }

  /** Address 0 and all powers of two below 2^k reach different cells. */
  ghost predicate PowersApart(m: Memory, k: nat)
    requires Pow2(k) <= |m.decode|
  {
    forall a: nat, b: nat :: a < b < Pow2(k) && OnLine(a) && OnLine(b) ==> m.decode[a] != m.decode[b]
  }

  lemma DistinctMeansApart(m: Memory, k: nat, a: nat, b: nat)
    requires Pow2(k) <= |m.decode| && InRange(m, k) && LinesDistinct(m, k)
    requires a < b < Pow2(k) && OnLine(a) && OnLine(b)
    ensures m.decode[a] != m.decode[b]
  {
    var x := OnLineIsOffset(a, k);
    var y := OnLineIsOffset(b, k);
    if y < x { OffsetsDiffer(y, x); }
    assert DecodeOf(m, x) != DecodeOf(m, y);
  }

  lemma ApartMeansDistinct(m: Memory, k: nat, x: nat, y: nat)
    requires Pow2(k) <= |m.decode| && InRange(m, k) && PowersApart(m, k) && x < y <= k
    ensures DecodeOf(m, x) != DecodeOf(m, y)
  {
    PowerOfTwoRange(k);
    OffsetsDiffer(x, y);
    OffsetInRange(y, Pow2(k) - 1);
    assert OnLine(Offset(x)) && OnLine(Offset(y));
  }

  /** For 2^k words without stuck lines the test passes precisely when address 0 and all powers of two
      in range are decoded apart. */
  lemma PowerOfTwoExact(m: Memory, k: nat)
    requires Pow2(k) <= |m.decode| && InRange(m, k)
    requires forall x: nat :: x <= k ==> Sound(m.faults[DecodeOf(m, x)])
    ensures LineCount(Pow2(k) - 1) == k
    ensures (k == 0 || Undetectable(m, k)) <==> PowersApart(m, k)
  {
    PowerOfTwoRange(k);
    SoundCellsExact(m, k);
    if LinesDistinct(m, k) {
      forall a: nat, b: nat | a < b < Pow2(k) && OnLine(a) && OnLine(b) ensures m.decode[a] != m.decode[b] {
        DistinctMeansApart(m, k, a, b);
      }
    }
    if PowersApart(m, k) {
      forall x: nat, y: nat | x < y <= k ensures DecodeOf(m, x) != DecodeOf(m, y) { ApartMeansDistinct(m, k, x, y); }
    }
  }

  /** `HSS_MemTestDDR_Ex`: the three tests together pass exactly on healthy memory. */
  method TestDDR(m: Memory, numBytes: nat) returns (result: bool)
    requires m.Valid() && 1 <= numBytes / 8 <= |m.decode| && numBytes < Pow2(WIDTH)
    modifies m.cells
    ensures result <==> m.Healthy(numBytes / 8)
  {
    ghost var c := LineCount(numBytes / 8 - 1);
    var pattern := m.TestDataBus();
    result := pattern == 0;
    if result {
      var bus := TestAddressBus(m, numBytes);
      if m.Healthy(numBytes / 8) { HealthyPasses(m, numBytes / 8, c); }
      result := bus.None?;
    }
    if result {
      var device := m.TestDevice(numBytes);
      result := device.None?;
    }
  }

  lemma HealthyPasses(m: Memory, n: nat, c: nat)
    requires m.Valid() && 1 <= n <= |m.decode| && m.Healthy(n) && c == LineCount(n - 1) && InRange(m, c)
    ensures c == 0 || Undetectable(m, c)
  {
    forall x: nat | x <= c ensures Offset(x) < n { OffsetInRange(x, n - 1); }
    forall x: nat, y: nat | x < y <= c ensures DecodeOf(m, x) != DecodeOf(m, y) { OffsetsDiffer(x, y); }
    SoundCellsExact(m, c);
  }

  // ---------------------------------------------------------------- the blind spot

  /** A cell with every line stuck at the test pattern. */
  function StuckAtPattern(): Cell { seq(WIDTH, i requires 0 <= i < WIDTH => StuckAt(PATTERN[i])) }

  lemma AliasUndetectable(m: Memory)
    requires m.Valid() && m.decode == [0, 0] && m.faults == [StuckAtPattern()]
    ensures InRange(m, 1) && Undetectable(m, 1) && !LinesDistinct(m, 1)
  {
    assert Offset(0) == 0 && Offset(1) == 1;
    assert Settle(StuckAtPattern(), PATTERN) == PATTERN;
    assert Settle(StuckAtPattern(), ANTI_PATTERN) == PATTERN;
    assert DecodeOf(m, 0) == DecodeOf(m, 1);
  }

  /** Two words that reach one cell, and the address bus test finds nothing. */
  method AliasPasses() returns (m: Memory, result: Option<nat>)
    ensures m.Valid() && |m.decode| == 2 && m.decode[0] == m.decode[1]
    ensures result.None?
  {
    m := new Memory([0, 0], [StuckAtPattern()]);
    AliasUndetectable(m);
    assert LineCount(16 / 8 - 1) == 1;
    result := TestAddressBus(m, 16);
  }
}
