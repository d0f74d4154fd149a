/** What CRC-32 detects: every change confined to four consecutive bytes. */
module Crc32Burst {
  import opened ShiftRegister
  import opened Crc32
  import opened Words

  function Join(b: byte, rest: bv32): bv32 { Xor(Word(b), rest << 8) }

  /** Up to four bytes as one word, first byte lowest. */
  function PackBytes(w: seq<byte>): bv32 { Pack(Join, 0, w) }

  /** `rest` leaves room for `n` bytes more. */
  predicate Fits(rest: bv32, n: int) {
    && (n >= 1 ==> rest <= 0xFF_FFFF)
    && (n >= 2 ==> rest <= 0xFFFF)
    && (n >= 3 ==> rest <= 0xFF)
    && (n >= 4 ==> rest == 0)
  }

  lemma JoinFits(b: byte, rest: bv32, n: int)
    requires 0 < n <= 4 && Fits(rest, n)
    ensures Fits(Join(b, rest), n - 1)
  {
  }

  lemma JoinInjective(a: byte, b: byte, v: bv32, w: bv32, n: int)
    requires 0 < n && Fits(v, n) && Fits(w, n) && Join(a, v) == Join(b, w)
    ensures a == b && v == w
  {
  }

  lemma JoinFitsEverywhere()
    ensures forall b, w, m {:trigger Join(b, w), Fits(w, m)} :: 0 < m <= 4 && Fits(w, m) ==> Fits(Join(b, w), m - 1)
  {
    forall b, w, m | 0 < m <= 4 && Fits(w, m) ensures Fits(Join(b, w), m - 1) { JoinFits(b, w, m); }
  }

  lemma JoinInjectiveEverywhere()
    ensures forall a, b, v, w, m {:trigger Join(a, v), Join(b, w), Fits(v, m)} ::
      0 < m <= 4 && Fits(v, m) && Fits(w, m) && Join(a, v) == Join(b, w) ==> a == b && v == w
  {
    forall a, b, v, w, m | 0 < m <= 4 && Fits(v, m) && Fits(w, m) && Join(a, v) == Join(b, w) ensures a == b && v == w {
      JoinInjective(a, b, v, w, m);
    }
  }

  lemma PackBytesInjective(w: seq<byte>, v: seq<byte>)
    requires |w| == |v| <= 4 && PackBytes(w) == PackBytes(v)
    ensures w == v
  {
    JoinFitsEverywhere(); JoinInjectiveEverywhere();
    PackInjective(Join, 0, Fits, w, v, 4);
  }

  /** The four bytes of a word, lowest first. */
  function Unpack(w: bv32): (s: seq<byte>)
    ensures |s| == 4
  {
    [LowByte(w), LowByte(w >> 8), LowByte(w >> 16), LowByte(w >> 24)]
  }

  lemma PackUnpack(w: bv32)
    ensures PackBytes(Unpack(w)) == w
  {
    PackCons(Unpack(w), LowByte(w), [LowByte(w >> 8), LowByte(w >> 16), LowByte(w >> 24)]);
    PackCons(Unpack(w)[1..], LowByte(w >> 8), [LowByte(w >> 16), LowByte(w >> 24)]);
    PackCons([LowByte(w >> 16), LowByte(w >> 24)], LowByte(w >> 16), [LowByte(w >> 24)]);
    PackCons([LowByte(w >> 24)], LowByte(w >> 24), []);
    Rejoined(w);
    hide Join;
  }

  lemma PackCons(s: seq<byte>, b: byte, rest: seq<byte>)
    requires s == [b] + rest
    ensures PackBytes(s) == Join(b, PackBytes(rest))
  {
    assert s[1..] == rest;
  }

  lemma Rejoined(w: bv32)
    ensures Join(LowByte(w), Join(LowByte(w >> 8), Join(LowByte(w >> 16), Join(LowByte(w >> 24), 0)))) == w
  {
    RejoinedWords(w);
  }

  lemma RejoinedWords(w: bv32)
    ensures var top := ((w >> 24) & 0xFF) ^ ((0 as bv32) << 8);
      var upper := ((w >> 16) & 0xFF) ^ (top << 8);
      var rest := ((w >> 8) & 0xFF) ^ (upper << 8);
      (w & 0xFF) ^ (rest << 8) == w
  {
  }

  lemma PackBytesFits(w: seq<byte>)
    requires |w| <= 3
    ensures PackBytes(w) <= 0xFF_FFFF
  {
    JoinFitsEverywhere();
    PackFits(Join, 0, Fits, w, 4);
  }

  lemma ShiftedUp(rest: bv32)
    requires rest <= 0xFF_FFFF
    ensures (rest << 8) & 0xFF == 0
    ensures (rest << 8) >> 8 == rest
  {
  }

  lemma XorRegroups(a: bv32, b: bv32, c: bv32)
    ensures Xor(Xor(a, b), c) == Xor(a, Xor(b, c))
  {
  }

  lemma AbsorbJoin(c: bv32, b: byte, rest: bv32)
    requires rest <= 0xFF_FFFF
    ensures Xor(FeedByte(c, b), rest) == Shifts(Xor(c, Join(b, rest)), 8)
  {
    FeedByteIsShifts(c, b);
    ShiftedUp(rest);
    ShiftsHigh(rest << 8);
    ShiftsLinear(Xor(c, Word(b)), rest << 8, 8);
    XorRegroups(c, Word(b), rest << 8);
  }

  /** Four bytes fit in the register at once. */
  lemma {:induction false} RegisterWindow(c: bv32, w: seq<byte>)
    requires |w| <= 4
    ensures Register(c, w) == Shifts(Xor(c, PackBytes(w)), 8 * |w|)
    decreases w
  {
    if w == [] {
      XorZero(c);
    } else {
      var rest := PackBytes(w[1..]);
      PackBytesFits(w[1..]);
      RegisterWindow(FeedByte(c, w[0]), w[1..]);
      AbsorbJoin(c, w[0], rest);
      IterAdd(Shift, Xor(c, Join(w[0], rest)), 8, 8 * (|w| - 1));
    }
  }

  /** A message followed by its own checksum, lowest byte first, has the same checksum whatever it says. */
  lemma Residue(m: seq<byte>)
    ensures Crc(0, m + Unpack(Crc(0, m))) == 0x2144_DF1C
  {
    var r, tail := Register(Not(0), m), Unpack(Crc(0, m));
    FeedConcat(FeedByte, Not(0), m, tail);
    RegisterWindow(r, tail);
    PackUnpack(Not(r));
    XorWithNot(r);
    AllOnesThrough();
  }

  lemma XorWithNot(c: bv32)
    ensures Xor(c, Not(c)) == 0xFFFF_FFFF
  {
  }

  lemma AllOnesThrough()
    ensures Not(Shifts(0xFFFF_FFFF, 32)) == 0x2144_DF1C
  {
    IterAdd(Shift, 0xFFFF_FFFF, 16, 16);
    IterAdd(Shift, 0xFFFF_FFFF, 8, 8);
    IterAdd(Shift, 0xBE26_ED00, 8, 8);
    IterEight(Shift, 0xFFFF_FFFF); IterEight(Shift, 0x2DFD_1072); IterEight(Shift, 0xBE26_ED00);
    IterEight(Shift, 0x00BE_26ED);
  }

  lemma XorZero(c: bv32)
    ensures Xor(c, 0) == c
  {
  }

  lemma XorInjective(c: bv32, a: bv32, b: bv32)
    requires Xor(c, a) == Xor(c, b)
    ensures a == b
  {
  }

  lemma XorInjectiveLeft(a: bv32, b: bv32, c: bv32)
    requires Xor(a, c) == Xor(b, c)
    ensures a == b
  {
  }

  lemma WindowInjective(c: bv32, w: seq<byte>, v: seq<byte>)
    requires |w| == |v| <= 4 && Register(c, w) == Register(c, v)
    ensures w == v
  {
    RegisterWindow(c, w); RegisterWindow(c, v);
    ShiftInjectiveEverywhere();
    IterInjective(Shift, Xor(c, PackBytes(w)), Xor(c, PackBytes(v)), 8 * |w|);
    XorInjective(c, PackBytes(w), PackBytes(v));
    PackBytesInjective(w, v);
  }

  lemma FeedByteInjective(x: bv32, y: bv32, b: byte)
    requires FeedByte(x, b) == FeedByte(y, b)
    ensures x == y
  {
    FeedByteIsShifts(x, b); FeedByteIsShifts(y, b);
    ShiftInjectiveEverywhere();
    IterInjective(Shift, Xor(x, Word(b)), Xor(y, Word(b)), 8);
    XorInjectiveLeft(x, y, Word(b));
  }

  /** The register after a common suffix still tells two register values apart. */
  lemma SuffixInjective(x: bv32, y: bv32, s: seq<byte>)
    requires Register(x, s) == Register(y, s)
    ensures x == y
  {
    forall x, y, b ensures FeedByte(x, b) == FeedByte(y, b) ==> x == y {
      if FeedByte(x, b) == FeedByte(y, b) { FeedByteInjective(x, y, b); }
    }
    FeedInjective(FeedByte, x, y, s);
  }

  lemma RegisterSplit(c: bv32, s: seq<byte>, p: nat, q: nat)
    requires p <= q <= |s|
    ensures Register(c, s) == Register(Register(Register(c, s[..p]), s[p..q]), s[q..])
  {
    assert s == s[..p] + (s[p..q] + s[q..]);
    FeedConcat(FeedByte, c, s[..p], s[p..q] + s[q..]);
    FeedConcat(FeedByte, Register(c, s[..p]), s[p..q], s[q..]);
  }

  lemma NotInjective(a: bv32, b: bv32)
    requires Not(a) == Not(b)
    ensures a == b
  {
  }

  lemma InThree(s: seq<byte>, lo: nat, hi: nat)
    requires lo <= hi <= |s|
    ensures s == s[..lo] + s[lo..hi] + s[hi..]
  {
    assert s[..hi] == s[..lo] + s[lo..hi];
  }

  /** Messages of one length that differ, but only inside four consecutive bytes, have different
      checksums, whatever the seed. */
  lemma BurstDetected(seed: bv32, s: seq<byte>, t: seq<byte>, p: nat)
    requires |s| == |t| && s != t
    requires forall i :: 0 <= i < |s| && s[i] != t[i] ==> p <= i < p + 4
    ensures Crc(seed, s) != Crc(seed, t)
  {
    var lo := if p <= |s| then p else |s|;
    var hi := if p + 4 <= |s| then p + 4 else |s|;
    assert s[..lo] == t[..lo] && s[hi..] == t[hi..];
    InThree(s, lo, hi);
    InThree(t, lo, hi);
    if Crc(seed, s) == Crc(seed, t) {
      var c := Register(Not(seed), s[..lo]);
      NotInjective(Register(Not(seed), s), Register(Not(seed), t));
      RegisterSplit(Not(seed), s, lo, hi);
      RegisterSplit(Not(seed), t, lo, hi);
      SuffixInjective(Register(c, s[lo..hi]), Register(c, t[lo..hi]), s[hi..]);
      WindowInjective(c, s[lo..hi], t[lo..hi]);
    }
  }
}
