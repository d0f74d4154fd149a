/** The memory tester of modules/misc/hss_memtest.c, run on memory that may be broken.

    A word on the bus is its 64 data lines, least significant first. The memory under test maps word
    offsets to physical cells by an arbitrary decode map, and any data line of any cell may be stuck
    at a level. Runs are not interrupted from the UART. */
module MemTest {
  import opened Words
  import opened Wrappers

  const WIDTH := 64

  type Lines = b: seq<bool> | |b| == WIDTH witness seq(WIDTH, _ => false)

  // ---------------------------------------------------------------- machine words and their lines

  /** The lines that carry the word `v`. */
  function Bits(v: nat): Lines { seq(WIDTH, i requires 0 <= i < WIDTH => Digit(v, i)) }

  /** `~v` on the lines. */
  function Inverted(b: Lines): Lines { seq(WIDTH, i requires 0 <= i < WIDTH => !b[i]) }

  lemma {:induction false} DigitsInjective(v: nat, w: nat, n: nat)
    requires v < Pow2(n) && w < Pow2(n)
    requires forall i: nat {:trigger Digit(v, i)} :: i < n ==> Digit(v, i) == Digit(w, i)
    ensures v == w
    decreases n
  {
    if n != 0 {
      assert Digit(v, 0) == Digit(w, 0);
      forall i: nat | i < n - 1 ensures Digit(v / 2, i) == Digit(w / 2, i) {
        assert Digit(v, i + 1) == Digit(w, i + 1);
      }
      DigitsInjective(v / 2, w / 2, n - 1);
    }
  }

  lemma BitsInjective(v: nat, w: nat)
    requires v < Pow2(WIDTH) && w < Pow2(WIDTH) && Bits(v) == Bits(w)
    ensures v == w
  {
    forall i: nat | i < WIDTH ensures Digit(v, i) == Digit(w, i) {
      assert Bits(v)[i] == Bits(w)[i];
    }
    DigitsInjective(v, w, WIDTH);
  }

  lemma {:induction false} OneHot(k: nat, i: nat)
    ensures Digit(Pow2(k), i) == (i == k)
    decreases i
  {
    if k == 0 {
      if i > 0 { ZeroDigits(i - 1); }
    } else if i > 0 {
      OneHot(k - 1, i - 1);
    }
  }

  /** `v << 1` in a 64-bit word. */
  function Doubled(v: nat): nat { (v * 2) % 0x1_0000_0000_0000_0000 }

  /** `(a & b) != 0`. */
  predicate Meet(a: nat, b: nat)
    decreases a, b
  {
    a != 0 && b != 0 && ((a % 2 == 1 && b % 2 == 1) || Meet(a / 2, b / 2))
  }

  // ---------------------------------------------------------------- memory with faults

  datatype Line = Free | StuckAt(level: bool)

  type Cell = c: seq<Line> | |c| == WIDTH witness seq(WIDTH, _ => Free)

  /** What a cell returns after `b` was written to it. */
  function Settle(c: Cell, b: Lines): Lines {
    seq(WIDTH, i requires 0 <= i < WIDTH => if c[i].Free? then b[i] else c[i].level)
  }

  predicate Sound(c: Cell) { forall i :: 0 <= i < WIDTH ==> c[i].Free? }

  lemma SoundSettles(c: Cell, b: Lines)
    requires Sound(c)
    ensures Settle(c, b) == b
  {
    assert forall i :: 0 <= i < WIDTH ==> Settle(c, b)[i] == b[i];
  }

  /** The cell can hold `b`: whatever was stored to make it return `b`, storing `b` does. */
  predicate Keeps(c: Cell, b: Lines) { Settle(c, b) == b }

  lemma ShownIsKept(c: Cell, x: Lines)
    ensures Keeps(c, Settle(c, x))
  {
    var b := Settle(c, x);
    assert forall i :: 0 <= i < WIDTH ==> Settle(c, b)[i] == b[i];
  }

  /** No stuck line can show both a pattern and its inverse. */
  lemma BothPolarities(c: Cell, b: Lines)
    requires Keeps(c, b) && Keeps(c, Inverted(b))
    ensures Sound(c)
  {
    forall i | 0 <= i < WIDTH ensures c[i].Free? {
      assert Settle(c, b)[i] == b[i] && Settle(c, Inverted(b))[i] == !b[i];
    }
  }

  /** The first walking-ones pattern that the cell cannot hold is that of line `k`. */
  ghost predicate FirstLost(c: Cell, k: nat) {
    !Keeps(c, Bits(Pow2(k))) && forall j: nat :: j < k ==> Keeps(c, Bits(Pow2(j)))
  }

  class Memory {
    const decode: seq<nat>
    const faults: seq<Cell>
    const cells: array<Lines>

    constructor (decode: seq<nat>, faults: seq<Cell>)
      requires forall o :: 0 <= o < |decode| ==> decode[o] < |faults|
      ensures Valid() && fresh(cells) && this.decode == decode && this.faults == faults
    {
      this.decode, this.faults := decode, faults;
      cells := new Lines[|faults|](_ => seq(WIDTH, _ => false));
    }

    ghost predicate Valid() {
      cells.Length == |faults| && forall o :: 0 <= o < |decode| ==> decode[o] < |faults|
    }

    /** The volatile load `baseAddr[offset]`. */
    function Load(offset: nat): Lines
      requires Valid() && offset < |decode|
      reads cells
    {
      Settle(faults[decode[offset]], cells[decode[offset]])
    }

    /** The volatile store `baseAddr[offset] = b`. */
    method Store(offset: nat, b: Lines)
      requires Valid() && offset < |decode|
      modifies cells
      ensures forall k :: 0 <= k < cells.Length ==> cells[k] == if k == decode[offset] then b else old(cells[k])
    {
      cells[decode[offset]] := b;
    }

    /** Nothing is wrong with the first `n` words: distinct offsets reach distinct cells, and no
        reached cell has a stuck line. */
    ghost predicate Healthy(n: nat)
      requires Valid() && n <= |decode|
    {
      && (forall a, b :: 0 <= a < b < n ==> decode[a] != decode[b])
      && (forall o :: 0 <= o < n ==> Sound(faults[decode[o]]))
    }

    /** Nothing is wrong with word `o`: its cell has no stuck line, and no other word reaches it. */
    ghost predicate Fine(o: nat, n: nat)
      requires Valid() && o < n <= |decode|
    {
      Sound(faults[decode[o]]) && forall a :: 0 <= a < n && a != o ==> decode[a] != decode[o]
    }

    lemma HealthyIsFine(n: nat)
      requires Valid() && n <= |decode|
      ensures Healthy(n) <==> forall o: nat :: o < n ==> Fine(o, n)
    {
      if forall o: nat :: o < n ==> Fine(o, n) {
        forall a, b | 0 <= a < b < n ensures decode[a] != decode[b] { assert Fine(a, n); }
        forall o | 0 <= o < n ensures Sound(faults[decode[o]]) { assert Fine(o, n); }
      }
    }

    // -------------------------------------------------------------- data bus

    /** `HSS_MemTestDataBus` at offset 0: zero when no data line of that cell is stuck, otherwise the first
        walking-ones pattern that the cell does not give back. */
    method TestDataBus() returns (result: nat)
      requires Valid() && |decode| > 0
      modifies cells
      ensures result == 0 <==> Sound(faults[decode[0]])
      ensures result != 0 ==> exists k: nat :: k < WIDTH && result == Pow2(k) && FirstLost(faults[decode[0]], k)
    {
      var pattern := 1;
      ghost var k := 0;
      var cell := faults[decode[0]];
      result := 0;
      while pattern != 0
        invariant k <= WIDTH
        invariant pattern == if k == WIDTH then 0 else Pow2(k)
        invariant forall j :: 0 <= j < k ==> Keeps(cell, Bits(Pow2(j)))
        decreases WIDTH - k
      {
        Store(0, Bits(pattern));
        if Load(0) != Bits(pattern) {
          result := pattern;
          assert FirstLost(cell, k);
          if Sound(cell) { SoundSettles(cell, Bits(pattern)); }
          return;
        }
        WalkStep(k);
        pattern := Doubled(pattern);
        k := k + 1;
      }
      WalkingOnes(cell);
    }

    // -------------------------------------------------------------- every cell

    /** After seeding `seeded` of `n` words, and inverting some, in those with which nothing is wrong. */
    ghost predicate Patterned(n: nat, seeded: nat, inverted: nat)
      requires Valid() && seeded <= n <= |decode|
      reads cells
    {
      forall o: nat :: o < seeded && Fine(o, n) ==>
        cells[decode[o]] == if o < inverted then Inverted(Bits(o + 1)) else Bits(o + 1)
    }

    method SeedCells(numWords: nat)
      requires Valid() && numWords <= |decode|
      modifies cells
      ensures Patterned(numWords, numWords, 0)
    {
      var offset, pattern := 0, 1;
      while offset < numWords
        invariant 0 <= offset <= numWords && pattern == offset + 1
        invariant Patterned(numWords, offset, 0)
      {
        Store(offset, Bits(pattern));
        pattern, offset := pattern + 1, offset + 1;
      }
    }

    /** Check one cell for its pattern and, if right, invert it. */
    method InvertCell(offset: nat, word: Lines) returns (ok: bool)
      requires Valid() && offset < |decode|
      modifies cells
      ensures ok <==> old(Load(offset)) == word
      ensures ok ==> Keeps(faults[decode[offset]], word)
      ensures forall k :: 0 <= k < cells.Length ==>
        cells[k] == if ok && k == decode[offset] then Inverted(word) else old(cells[k])
    {
      ok := Load(offset) == word;
      if ok {
        ShownIsKept(faults[decode[offset]], cells[decode[offset]]);
        Store(offset, Inverted(word));
      }
    }

    method FirstPass(numWords: nat) returns (result: Option<nat>)
      requires Valid() && numWords <= |decode|
      requires Patterned(numWords, numWords, 0)
      modifies cells
      ensures result.None? ==> Patterned(numWords, numWords, numWords)
      ensures result.None? ==> forall o :: 0 <= o < numWords ==> Keeps(faults[decode[o]], Bits(o + 1))
      ensures result.Some? ==> result.value < numWords && !Fine(result.value, numWords)
    {
      result := None;
      var offset, pattern := 0, 1;
      while offset < numWords
        invariant 0 <= offset <= numWords && pattern == offset + 1
        invariant forall o :: 0 <= o < offset ==> Keeps(faults[decode[o]], Bits(o + 1))
        invariant Patterned(numWords, numWords, offset)
      {
        if Fine(offset, numWords) { SoundSettles(faults[decode[offset]], cells[decode[offset]]); }
        var ok := InvertCell(offset, Bits(pattern));
        if !ok {
          result := Some(offset);
          return;
        }
        pattern, offset := pattern + 1, offset + 1;
      }
    }

    method SecondPass(numWords: nat) returns (result: Option<nat>)
      requires Valid() && numWords <= |decode|
      requires Patterned(numWords, numWords, numWords)
      ensures result.None? ==> forall o :: 0 <= o < numWords ==> Load(o) == Inverted(Bits(o + 1))
      ensures result.Some? ==> result.value < numWords && !Fine(result.value, numWords)
    {
      result := None;
      var offset, pattern := 0, 1;
      while offset < numWords
        invariant 0 <= offset <= numWords && pattern == offset + 1
        invariant forall o :: 0 <= o < offset ==> Load(o) == Inverted(Bits(o + 1))
      {
        var word := Inverted(Bits(pattern));
        if Fine(offset, numWords) { SoundSettles(faults[decode[offset]], cells[decode[offset]]); }
        if Load(offset) != word {
          result := Some(offset);
          return;
        }
        pattern, offset := pattern + 1, offset + 1;
      }
    }

    /** `HSS_MemTestDevice`: no failing word is reported exactly when the tested range is healthy, and with a
        word that is reported something is wrong. */
    method TestDevice(numBytes: nat) returns (result: Option<nat>)
      requires Valid() && numBytes / 8 <= |decode| && numBytes < Pow2(WIDTH)
      modifies cells
      ensures result.None? <==> Healthy(numBytes / 8)
      ensures result.Some? ==> result.value < numBytes / 8 && !Fine(result.value, numBytes / 8)
    {
      var numWords := numBytes / 8;
      HealthyIsFine(numWords);
      SeedCells(numWords);
      result := FirstPass(numWords);
      if result.None? {
        result := SecondPass(numWords);
        if result.None? { DevicePassed(numWords); }
      }
    }

    /** Why a completed device test leaves no fault: words that share a cell cannot all have shown
        their own inverted pattern, and a stuck line cannot have shown both polarities. */
    lemma DevicePassed(n: nat)
      requires Valid() && n <= |decode| && n < Pow2(WIDTH)
      requires forall o :: 0 <= o < n ==> Keeps(faults[decode[o]], Bits(o + 1))
      requires forall o :: 0 <= o < n ==> Load(o) == Inverted(Bits(o + 1))
      ensures Healthy(n)
    {
      forall a, b | 0 <= a < b < n ensures decode[a] != decode[b] {
        if decode[a] == decode[b] {
          assert Load(a) == Load(b);
          InvertedInjective(Bits(a + 1), Bits(b + 1));
          BitsInjective(a + 1, b + 1);
        }
      }
      forall o | 0 <= o < n ensures Sound(faults[decode[o]]) {
        ShownIsKept(faults[decode[o]], cells[decode[o]]);
        assert Load(o) == Inverted(Bits(o + 1));
        BothPolarities(faults[decode[o]], Bits(o + 1));
      }
    }
  }

  lemma InvertedInjective(a: Lines, b: Lines)
    requires Inverted(a) == Inverted(b)
    ensures a == b
  {
    forall i | 0 <= i < WIDTH ensures a[i] == b[i] {
      assert Inverted(a)[i] == !a[i] && Inverted(b)[i] == !b[i];
    }
  }

  lemma Pow2Plus8(n: nat)
    ensures Pow2(n + 8) == 256 * Pow2(n)
  {
    assert Pow2(n + 2) == 4 * Pow2(n);
    assert Pow2(n + 4) == 4 * Pow2(n + 2);
    assert Pow2(n + 6) == 4 * Pow2(n + 4);
  }

  lemma Pow2Width()
    ensures Pow2(WIDTH) == 0x1_0000_0000_0000_0000
  {
    Pow2Plus8(0); Pow2Plus8(8); Pow2Plus8(16); Pow2Plus8(24);
    Pow2Plus8(32); Pow2Plus8(40); Pow2Plus8(48); Pow2Plus8(56);
  }

  lemma WalkStep(k: nat)
    requires k < WIDTH
    ensures Doubled(Pow2(k)) == if k + 1 == WIDTH then 0 else Pow2(k + 1)
  {
    Pow2Width();
    if k + 1 < WIDTH { Pow2Monotone(k + 1, WIDTH); }
  }

  /** A cell that returns every walking-ones pattern has no stuck line. */
  lemma WalkingOnes(c: Cell)
    requires forall j :: 0 <= j < WIDTH ==> Keeps(c, Bits(Pow2(j)))
    ensures Sound(c)
  {
    forall i | 0 <= i < WIDTH ensures c[i].Free? {
      var other := if i == 0 then 1 else 0;
      OneHot(i, i); OneHot(other, i);
      assert Keeps(c, Bits(Pow2(i))) && Keeps(c, Bits(Pow2(other)));
      assert Settle(c, Bits(Pow2(i)))[i] == true && Settle(c, Bits(Pow2(other)))[i] == false;
    }
  }
}
