/** The permission check on a chunk covers its bytes, its download writes whole 256-byte pieces: when the
    padding stays inside the entry that allowed the chunk (services/boot/hss_boot_service.c). */
module BootPadding {
  import opened MemoryOps
  import opened BootImage
  import opened BootLayout
  import Pmp

  /** The download of chunk `k` writes address `a`. */
  ghost predicate Written(b: Board, k: nat, a: nat)
    requires k < |b.image.chunks|
  {
    exists s: nat :: IsPiece(b, k, s) && Covers(Piece(b, k, s), a)
  }

  predicate IsPiece(b: Board, k: nat, s: nat)
    requires k < |b.image.chunks|
  {
    s <= b.image.chunks[k].size && s % SUB_CHUNK == 0
  }

  function Piece(b: Board, k: nat, s: nat): Op
    requires k < |b.image.chunks|
  {
    Copy(b.image.chunks[k].execAddr + s, b.image.base + b.image.chunks[k].loadAddr + s, SUB_CHUNK)
  }

  /** From a cursor on a chunk of the hart, each of the chunk's remaining pieces is written. */
  lemma {:induction false} PieceIsWritten(b: Board, h: nat, c: Cursor, s: nat)
    requires OnPiece(b, h, c) && !AtEnd(b, h, c) && Mine(b, h, c.chunk) && IsPiece(b, c.chunk, s) && s >= c.sub
    ensures Piece(b, c.chunk, s) in CopyFrom(b, h, c)
    decreases Left(b, h, c)
  {
    var n := Advance(b, h, c);
    assert CopyFrom(b, h, c) == [Piece(b, c.chunk, c.sub)] + CopyFrom(b, h, n);
    if s > c.sub {
      PieceStep(b, h, c);
      PieceIsWritten(b, h, n, s);
    }
  }

  /** Together the pieces are the padded window and nothing else. */
  lemma WrittenIsWindow(b: Board, k: nat, a: nat)
    requires k < |b.image.chunks|
    ensures var c := b.image.chunks[k]; Written(b, k, a) <==> c.execAddr <= a < c.execAddr + Padded(c.size)
  {
    var c := b.image.chunks[k];
    if s: nat :| IsPiece(b, k, s) && Covers(Piece(b, k, s), a) {
      PieceInWindow(c.size, s);
    }
    if c.execAddr <= a < c.execAddr + Padded(c.size) {
      var s := (a - c.execAddr) / SUB_CHUNK * SUB_CHUNK;
      assert IsPiece(b, k, s) && Covers(Piece(b, k, s), a);
    }
  }

  // ---------------------------------------------------------------- what the permission check settles on

  /** The entry that allows the chunk, if one holds it. */
  function Guard(b: Board, h: nat, k: nat): (i: nat)
    requires WellFormed(b) && h < HARTS && k < |b.image.chunks|
    ensures i <= |b.pmp[h]|
  {
    Pmp.FirstHolding(b.pmp[h], 0, Pmp.Signed(b.image.chunks[k].execAddr), b.image.chunks[k].size)
  }

  /** The chunk is downloaded, and neither it nor the entries reach addresses that count as negative. */
  ghost predicate Checked(b: Board, h: nat, k: nat)
    requires WellFormed(b) && h < HARTS && k < |b.image.chunks|
  {
    Mine(b, h, k) && Pmp.NoWrap(b.pmp[h], b.image.chunks[k].execAddr, b.image.chunks[k].size)
  }

  predicate Inside(e: Pmp.PmpEntry, a: nat) { e.baseAddr <= a < e.baseAddr + e.size }

  /** If there is one, the hart may write where it lies, and the chunk lies in it. */
  lemma GuardAllows(b: Board, h: nat, k: nat)
    requires WellFormed(b) && h < HARTS && k < |b.image.chunks| && Checked(b, h, k)
    ensures Pmp.Signed(b.image.chunks[k].execAddr) == b.image.chunks[k].execAddr
    ensures Guard(b, h, k) < |b.pmp[h]| ==>
      var e, c := b.pmp[h][Guard(b, h, k)], b.image.chunks[k];
      e.W && e.A != Pmp.NullRegion && e.baseAddr <= c.execAddr && c.execAddr + c.size < e.baseAddr + e.size
  {
    var c := b.image.chunks[k];
    Pmp.SignedSmall(c.execAddr);
    if Guard(b, h, k) < |b.pmp[h]| { Pmp.HoldsIs(b.pmp[h][Guard(b, h, k)], c.execAddr, c.size); }
  }

  // ---------------------------------------------------------------- what the hart may write

  /** Every byte that the download writes is one that the hart may write. */
  ghost predicate AllAllowed(b: Board, h: nat, k: nat, t: Pmp.Table)
    requires k < |b.image.chunks|
  {
    forall a: nat :: Written(b, k, a) ==> Pmp.MayWrite(t, a)
  }

  /** Whatever the permissions of the entries, as long as they allow the chunk. */
  ghost predicate AlwaysAllowed(b: Board, h: nat, k: nat)
    requires WellFormed(b) && h < HARTS && k < |b.image.chunks|
  {
    forall t: Pmp.Table :: Pmp.SameRegions(b.pmp[h], t) && AllowsChunk(b, h, k, t) ==> AllAllowed(b, h, k, t)
  }

  predicate AllowsChunk(b: Board, h: nat, k: nat, t: Pmp.Table)
    requires k < |b.image.chunks|
  {
    Pmp.WriteAllowed(t, Pmp.Signed(b.image.chunks[k].execAddr), b.image.chunks[k].size)
  }

  /** Entry `j` leaves the download alone: one that comes before the guard does not touch the padded window
      (none does, if there is no guard), and one that comes after touches it inside the guard only. */
  ghost predicate LeavesAlone(b: Board, h: nat, k: nat, j: nat)
    requires WellFormed(b) && h < HARTS && k < |b.image.chunks| && j < |b.pmp[h]|
  {
    var e, c, f := b.pmp[h][j], b.image.chunks[k], Guard(b, h, k);
    && (j < f ==> Pmp.Misses(e, c.execAddr, Padded(c.size)))
    && (j > f ==> forall a: nat :: InPadded(b, k, a) && Pmp.Matches(e, a) ==> Inside(b.pmp[h][f], a))
  }

  predicate InPadded(b: Board, k: nat, a: nat)
    requires k < |b.image.chunks|
  {
    b.image.chunks[k].execAddr <= a < b.image.chunks[k].execAddr + Padded(b.image.chunks[k].size)
  }

  ghost predicate LeftAlone(b: Board, h: nat, k: nat)
    requires WellFormed(b) && h < HARTS && k < |b.image.chunks|
  {
    forall j: nat :: j < |b.pmp[h]| ==> LeavesAlone(b, h, k, j)
  }

  /** Who decides about a byte of a download left alone: the guard, or nobody. */
  lemma LeftAloneDecides(b: Board, h: nat, k: nat, a: nat)
    requires WellFormed(b) && h < HARTS && k < |b.image.chunks| && Checked(b, h, k) && LeftAlone(b, h, k)
    requires InPadded(b, k, a)
    ensures Pmp.Decider(b.pmp[h], 0, a) == Guard(b, h, k) || Pmp.Decider(b.pmp[h], 0, a) == |b.pmp[h]|
  {
    var t, f, c := b.pmp[h], Guard(b, h, k), b.image.chunks[k];
    var d := Pmp.Decider(t, 0, a);
    GuardAllows(b, h, k);
    if d < |t| {
      assert LeavesAlone(b, h, k, d);
      if d < f { Pmp.MissesNoByte(t[d], c.execAddr, Padded(c.size), a); }
    }
  }

  /** An entry other than the guard that decides about a byte written, if some entry does not leave the
      download alone. */
  lemma StrangerDecides(b: Board, h: nat, k: nat) returns (j: nat, a: nat)
    requires WellFormed(b) && h < HARTS && k < |b.image.chunks| && Checked(b, h, k) && !LeftAlone(b, h, k)
    ensures InPadded(b, k, a) && j < |b.pmp[h]| && j != Guard(b, h, k) && Pmp.Decider(b.pmp[h], 0, a) == j
  {
    var t, f, c := b.pmp[h], Guard(b, h, k), b.image.chunks[k];
    j :| j < |t| && !LeavesAlone(b, h, k, j);
    if j < f {
      a := Pmp.MeetsInByte(t[j], c.execAddr, Padded(c.size));
    } else {
      a :| InPadded(b, k, a) && Pmp.Matches(t[j], a) && !Inside(t[f], a);
    }
    var d := Pmp.Decider(t, 0, a);
    assert d <= j;
    j := d;
  }

  /** The table with entry `j` forbidding and the guard, if there is one, allowing. */
  function Forbidding(t: Pmp.Table, j: nat): Pmp.Table {
    seq(|t|, i requires 0 <= i < |t| => if i == j then t[i].(W := false) else t[i])
  }

  /** The whole download is allowed, for every chunk that the check allows and whatever the permissions that
      make it do so, exactly when every entry leaves it alone. */
  lemma AllowedIffLeftAlone(b: Board, h: nat, k: nat)
    requires WellFormed(b) && h < HARTS && k < |b.image.chunks| && Checked(b, h, k)
    ensures AlwaysAllowed(b, h, k) <==> LeftAlone(b, h, k)
  {
    var t, f, c := b.pmp[h], Guard(b, h, k), b.image.chunks[k];
    if LeftAlone(b, h, k) {
      forall u: Pmp.Table | Pmp.SameRegions(t, u) && AllowsChunk(b, h, k, u) ensures AllAllowed(b, h, k, u) {
        forall a: nat | Written(b, k, a) ensures Pmp.MayWrite(u, a) {
          WrittenIsWindow(b, k, a);
          LeftAloneDecides(b, h, k, a);
          Pmp.SameDecider(t, u, 0, a);
          Pmp.SameFirst(t, u, 0, Pmp.Signed(c.execAddr), c.size);
        }
      }
    } else {
      var j, a := StrangerDecides(b, h, k);
      ForbiddenByte(b, h, k, j, a);
    }
  }

  lemma ForbiddenByte(b: Board, h: nat, k: nat, j: nat, a: nat)
    requires WellFormed(b) && h < HARTS && k < |b.image.chunks| && Checked(b, h, k) && InPadded(b, k, a)
    requires j < |b.pmp[h]| && j != Guard(b, h, k) && Pmp.Decider(b.pmp[h], 0, a) == j
    ensures !AlwaysAllowed(b, h, k)
  {
    var t, c := b.pmp[h], b.image.chunks[k];
    var u := Forbidding(t, j);
    assert Pmp.SameRegions(t, u);
    GuardAllows(b, h, k);
    Pmp.SameFirst(t, u, 0, Pmp.Signed(c.execAddr), c.size);
    Pmp.SameDecider(t, u, 0, a);
    WrittenIsWindow(b, k, a);
    assert AllowsChunk(b, h, k, u) && Written(b, k, a) && !Pmp.MayWrite(u, a);
  }

  // ---------------------------------------------------------------- inside the guard

  /** The whole download stays inside the entry that allowed it exactly when the padded end does; where no
      entry holds the chunk there is none to stay inside. */
  lemma PaddingInsideIff(b: Board, h: nat, k: nat)
    requires WellFormed(b) && h < HARTS && k < |b.image.chunks| && Checked(b, h, k) && Guard(b, h, k) < |b.pmp[h]|
    ensures var e, c := b.pmp[h][Guard(b, h, k)], b.image.chunks[k];
      (forall a: nat :: Written(b, k, a) ==> Inside(e, a)) <==> c.execAddr + Padded(c.size) <= e.baseAddr + e.size
  {
    var e, c := b.pmp[h][Guard(b, h, k)], b.image.chunks[k];
    GuardAllows(b, h, k);
    var last: nat := c.execAddr + Padded(c.size) - 1;
    WrittenIsWindow(b, k, last);
    if last < e.baseAddr + e.size {
      forall a: nat | Written(b, k, a) ensures Inside(e, a) { WrittenIsWindow(b, k, a); }
    } else {
      assert Written(b, k, last) && !Inside(e, last);
    }
  }

  /** It does wherever chunk and entry keep to 256-byte boundaries: the byte to spare that the check asks
      for is then enough for the padding. So if no entry before touches the window, the download is allowed. */
  lemma AlignedIsAllowed(b: Board, h: nat, k: nat)
    requires WellFormed(b) && h < HARTS && k < |b.image.chunks| && Checked(b, h, k) && Guard(b, h, k) < |b.pmp[h]|
    requires var e := b.pmp[h][Guard(b, h, k)];
      b.image.chunks[k].execAddr % SUB_CHUNK == 0 && (e.baseAddr + e.size) % SUB_CHUNK == 0
    ensures forall a: nat :: Written(b, k, a) ==> Inside(b.pmp[h][Guard(b, h, k)], a)
    ensures var c := b.image.chunks[k];
      AlwaysAllowed(b, h, k) <==> Pmp.ClearBelow(b.pmp[h], c.execAddr, Padded(c.size), Guard(b, h, k))
  {
    var f, c := Guard(b, h, k), b.image.chunks[k];
    AlignedIsInside(b, h, k);
    AllowedIffLeftAlone(b, h, k);
    if Pmp.ClearBelow(b.pmp[h], c.execAddr, Padded(c.size), f) {
      forall j: nat | j < |b.pmp[h]| ensures LeavesAlone(b, h, k, j) {
        forall a: nat | InPadded(b, k, a) ensures Inside(b.pmp[h][f], a) { WrittenIsWindow(b, k, a); }
      }
    } else {
      var j :| 0 <= j < f && j < |b.pmp[h]| && !Pmp.Misses(b.pmp[h][j], c.execAddr, Padded(c.size));
      assert !LeavesAlone(b, h, k, j);
    }
  }

  lemma AlignedIsInside(b: Board, h: nat, k: nat)
    requires WellFormed(b) && h < HARTS && k < |b.image.chunks| && Checked(b, h, k) && Guard(b, h, k) < |b.pmp[h]|
    requires var e := b.pmp[h][Guard(b, h, k)];
      b.image.chunks[k].execAddr % SUB_CHUNK == 0 && (e.baseAddr + e.size) % SUB_CHUNK == 0
    ensures forall a: nat :: Written(b, k, a) ==> Inside(b.pmp[h][Guard(b, h, k)], a)
  {
    var e, c := b.pmp[h][Guard(b, h, k)], b.image.chunks[k];
    GuardAllows(b, h, k);
    PaddingInsideIff(b, h, k);
    hide Written, Guard;
    PaddedFits(c.execAddr / SUB_CHUNK, c.size, (e.baseAddr + e.size) / SUB_CHUNK);
  }

  lemma PaddedFits(from: nat, size: nat, to: nat)
    requires SUB_CHUNK * from + size < SUB_CHUNK * to
    ensures SUB_CHUNK * from + Padded(size) <= SUB_CHUNK * to
  {
    var whole := size / SUB_CHUNK;
    assert SUB_CHUNK * whole <= size;
  }

  // ---------------------------------------------------------------- downloads that go where they may not

  const PAGE := Pmp.PmpEntry(0x8000_0000, 0x1000, Pmp.NAPOT, true, true, false, false)
  const READ_ONLY_PAGE := Pmp.PmpEntry(0x8000_0000, 0x1000, Pmp.NAPOT, true, false, false, false)

  /** One entry of memory protection, and one chunk for the first hart. */
  function OneChunk(e: Pmp.PmpEntry, execAddr: nat, size: nat): Board {
    var table: Pmp.Table := seq(Pmp.MAX_NUM_PMPS, i => if i == 0 then e else Pmp.UNUSED);
    var hart := Hart(execAddr, 3, false, false, 1, 0, 0);
    var chunks := [Chunk(1, false, 0x800, execAddr, size), Chunk(0, false, 0, 0, 0)];
    var image := Image(0x9000_0000, 0x4000, [hart, hart, hart, hart], chunks, [ZiChunk(0, 0, 0)]);
    Board(image, [table, table, table, table], [])
  }

  /** A chunk that does not start on a 256-byte boundary: it is allowed, and its download writes past the
      page. */
  lemma PaddingEscapes()
    ensures var b := OneChunk(PAGE, 0x8000_0080, 0xF70);
      && WellFormed(b) && Checked(b, 0, 0) && Guard(b, 0, 0) == 0
      && Written(b, 0, 0x8000_1000) && !Inside(PAGE, 0x8000_1000)
  {
    var b := OneChunk(PAGE, 0x8000_0080, 0xF70);
    Pmp.SignedSmall(0x8000_0080);
    Pmp.HoldsIs(PAGE, 0x8000_0080, 0xF70);
    WrittenIsWindow(b, 0, 0x8000_1000);
    hide Pmp.Holds, Pmp.Signed;
  }

  /** A chunk that begins with a read-only page and goes on behind it: no entry holds it, so it is allowed,
      and its download writes the page. */
  lemma PageOverwritten()
    ensures var b := OneChunk(READ_ONLY_PAGE, 0x8000_0000, 0x1800);
      && WellFormed(b) && Checked(b, 0, 0) && Guard(b, 0, 0) == |b.pmp[0]|
      && Written(b, 0, 0x8000_0000) && !Pmp.MayWrite(b.pmp[0], 0x8000_0000)
  {
    var b := OneChunk(READ_ONLY_PAGE, 0x8000_0000, 0x1800);
    Pmp.SignedSmall(0x8000_0000);
    Pmp.HoldsIs(READ_ONLY_PAGE, 0x8000_0000, 0x1800);
    Pmp.UnusedNeverHolds(b.pmp[0], 1, 0x8000_0000, 0x1800);
    Pmp.PageDecides(b.pmp[0], 0x8000_0000);
    WrittenIsWindow(b, 0, 0x8000_0000);
    hide Pmp.Holds, Pmp.Signed;
  }
}
