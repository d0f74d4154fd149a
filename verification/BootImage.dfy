/** A boot image, who may write what, and the memory writes that one hart's boot consists of
    (include/hss_types.h, services/boot/hss_boot_service.c).

    U54 harts are numbered from 0 here; hart `h` is HSSHartId `h + 1`. */
module BootImage {
  import opened MemoryOps
  import Pmp

  const HARTS := 4
  const SUB_CHUNK := 256

  datatype Hart = Hart(entryPoint: nat, privMode: nat, skipOpenSbi: bool, skipAutoboot: bool,
                       numChunks: nat, firstChunk: nat, lastChunk: nat)

  /** `owner` is the HSSHartId without its top bit, `ancillary` that bit (BOOT_FLAG_ANCILLIARY_DATA). */
  datatype Chunk = Chunk(owner: nat, ancillary: bool, loadAddr: nat, execAddr: nat, size: nat)

  datatype ZiChunk = ZiChunk(owner: nat, execAddr: nat, size: nat)

  /** An image at `base`; each table runs up to and including its zero-size sentinel. */
  datatype Image = Image(base: nat, length: nat, harts: seq<Hart>, chunks: seq<Chunk>, ziChunks: seq<ZiChunk>)

  /** The image, each hart's memory protection entries, and where DDR starts and how large it is, for each of
      its ranges. */
  datatype Board = Board(image: Image, pmp: seq<Pmp.Table>, ddr: seq<(nat, nat)>)

  ghost predicate WellFormed(b: Board) {
    var i := b.image;
    && |i.harts| == HARTS && |b.pmp| == HARTS
    && |i.chunks| > 0 && (forall k :: 0 <= k < |i.chunks| ==> (i.chunks[k].size == 0 <==> k == |i.chunks| - 1))
    && |i.ziChunks| > 0 && (forall k :: 0 <= k < |i.ziChunks| ==> (i.ziChunks[k].size == 0 <==> k == |i.ziChunks| - 1))
    && (forall h :: 0 <= h < HARTS && i.harts[h].numChunks > 0 ==> i.harts[h].firstChunk < |i.chunks|)
  }

  /** `HSS_DDR_IsAddrInDDR`. */
  predicate InDdr(b: Board, a: nat) { exists r :: r in b.ddr && r.0 <= a <= r.0 + r.1 }

  /** It takes the first address behind a range for one of its own. */
  lemma DdrIs(b: Board, a: nat)
    ensures InDdr(b, a) <==> exists i: nat, k: nat :: IsDdrByte(b, i, k, a) || BehindDdr(b, i, a)
  {
    if r :| r in b.ddr && r.0 <= a <= r.0 + r.1 {
      var i :| 0 <= i < |b.ddr| && b.ddr[i] == r;
      var k: nat := a - r.0;
      assert IsDdrByte(b, i, k, a) || BehindDdr(b, i, a);
    }
    if i: nat, k: nat :| IsDdrByte(b, i, k, a) || BehindDdr(b, i, a) { assert b.ddr[i] in b.ddr; }
  }

  /** `a` is byte `k` of DDR range `i`. */
  predicate IsDdrByte(b: Board, i: nat, k: nat, a: nat) { i < |b.ddr| && k < b.ddr[i].1 && a == b.ddr[i].0 + k }

  predicate BehindDdr(b: Board, i: nat, a: nat) { i < |b.ddr| && a == b.ddr[i].0 + b.ddr[i].1 }

  /** Chunk `k` is for hart `h`, and the hart may write there. */
  predicate Mine(b: Board, h: nat, k: nat)
    requires WellFormed(b) && h < HARTS && k < |b.image.chunks|
  {
    var c := b.image.chunks[k];
    c.owner == h + 1 && Pmp.WriteAllowed(b.pmp[h], Pmp.Signed(c.execAddr), c.size)
  }

  /** How much a chunk of `size` bytes really copies. */
  function Padded(size: nat): nat { SUB_CHUNK * (size / SUB_CHUNK + 1) }

  // ---------------------------------------------------------------- zero-initialised chunks

  function ZeroFrom(b: Board, h: nat, k: nat): seq<Op>
    requires WellFormed(b) && k < |b.image.ziChunks|
    decreases |b.image.ziChunks| - k
  {
    var z := b.image.ziChunks[k];
    if z.size == 0 then [] else ZeroAt(b, h, k) + ZeroFrom(b, h, k + 1)
  }

  function ZeroAt(b: Board, h: nat, k: nat): seq<Op>
    requires k < |b.image.ziChunks|
  {
    var z := b.image.ziChunks[k];
    if z.owner == h + 1 then [Fill(z.execAddr, z.size)] else []
  }

  // ---------------------------------------------------------------- downloaded chunks

  /** Table entry, chunks downloaded so far, and offset in the current chunk. */
  datatype Cursor = Cursor(chunk: nat, count: nat, sub: nat)

  ghost predicate InTable(b: Board, h: nat, c: Cursor) {
    WellFormed(b) && h < HARTS && c.chunk < |b.image.chunks|
  }

  /** The sentinel, or as many chunks downloaded as the hart's lastChunk allows. */
  predicate AtEnd(b: Board, h: nat, c: Cursor)
    requires InTable(b, h, c)
  {
    c.count > b.image.harts[h].lastChunk || b.image.chunks[c.chunk].size == 0
  }

  function CopyAt(b: Board, h: nat, c: Cursor): seq<Op>
    requires InTable(b, h, c)
  {
    var k := b.image.chunks[c.chunk];
    if Mine(b, h, c.chunk) then [Copy(k.execAddr + c.sub, b.image.base + k.loadAddr + c.sub, SUB_CHUNK)] else []
  }

  function Advance(b: Board, h: nat, c: Cursor): (n: Cursor)
    requires InTable(b, h, c) && !AtEnd(b, h, c)
    ensures InTable(b, h, n)
  {
    if !Mine(b, h, c.chunk) then Cursor(c.chunk + 1, c.count, c.sub)
    else if c.sub + SUB_CHUNK > b.image.chunks[c.chunk].size then Cursor(c.chunk + 1, c.count + 1, 0)
    else Cursor(c.chunk, c.count, c.sub + SUB_CHUNK)
  }

  /** Bytes of the current chunk still to go. */
  function Left(b: Board, h: nat, c: Cursor): nat
    requires InTable(b, h, c)
  {
    if b.image.chunks[c.chunk].size > c.sub then b.image.chunks[c.chunk].size - c.sub else 0
  }

  function CopyFrom(b: Board, h: nat, c: Cursor): seq<Op>
    requires InTable(b, h, c)
    decreases |b.image.chunks| - c.chunk, Left(b, h, c)
  {
    if AtEnd(b, h, c) then [] else CopyAt(b, h, c) + CopyFrom(b, h, Advance(b, h, c))
  }

  function EndCursor(b: Board, h: nat, c: Cursor): (e: Cursor)
    requires InTable(b, h, c)
    ensures InTable(b, h, e) && AtEnd(b, h, e) && c.chunk <= e.chunk
    decreases |b.image.chunks| - c.chunk, Left(b, h, c)
  {
    if AtEnd(b, h, c) then c else EndCursor(b, h, Advance(b, h, c))
  }

  function StartCursor(b: Board, h: nat): Cursor
    requires WellFormed(b) && h < HARTS
  {
    Cursor(b.image.harts[h].firstChunk, 0, 0)
  }

  /** All the memory writes of one boot of hart `h`, in order. */
  function Script(b: Board, h: nat): seq<Op>
    requires WellFormed(b) && h < HARTS && b.image.harts[h].numChunks > 0
  {
    ZeroFrom(b, h, 0) + CopyFrom(b, h, StartCursor(b, h))
  }

  // ---------------------------------------------------------------- how long a download takes

  /** Handler calls from `c` until the download state is left. */
  function CallsLeft(b: Board, h: nat, c: Cursor): nat
    requires InTable(b, h, c)
    decreases |b.image.chunks| - c.chunk, Left(b, h, c)
  {
    if AtEnd(b, h, c) then 1 else 1 + CallsLeft(b, h, Advance(b, h, c))
  }

  /** One call for each started 256 bytes of a downloaded chunk and one more if none remain, one for
      each skipped table entry, one to notice the end. */
  function Budget(b: Board, h: nat, chunk: nat, count: nat): nat
    requires InTable(b, h, Cursor(chunk, count, 0))
    decreases |b.image.chunks| - chunk
  {
    if AtEnd(b, h, Cursor(chunk, count, 0)) then 1
    else if Mine(b, h, chunk) then b.image.chunks[chunk].size / SUB_CHUNK + 1 + Budget(b, h, chunk + 1, count + 1)
    else 1 + Budget(b, h, chunk + 1, count)
  }

  lemma {:induction false} ChunkCalls(b: Board, h: nat, c: Cursor)
    requires InTable(b, h, c) && !AtEnd(b, h, c) && Mine(b, h, c.chunk)
    requires c.sub <= b.image.chunks[c.chunk].size
    ensures CallsLeft(b, h, c)
      == (b.image.chunks[c.chunk].size - c.sub) / SUB_CHUNK + 1 + CallsLeft(b, h, Cursor(c.chunk + 1, c.count + 1, 0))
    decreases Left(b, h, c)
  {
    if c.sub + SUB_CHUNK <= b.image.chunks[c.chunk].size {
      ChunkCalls(b, h, Cursor(c.chunk, c.count, c.sub + SUB_CHUNK));
    }
  }

  lemma {:induction false} CallsAreBudget(b: Board, h: nat, chunk: nat, count: nat)
    requires InTable(b, h, Cursor(chunk, count, 0))
    ensures CallsLeft(b, h, Cursor(chunk, count, 0)) == Budget(b, h, chunk, count)
    decreases |b.image.chunks| - chunk
  {
    var c := Cursor(chunk, count, 0);
    if !AtEnd(b, h, c) {
      if Mine(b, h, chunk) {
        ChunkCalls(b, h, c);
        CallsAreBudget(b, h, chunk + 1, count + 1);
      } else {
        CallsAreBudget(b, h, chunk + 1, count);
      }
    }
  }

  // ---------------------------------------------------------------- which chunks get downloaded

  /** Chunks for hart `h` from table entry `k` to the sentinel. */
  function OwnedFrom(b: Board, h: nat, k: nat): nat
    requires WellFormed(b) && h < HARTS && k < |b.image.chunks|
    decreases |b.image.chunks| - k
  {
    if b.image.chunks[k].size == 0 then 0 else (if Mine(b, h, k) then 1 else 0) + OwnedFrom(b, h, k + 1)
  }

  /** No chunk for hart `h` is left behind at or after `k`. */
  ghost predicate NoneFrom(b: Board, h: nat, k: nat)
    requires WellFormed(b) && h < HARTS
  {
    forall j :: k <= j < |b.image.chunks| - 1 ==> !Mine(b, h, j)
  }

  lemma {:induction false} OwnedNone(b: Board, h: nat, k: nat)
    requires WellFormed(b) && h < HARTS && k < |b.image.chunks|
    ensures OwnedFrom(b, h, k) == 0 <==> NoneFrom(b, h, k)
    decreases |b.image.chunks| - k
  {
    if b.image.chunks[k].size != 0 {
      OwnedNone(b, h, k + 1);
    }
  }

  /** The download leaves none of its chunks behind exactly when there are at most lastChunk + 1. */
  lemma {:induction false} AllDownloaded(b: Board, h: nat, c: Cursor)
    requires InTable(b, h, c) && c.count <= b.image.harts[h].lastChunk + 1
    ensures NoneFrom(b, h, EndCursor(b, h, c).chunk) <==>
      c.count + OwnedFrom(b, h, c.chunk) <= b.image.harts[h].lastChunk + 1
    decreases |b.image.chunks| - c.chunk, Left(b, h, c)
  {
    if AtEnd(b, h, c) {
      OwnedNone(b, h, c.chunk);
    } else {
      AllDownloaded(b, h, Advance(b, h, c));
    }
  }
}
