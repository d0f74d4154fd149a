/** Images whose parts stay out of each other's way, and what one hart's writes then leave in memory. */
module BootLayout {
  import opened Words
  import opened MemoryOps
  import opened BootImage

  predicate Apart(alo: nat, ahi: nat, blo: nat, bhi: nat) { ahi <= blo || bhi <= alo }

  function ImageEnd(b: Board): nat { b.image.base + b.image.length }

  /** Chunk `k` lies in the image, and its whole copy window in memory and off the image. Its last piece
      may be read from beyond the image, but like every piece not from where it is written. */
  ghost predicate ChunkPlaced(b: Board, k: nat, n: nat)
    requires k < |b.image.chunks|
  {
    var c := b.image.chunks[k];
    && c.execAddr + Padded(c.size) <= n
    && Apart(c.execAddr, c.execAddr + Padded(c.size), b.image.base, ImageEnd(b))
    && c.loadAddr + c.size <= b.image.length
    && b.image.base + c.loadAddr + Padded(c.size) <= n
    && Apart(c.execAddr, c.execAddr + SUB_CHUNK, b.image.base + c.loadAddr, b.image.base + c.loadAddr + SUB_CHUNK)
  }

  ghost predicate ZiPlaced(b: Board, k: nat, n: nat)
    requires k < |b.image.ziChunks|
  {
    var z := b.image.ziChunks[k];
    z.execAddr + z.size <= n && Apart(z.execAddr, z.execAddr + z.size, b.image.base, ImageEnd(b))
  }

  /** Hart `g`'s window for chunk `j` misses the bytes [lo, hi). */
  predicate WindowMisses(b: Board, j: nat, lo: nat, hi: nat)
    requires j < |b.image.chunks|
  {
    var d := b.image.chunks[j];
    Apart(d.execAddr, d.execAddr + Padded(d.size), lo, hi)
  }

  predicate ZiMine(b: Board, g: nat, j: nat)
    requires j < |b.image.ziChunks|
  {
    b.image.ziChunks[j].owner == g + 1
  }

  predicate ZiMisses(b: Board, j: nat, lo: nat, hi: nat)
    requires j < |b.image.ziChunks|
  {
    var z := b.image.ziChunks[j];
    Apart(z.execAddr, z.execAddr + z.size, lo, hi)
  }

  /** No other hart writes to [lo, hi), of which hart `h` is the user. */
  ghost predicate Private(b: Board, h: nat, lo: nat, hi: nat)
    requires WellFormed(b)
  {
    && (forall g: nat, j :: g < HARTS && g != h && 0 <= j < |b.image.chunks| - 1 && Mine(b, g, j) ==>
      WindowMisses(b, j, lo, hi))
    && (forall g: nat, j :: g < HARTS && g != h && 0 <= j < |b.image.ziChunks| - 1 && ZiMine(b, g, j) ==>
          ZiMisses(b, j, lo, hi))
  }

  /** Everything a hart writes is in memory and off the image. */
  ghost predicate Placed(b: Board, n: nat)
    requires WellFormed(b)
  {
    && ImageEnd(b) <= n
    && (forall h: nat, k :: h < HARTS && 0 <= k < |b.image.chunks| - 1 && Mine(b, h, k) ==> ChunkPlaced(b, k, n))
    && (forall k :: 0 <= k < |b.image.ziChunks| - 1 ==> ZiPlaced(b, k, n))
  }

  /** Each hart's chunks belong to it alone and ascend without overlap. */
  ghost predicate Separate(b: Board)
    requires WellFormed(b)
  {
    && (forall h: nat, k :: h < HARTS && 0 <= k < |b.image.chunks| - 1 && Mine(b, h, k) ==>
          Private(b, h, b.image.chunks[k].execAddr, b.image.chunks[k].execAddr + b.image.chunks[k].size))
    && (forall h: nat, j, k :: h < HARTS && 0 <= j < k < |b.image.chunks| - 1 && Mine(b, h, j) && Mine(b, h, k) ==>
          b.image.chunks[j].execAddr + b.image.chunks[j].size <= b.image.chunks[k].execAddr)
  }

  ghost predicate Layout(b: Board, n: nat) { WellFormed(b) && Placed(b, n) && Separate(b) }

  // ---------------------------------------------------------------- legal writes

  /** `op` is one of hart `h`'s fills, or a 256-byte piece of one of its chunks. */
  ghost predicate Legal(b: Board, h: nat, op: Op)
    requires WellFormed(b)
  {
    h < HARTS &&
    match op
    case Fill(dst, len) =>
      exists k :: 0 <= k < |b.image.ziChunks| - 1 && b.image.ziChunks[k] == ZiChunk(h + 1, dst, len)
    case Copy(dst, src, len) =>
      exists k :: 0 <= k < |b.image.chunks| - 1 && Mine(b, h, k) && PieceOf(b, k, dst, src, len)
  }

  ghost predicate PieceOf(b: Board, k: nat, dst: nat, src: nat, len: nat)
    requires k < |b.image.chunks|
  {
    var c := b.image.chunks[k];
    var from := b.image.base + c.loadAddr;
    && len == SUB_CHUNK
    && exists s: nat :: s <= c.size && s % SUB_CHUNK == 0 && dst == c.execAddr + s && src == from + s
  }

  ghost predicate AllLegal(b: Board, h: nat, ops: seq<Op>)
    requires WellFormed(b)
  {
    forall i :: 0 <= i < |ops| ==> Legal(b, h, ops[i])
  }

  lemma PieceInWindow(size: nat, s: nat)
    requires s <= size && s % SUB_CHUNK == 0
    ensures s + SUB_CHUNK <= Padded(size)
  {
  }

  /** A legal write stays in memory and off the image, and a copy does not overlap its source. */
  lemma LegalStaysClear(b: Board, h: nat, op: Op, n: nat)
    requires WellFormed(b) && Placed(b, n) && Legal(b, h, op)
    ensures Misses(op, b.image.base, ImageEnd(b)) && op.dst + op.len <= n
    ensures op.Copy? ==> op.src + op.len <= n && Apart(op.dst, op.dst + op.len, op.src, op.src + op.len)
  {
    match op
    case Fill(dst, len) =>
      var k :| 0 <= k < |b.image.ziChunks| - 1 && b.image.ziChunks[k] == ZiChunk(h + 1, dst, len);
      assert ZiPlaced(b, k, n);
    case Copy(dst, src, len) =>
      var k :| 0 <= k < |b.image.chunks| - 1 && Mine(b, h, k) && PieceOf(b, k, dst, src, len);
      assert ChunkPlaced(b, k, n);
      var c := b.image.chunks[k];
      var s: nat :| s <= c.size && s % SUB_CHUNK == 0 && dst == c.execAddr + s && src == b.image.base + c.loadAddr + s;
      PieceInWindow(c.size, s);
  }

  /** What `op` puts at address `a` is zero or a byte of the image. */
  predicate Clean(b: Board, op: Op, a: nat) {
    op.Copy? && Covers(op, a) ==> b.image.base <= op.src + (a - op.dst) < ImageEnd(b)
  }

  /** The last of the writes at address `a`, if any, is such a one. */
  predicate FromImage(b: Board, ops: seq<Op>, a: nat) {
    if ops == [] then true
    else if Covers(ops[|ops| - 1], a) then Clean(b, ops[|ops| - 1], a)
    else FromImage(b, ops[..|ops| - 1], a)
  }

  /** Even the last pieces are read from the image. */
  ghost predicate TailsInside(b: Board)
    requires WellFormed(b)
  {
    forall h: nat, k :: h < HARTS && 0 <= k < |b.image.chunks| - 1 && Mine(b, h, k) ==>
      b.image.chunks[k].loadAddr + Padded(b.image.chunks[k].size) <= b.image.length
  }

  lemma TailsClean(b: Board, h: nat, op: Op, a: nat)
    requires WellFormed(b) && TailsInside(b) && Legal(b, h, op)
    ensures Clean(b, op, a)
  {
    if op.Copy? {
      var k :| 0 <= k < |b.image.chunks| - 1 && Mine(b, h, k) && PieceOf(b, k, op.dst, op.src, op.len);
      var c := b.image.chunks[k];
      var s: nat :| s <= c.size && s % SUB_CHUNK == 0 && op.dst == c.execAddr + s
        && op.src == b.image.base + c.loadAddr + s;
      PieceInWindow(c.size, s);
    }
  }

  lemma {:induction false} CleanFromImage(b: Board, ops: seq<Op>, a: nat)
    requires forall i :: 0 <= i < |ops| ==> Clean(b, ops[i], a)
    ensures FromImage(b, ops, a)
    decreases |ops|
  {
    if ops != [] { CleanFromImage(b, ops[..|ops| - 1], a); }
  }

  lemma {:induction false} FromImageConcat(b: Board, first: seq<Op>, rest: seq<Op>, a: nat)
    ensures FromImage(b, first + rest, a) <==>
      if Untouched(rest, a) then FromImage(b, first, a) else FromImage(b, rest, a)
    decreases |rest|
  {
    if rest == [] {
      assert first + rest == first;
    } else {
      var all, last := first + rest, rest[|rest| - 1];
      assert all[|all| - 1] == last && all[..|all| - 1] == first + rest[..|rest| - 1];
      FromImageConcat(b, first, rest[..|rest| - 1], a);
      if !Covers(last, a) { assert Untouched(rest, a) <==> Untouched(rest[..|rest| - 1], a); }
    }
  }

  /** A legal write of another hart misses what is private to `h`. */
  lemma PrivateMissed(b: Board, h: nat, g: nat, op: Op, lo: nat, hi: nat)
    requires WellFormed(b) && Private(b, h, lo, hi) && g != h && Legal(b, g, op)
    ensures forall a: nat :: lo <= a < hi ==> !Covers(op, a)
  {
    match op
    case Fill(dst, len) =>
      var k :| 0 <= k < |b.image.ziChunks| - 1 && b.image.ziChunks[k] == ZiChunk(g + 1, dst, len);
      assert ZiMine(b, g, k) && ZiMisses(b, k, lo, hi);
    case Copy(dst, src, len) =>
      var k :| 0 <= k < |b.image.chunks| - 1 && Mine(b, g, k) && PieceOf(b, k, dst, src, len);
      assert WindowMisses(b, k, lo, hi);
      var c := b.image.chunks[k];
      var s: nat :| s <= c.size && s % SUB_CHUNK == 0 && dst == c.execAddr + s && src == b.image.base + c.loadAddr + s;
      PieceInWindow(c.size, s);
  }

  lemma {:induction false} ZeroFromLegal(b: Board, h: nat, k: nat)
    requires WellFormed(b) && h < HARTS && k < |b.image.ziChunks|
    ensures AllLegal(b, h, ZeroFrom(b, h, k))
    decreases |b.image.ziChunks| - k
  {
    if b.image.ziChunks[k].size != 0 { ZeroFromLegal(b, h, k + 1); }
  }

  /** The cursor is at a 256-byte boundary inside its chunk. */
  ghost predicate OnPiece(b: Board, h: nat, c: Cursor) {
    && InTable(b, h, c)
    && c.sub % SUB_CHUNK == 0
    && c.sub <= b.image.chunks[c.chunk].size
    && (c.sub > 0 ==> !AtEnd(b, h, c) && Mine(b, h, c.chunk))
  }

  lemma PieceStep(b: Board, h: nat, c: Cursor)
    requires OnPiece(b, h, c) && !AtEnd(b, h, c)
    ensures OnPiece(b, h, Advance(b, h, c))
    ensures AllLegal(b, h, CopyAt(b, h, c))
  {
    if Mine(b, h, c.chunk) {
      var k := b.image.chunks[c.chunk];
      assert PieceOf(b, c.chunk, k.execAddr + c.sub, b.image.base + k.loadAddr + c.sub, SUB_CHUNK);
    }
  }

  lemma {:induction false} CopyFromLegal(b: Board, h: nat, c: Cursor)
    requires OnPiece(b, h, c)
    ensures AllLegal(b, h, CopyFrom(b, h, c))
    decreases |b.image.chunks| - c.chunk, Left(b, h, c)
  {
    if !AtEnd(b, h, c) {
      PieceStep(b, h, c);
      CopyFromLegal(b, h, Advance(b, h, c));
    }
  }

  lemma ScriptLegal(b: Board, h: nat)
    requires WellFormed(b) && h < HARTS && b.image.harts[h].numChunks > 0
    ensures AllLegal(b, h, Script(b, h))
  {
    ZeroFromLegal(b, h, 0);
    CopyFromLegal(b, h, StartCursor(b, h));
  }
}
