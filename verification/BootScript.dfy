/** What memory holds after one hart's writes, and why other harts' writes do not matter. */
module BootScript {
  import opened Words
  import opened MemoryOps
  import opened BootImage
  import opened BootLayout

  // ---------------------------------------------------------------- downloaded chunks

  predicate Same(mem: seq<byte>, x: nat, img: seq<byte>, y: nat, i: nat) {
    x + i < |mem| && y + i < |img| && mem[x + i] == img[y + i]
  }

  /** The first `upto` bytes of chunk `k` are at their place; `img` is the image's content. */
  ghost predicate Loaded(b: Board, k: nat, mem: seq<byte>, img: seq<byte>, upto: nat)
    requires k < |b.image.chunks|
  {
    forall i: nat :: i < upto ==> Same(mem, b.image.chunks[k].execAddr, img, b.image.chunks[k].loadAddr, i)
  }

  ghost predicate ChunkLoaded(b: Board, k: nat, mem: seq<byte>, img: seq<byte>) {
    k < |b.image.chunks| && Loaded(b, k, mem, img, b.image.chunks[k].size)
  }

  /** The image is in memory, with content `img`. */
  ghost predicate ImageIntact(b: Board, mem: seq<byte>, img: seq<byte>) {
    ImageEnd(b) <= |mem| && mem[b.image.base..ImageEnd(b)] == img
  }

  /** All of hart `h`'s chunks before the cursor are loaded, and its current one up to the cursor. */
  ghost predicate LoadedTo(b: Board, h: nat, c: Cursor, mem: seq<byte>, img: seq<byte>)
    requires OnPiece(b, h, c)
  {
    && LoadedBefore(b, h, c.chunk, mem, img)
    && (c.sub > 0 ==> Loaded(b, c.chunk, mem, img, c.sub))
  }

  /** How far the chunk is loaded after the cursor's piece. */
  function PieceEnd(b: Board, c: Cursor): nat
    requires c.chunk < |b.image.chunks|
  {
    var size := b.image.chunks[c.chunk].size;
    if c.sub + SUB_CHUNK <= size then c.sub + SUB_CHUNK else size
  }

  lemma PieceLoads(b: Board, h: nat, c: Cursor, mem: seq<byte>, img: seq<byte>)
    requires Layout(b, |mem|) && OnPiece(b, h, c) && !AtEnd(b, h, c) && Mine(b, h, c.chunk)
    requires ImageIntact(b, mem, img) && (c.sub > 0 ==> Loaded(b, c.chunk, mem, img, c.sub))
    ensures c.sub + SUB_CHUNK <= Padded(b.image.chunks[c.chunk].size)
    ensures Loaded(b, c.chunk, Apply(CopyAt(b, h, c)[0], mem), img, PieceEnd(b, c))
  {
    var k, op := b.image.chunks[c.chunk], CopyAt(b, h, c)[0];
    PieceInWindow(k.size, c.sub);
    forall i: nat | i < PieceEnd(b, c)
      ensures Same(Apply(op, mem), k.execAddr, img, k.loadAddr, i)
    {
      assert ChunkPlaced(b, c.chunk, |mem|);
      if i < c.sub {
        assert Same(mem, k.execAddr, img, k.loadAddr, i);
      } else {
        assert img[k.loadAddr + i] == mem[b.image.base + (k.loadAddr + i)];
      }
    }
  }

  lemma PieceSpares(b: Board, h: nat, c: Cursor, k: nat, mem: seq<byte>, img: seq<byte>)
    requires Layout(b, |mem|) && OnPiece(b, h, c) && !AtEnd(b, h, c) && Mine(b, h, c.chunk)
    requires k < c.chunk && Mine(b, h, k) && ChunkLoaded(b, k, mem, img)
    ensures ChunkLoaded(b, k, Apply(CopyAt(b, h, c)[0], mem), img)
  {
    var d, op := b.image.chunks[k], CopyAt(b, h, c)[0];
    assert d.execAddr + d.size <= b.image.chunks[c.chunk].execAddr;
    forall i: nat | i < d.size ensures Same(Apply(op, mem), d.execAddr, img, d.loadAddr, i) {
      assert Same(mem, d.execAddr, img, d.loadAddr, i) && !Covers(op, d.execAddr + i);
    }
  }

  lemma LegalKeepsImage(b: Board, h: nat, ops: seq<Op>, mem: seq<byte>, img: seq<byte>)
    requires Layout(b, |mem|) && AllLegal(b, h, ops) && ImageIntact(b, mem, img)
    ensures Spares(ops, b.image.base, ImageEnd(b))
    ensures ImageIntact(b, Exec(ops, mem), img)
  {
    forall i | 0 <= i < |ops|
      ensures Misses(ops[i], b.image.base, ImageEnd(b)) { LegalStaysClear(b, h, ops[i], |mem|); }
    SourceKept(ops, b.image.base, ImageEnd(b), mem);
  }

  /** One handler call of the download state. */
  lemma LoadedStep(b: Board, h: nat, c: Cursor, mem: seq<byte>, img: seq<byte>)
    requires Layout(b, |mem|) && OnPiece(b, h, c) && !AtEnd(b, h, c)
    requires ImageIntact(b, mem, img) && LoadedTo(b, h, c, mem, img)
    ensures OnPiece(b, h, Advance(b, h, c))
    ensures var after := Exec(CopyAt(b, h, c), mem);
      ImageIntact(b, after, img) && LoadedTo(b, h, Advance(b, h, c), after, img)
  {
    hide ImageIntact, ChunkLoaded, Loaded, Placed, Separate;
    PieceStep(b, h, c);
    LegalKeepsImage(b, h, CopyAt(b, h, c), mem, img);
    if Mine(b, h, c.chunk) { LoadedPiece(b, h, c, mem, img); }
  }

  lemma LoadedPiece(b: Board, h: nat, c: Cursor, mem: seq<byte>, img: seq<byte>)
    requires Layout(b, |mem|) && OnPiece(b, h, c) && !AtEnd(b, h, c) && Mine(b, h, c.chunk)
    requires ImageIntact(b, mem, img) && LoadedTo(b, h, c, mem, img) && OnPiece(b, h, Advance(b, h, c))
    ensures LoadedTo(b, h, Advance(b, h, c), Exec(CopyAt(b, h, c), mem), img)
  {
    var op := CopyAt(b, h, c)[0];
    ExecOne(op, mem);
    PieceLoads(b, h, c, mem, img);
    EarlierLoaded(b, h, c, mem, img);
    LoadedOnward(b, h, c, Apply(op, mem), img);
  }

  ghost predicate LoadedBefore(b: Board, h: nat, k: nat, mem: seq<byte>, img: seq<byte>)
    requires WellFormed(b) && h < HARTS && k < |b.image.chunks|
  {
    forall j :: b.image.harts[h].firstChunk <= j < k && Mine(b, h, j) ==> ChunkLoaded(b, j, mem, img)
  }

  lemma EarlierLoaded(b: Board, h: nat, c: Cursor, mem: seq<byte>, img: seq<byte>)
    requires Layout(b, |mem|) && OnPiece(b, h, c) && !AtEnd(b, h, c) && Mine(b, h, c.chunk)
    requires LoadedBefore(b, h, c.chunk, mem, img)
    ensures LoadedBefore(b, h, c.chunk, Apply(CopyAt(b, h, c)[0], mem), img)
  {
    forall k | b.image.harts[h].firstChunk <= k < c.chunk && Mine(b, h, k)
      ensures ChunkLoaded(b, k, Apply(CopyAt(b, h, c)[0], mem), img)
    {
      PieceSpares(b, h, c, k, mem, img);
    }
  }

  lemma LoadedOnward(b: Board, h: nat, c: Cursor, mem: seq<byte>, img: seq<byte>)
    requires OnPiece(b, h, c) && !AtEnd(b, h, c) && Mine(b, h, c.chunk) && OnPiece(b, h, Advance(b, h, c))
    requires LoadedBefore(b, h, c.chunk, mem, img) && Loaded(b, c.chunk, mem, img, PieceEnd(b, c))
    ensures LoadedTo(b, h, Advance(b, h, c), mem, img)
  {
    if c.sub + SUB_CHUNK > b.image.chunks[c.chunk].size { assert ChunkLoaded(b, c.chunk, mem, img); }
  }

  lemma {:induction false} LoadedRun(b: Board, h: nat, c: Cursor, mem: seq<byte>, img: seq<byte>)
    requires Layout(b, |mem|) && OnPiece(b, h, c)
    requires ImageIntact(b, mem, img) && LoadedTo(b, h, c, mem, img)
    ensures OnPiece(b, h, EndCursor(b, h, c))
    ensures LoadedTo(b, h, EndCursor(b, h, c), Exec(CopyFrom(b, h, c), mem), img)
    decreases |b.image.chunks| - c.chunk, Left(b, h, c)
  {
    if !AtEnd(b, h, c) {
      LoadedStep(b, h, c, mem, img);
      LoadedRun(b, h, Advance(b, h, c), Exec(CopyAt(b, h, c), mem), img);
      ExecConcat(CopyAt(b, h, c), CopyFrom(b, h, Advance(b, h, c)), mem);
    }
  }

  // ---------------------------------------------------------------- zero-initialised chunks

  /** Address `a` is in the window of one of hart `h`'s chunks. */
  ghost predicate InWindow(b: Board, h: nat, a: nat)
    requires WellFormed(b) && h < HARTS
  {
    exists k :: 0 <= k < |b.image.chunks| - 1 && Mine(b, h, k) && !WindowMisses(b, k, a, a + 1)
  }

  ghost predicate InZi(b: Board, k: nat, a: nat)
    requires k < |b.image.ziChunks|
  {
    b.image.ziChunks[k].execAddr <= a < b.image.ziChunks[k].execAddr + b.image.ziChunks[k].size
  }

  lemma {:induction false} ZeroRun(b: Board, h: nat, from: nat, mem: seq<byte>, a: nat)
    requires WellFormed(b) && h < HARTS && from < |b.image.ziChunks| && a < |mem|
    ensures mem[a] == 0 ==> Exec(ZeroFrom(b, h, from), mem)[a] == 0
    ensures (exists k :: from <= k < |b.image.ziChunks| - 1 && ZiMine(b, h, k) && InZi(b, k, a)) ==>
      Exec(ZeroFrom(b, h, from), mem)[a] == 0
    decreases |b.image.ziChunks| - from
  {
    if b.image.ziChunks[from].size != 0 {
      var ops := ZeroAt(b, h, from);
      if ops != [] { ExecOne(ops[0], mem); }
      var after := Exec(ops, mem);
      assert ZiMine(b, h, from) && InZi(b, from, a) ==> after[a] == 0;
      assert mem[a] == 0 ==> after[a] == 0;
      ZeroRun(b, h, from + 1, after, a);
      ExecConcat(ops, ZeroFrom(b, h, from + 1), mem);
    }
  }

  lemma {:induction false} CopiesInWindow(b: Board, h: nat, c: Cursor, a: nat)
    requires OnPiece(b, h, c) && !InWindow(b, h, a)
    ensures Untouched(CopyFrom(b, h, c), a)
    decreases |b.image.chunks| - c.chunk, Left(b, h, c)
  {
    if !AtEnd(b, h, c) {
      PieceStep(b, h, c);
      CopiesInWindow(b, h, Advance(b, h, c), a);
      if Mine(b, h, c.chunk) {
        PieceInWindow(b.image.chunks[c.chunk].size, c.sub);
        assert WindowMisses(b, c.chunk, a, a + 1);
      }
    }
  }

  // ---------------------------------------------------------------- one hart's whole boot

  /** After hart `h`'s writes: every chunk before the point where its download ended holds its image
      bytes, and its zero-initialised memory is zero except where a chunk of its own lies. */
  ghost predicate Booted(b: Board, h: nat, mem: seq<byte>, img: seq<byte>)
    requires WellFormed(b) && h < HARTS && b.image.harts[h].numChunks > 0
  {
    && (forall k :: b.image.harts[h].firstChunk <= k < EndCursor(b, h, StartCursor(b, h)).chunk && Mine(b, h, k) ==>
          ChunkLoaded(b, k, mem, img))
    && (forall k, a: nat :: 0 <= k < |b.image.ziChunks| - 1 && ZiMine(b, h, k) && InZi(b, k, a) ==>
          InWindow(b, h, a) || (a < |mem| && mem[a] == 0))
  }

  /** Wherever memory starts from, running the script with the image in place boots the hart. */
  lemma ScriptBoots(b: Board, h: nat, mem: seq<byte>, img: seq<byte>)
    requires Layout(b, |mem|) && h < HARTS && b.image.harts[h].numChunks > 0 && ImageIntact(b, mem, img)
    ensures Booted(b, h, Exec(Script(b, h), mem), img)
  {
    var zeros, c := ZeroFrom(b, h, 0), StartCursor(b, h);
    var zeroed := Exec(zeros, mem);
    var copies := CopyFrom(b, h, c);
    ZeroFromLegal(b, h, 0);
    LegalKeepsImage(b, h, zeros, mem, img);
    LoadedRun(b, h, c, zeroed, img);
    ExecConcat(zeros, copies, mem);
    forall k, a: nat | 0 <= k < |b.image.ziChunks| - 1 && ZiMine(b, h, k) && InZi(b, k, a) && !InWindow(b, h, a)
      ensures a < |mem| && Exec(copies, zeroed)[a] == 0
    {
      assert ZiPlaced(b, k, |mem|);
      ZeroRun(b, h, 0, mem, a);
      CopiesInWindow(b, h, c, a);
      UntouchedKept(copies, a, zeroed);
    }
  }
}
