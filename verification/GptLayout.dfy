/** Where GPT partition entries lie, on disk and in the sector buffer (services/boot/gpt.c).

    An entry is read by loading the one sector that holds its first byte to the front of a buffer and
    then looking at a fixed offset in that buffer. Bytes past the loaded sector are whatever the buffer
    held before. Positions are byte positions on the disk. */
module GptLayout {
  import opened Words
  import Crc32
  import Crc32Burst

  /** Sector size, first sector of the entry array, and the array's shape, as the header gives them. */
  datatype Geometry = Geometry(lba: nat, start: nat, num: nat, size: nat)

  function Origin(g: Geometry): nat { g.start * g.lba }

  /** Where entry `i` starts. */
  function Position(g: Geometry, i: nat): nat
    decreases i, g
  {
    if i == 0 then Origin(g) else Position(g, i - 1) + g.size
  }

  /** Remainder by repeated subtraction. */
  function Rest(x: nat, m: nat): (r: nat)
    requires m > 0
    ensures r < m && r <= x
  {
    if x < m then x else Rest(x - m, m)
  }

  /** How far into its sector entry `i` starts. */
  function Offset(g: Geometry, i: nat): nat
    requires g.lba > 0
  {
    PositionOrder(g, 0, i);
    Rest(Position(g, i) - Origin(g), g.lba)
  }

  /** Where that sector starts. */
  function SectorPosition(g: Geometry, i: nat): nat
    requires g.lba > 0
  {
    PositionOrder(g, 0, i);
    Position(g, i) - Offset(g, i)
  }

  lemma {:induction false} PositionOrder(g: Geometry, a: nat, b: nat)
    ensures a <= b ==> Position(g, a) <= Position(g, b)
    ensures a < b ==> Position(g, a) + g.size <= Position(g, b)
    decreases b
  {
    if a < b { PositionOrder(g, a, b - 1); }
  }

  // ---------------------------------------------------------------- the code's arithmetic

  lemma {:induction false} PositionIsProduct(g: Geometry, i: nat)
    ensures Position(g, i) == g.start * g.lba + i * g.size
    decreases i
  {
    if i > 0 {
      PositionIsProduct(g, i - 1);
      assert i * g.size == (i - 1) * g.size + g.size;
    }
  }

  lemma {:induction false} RestOfSum(q: nat, m: nat, r: nat)
    requires r < m
    ensures Rest(q * m + r, m) == r
    decreases q
  {
    if q > 0 {
      assert q * m == (q - 1) * m + m;
      RestOfSum(q - 1, m, r);
    }
  }

  lemma DivMod(x: nat, m: nat)
    requires m > 0
    ensures x == (x / m) * m + x % m && 0 <= x % m < m
  {
  }

  lemma OffsetFrom(g: Geometry, i: nat, q: nat, r: nat)
    requires r < g.lba && Position(g, i) == Origin(g) + q * g.lba + r
    ensures Offset(g, i) == r && SectorPosition(g, i) == Origin(g) + q * g.lba
  {
    RestOfSum(q, g.lba, r);
  }

  /** The sector number and offset that the code computes name these positions. */
  lemma CodeAddress(g: Geometry, i: nat)
    requires g.lba > 0
    ensures var sector := g.start + (i * g.size) / g.lba;
      && sector * g.lba == SectorPosition(g, i)
      && g.size * i - (sector - g.start) * g.lba == Offset(g, i)
  {
    var x := i * g.size;
    PositionIsProduct(g, i);
    DivMod(x, g.lba);
    OffsetFrom(g, i, x / g.lba, x % g.lba);
    Distribute(g.start, x / g.lba, g.lba);
  }

  lemma Distribute(a: nat, b: nat, m: nat)
    ensures (a + b) * m == a * m + b * m
  {
  }

  // ---------------------------------------------------------------- what the code sees

  /** Entry `i` lies in one sector. */
  predicate InOneSector(g: Geometry, i: nat)
    requires g.lba > 0
  {
    Offset(g, i) + g.size <= g.lba
  }

  ghost predicate NoStraddle(g: Geometry)
    requires g.lba > 0
  {
    forall i: nat :: i < g.num ==> InOneSector(g, i)
  }

  /** The sector of entry `i` is on the disk, and the entry stays inside the buffer. */
  ghost predicate Reachable(g: Geometry, diskLen: nat, staleLen: nat, i: nat)
    requires g.lba > 0
  {
    SectorPosition(g, i) + g.lba <= diskLen && Offset(g, i) + g.size <= g.lba + staleLen
  }

  /** `size` bytes at `offset` of a buffer that holds one sector and then `stale`. */
  function Window(sector: seq<byte>, stale: seq<byte>, offset: nat, size: nat): (e: seq<byte>)
    requires offset + size <= |sector| + |stale|
    ensures |e| == size
  {
    (sector + stale)[offset..offset + size]
  }

  /** The bytes that the code takes for entry `i`, when the buffer behind the sector holds `stale`. */
  function Exposed(g: Geometry, disk: seq<byte>, stale: seq<byte>, i: nat): (e: seq<byte>)
    requires g.lba > 0 && Reachable(g, |disk|, |stale|, i)
    ensures |e| == g.size
  {
    Window(disk[SectorPosition(g, i)..SectorPosition(g, i) + g.lba], stale, Offset(g, i), g.size)
  }

  /** The first `n` exposed entries, end to end: the message that is summed. */
  function ExposedAll(g: Geometry, disk: seq<byte>, stale: seq<byte>, n: nat): (m: seq<byte>)
    requires g.lba > 0 && forall i: nat :: i < n ==> Reachable(g, |disk|, |stale|, i)
    ensures |m| == Position(g, n) - Origin(g)
    decreases n
  {
    if n == 0 then [] else ExposedAll(g, disk, stale, n - 1) + Exposed(g, disk, stale, n - 1)
  }

  /** The first `n` entries as they lie on the disk. */
  function Table(g: Geometry, disk: seq<byte>, n: nat): seq<byte>
    requires Position(g, n) <= |disk|
  {
    PositionOrder(g, 0, n);
    disk[Origin(g)..Position(g, n)]
  }

  function DiskEntry(g: Geometry, disk: seq<byte>, i: nat): seq<byte>
    requires Position(g, i) + g.size <= |disk|
  {
    disk[Position(g, i)..Position(g, i) + g.size]
  }

  /** An entry inside one sector is exposed exactly as it lies on the disk. */
  lemma ExposedIsDiskEntry(g: Geometry, disk: seq<byte>, stale: seq<byte>, i: nat)
    requires g.lba > 0 && Reachable(g, |disk|, |stale|, i) && InOneSector(g, i)
    ensures Position(g, i) + g.size <= |disk|
    ensures Exposed(g, disk, stale, i) == DiskEntry(g, disk, i)
  {
    forall j | 0 <= j < g.size ensures Exposed(g, disk, stale, i)[j] == disk[Position(g, i) + j] {
      ExposedByte(g, disk, stale, i, j);
    }
  }

  lemma TableGrows(g: Geometry, disk: seq<byte>, n: nat)
    requires n > 0 && Position(g, n) <= |disk|
    ensures Position(g, n - 1) + g.size <= |disk|
    ensures Table(g, disk, n) == Table(g, disk, n - 1) + DiskEntry(g, disk, n - 1)
  {
    PositionOrder(g, 0, n - 1);
    var a, b, c := Origin(g), Position(g, n - 1), Position(g, n);
    assert disk[a..c] == disk[a..b] + disk[b..c];
  }

  /** When no entry straddles, the summed message is the contiguous array on disk, whatever the
      buffer held. */
  lemma {:induction false} ExposedAllIsTable(g: Geometry, disk: seq<byte>, stale: seq<byte>, n: nat)
    requires g.lba > 0 && Origin(g) <= |disk|
    requires forall i: nat :: i < n ==> Reachable(g, |disk|, |stale|, i) && InOneSector(g, i)
    ensures Position(g, n) <= |disk|
    ensures ExposedAll(g, disk, stale, n) == Table(g, disk, n)
    decreases n
  {
    if n > 0 {
      ExposedAllIsTable(g, disk, stale, n - 1);
      ExposedIsDiskEntry(g, disk, stale, n - 1);
      TableGrows(g, disk, n);
    }
  }

  // ---------------------------------------------------------------- what straddling does

  lemma WindowByte(disk: seq<byte>, at: nat, len: nat, stale: seq<byte>, offset: nat, size: nat, j: nat)
    requires at + len <= |disk| && offset + size <= len + |stale| && j < size
    ensures Window(disk[at..at + len], stale, offset, size)[j] ==
      if offset + j < len then disk[at + offset + j] else stale[offset + j - len]
  {
    var s := disk[at..at + len] + stale;
    assert s[offset..offset + size][j] == s[offset + j];
  }

  /** A byte of an exposed entry is the byte on disk, or stale. */
  lemma ExposedByte(g: Geometry, disk: seq<byte>, stale: seq<byte>, i: nat, j: nat)
    requires g.lba > 0 && Reachable(g, |disk|, |stale|, i) && j < g.size
    ensures Offset(g, i) + j < g.lba ==> Position(g, i) + j < |disk|
    ensures Exposed(g, disk, stale, i)[j] ==
      if Offset(g, i) + j < g.lba then disk[Position(g, i) + j] else stale[Offset(g, i) + j - g.lba]
  {
    WindowByte(disk, SectorPosition(g, i), g.lba, stale, Offset(g, i), g.size, j);
  }

  /** The first byte of the sector after the one read for entry `i`. */
  function Beyond(g: Geometry, i: nat): nat
    requires g.lba > 0
  {
    SectorPosition(g, i) + g.lba
  }

  /** Of the exposed bytes, none comes from that place, if entry `i` straddles. */
  lemma MarkElsewhere(g: Geometry, i: nat, k: nat, j: nat)
    requires g.lba > 0 && !InOneSector(g, i) && j < g.size && Offset(g, k) + j < g.lba
    ensures Position(g, k) + j != Beyond(g, i)
  {
    if k < i { PositionOrder(g, k, i); } else { PositionOrder(g, i, k); }
  }

  ghost predicate OnlyMark(disk: seq<byte>, stale: seq<byte>, mark: nat) {
    && (forall p :: 0 <= p < |disk| && p != mark ==> disk[p] == 0)
    && (forall p :: 0 <= p < |stale| ==> stale[p] == 0)
  }

  lemma MarkUnseenIn(g: Geometry, disk: seq<byte>, stale: seq<byte>, i: nat, k: nat)
    requires g.lba > 0 && Reachable(g, |disk|, |stale|, k)
    requires !InOneSector(g, i) && OnlyMark(disk, stale, Beyond(g, i))
    ensures AllZero(Exposed(g, disk, stale, k))
  {
    var e := Exposed(g, disk, stale, k);
    forall j | 0 <= j < g.size ensures e[j] == 0 {
      ExposedByte(g, disk, stale, k, j);
      if Offset(g, k) + j < g.lba { MarkElsewhere(g, i, k, j); }
    }
  }

  ghost predicate AllZero(s: seq<byte>) { forall q :: 0 <= q < |s| ==> s[q] == 0 }

  /** With only that byte set on the disk, the summed message is all zeros: entry `i` shows a stale
      byte instead, and no other entry covers it. */
  lemma {:induction false} MarkUnseen(g: Geometry, disk: seq<byte>, stale: seq<byte>, i: nat, n: nat)
    requires g.lba > 0 && forall k: nat :: k < n ==> Reachable(g, |disk|, |stale|, k)
    requires !InOneSector(g, i) && OnlyMark(disk, stale, Beyond(g, i))
    ensures AllZero(ExposedAll(g, disk, stale, n))
    decreases n
  {
    if n > 0 {
      MarkUnseen(g, disk, stale, i, n - 1);
      MarkUnseenIn(g, disk, stale, i, n - 1);
    }
  }

  ghost predicate Roomy(g: Geometry, diskLen: nat, staleLen: nat) {
    && g.lba > 0
    && Position(g, g.num) <= diskLen
    && forall i: nat :: i < g.num ==> Reachable(g, diskLen, staleLen, i)
  }

  /** The sum over exposed entries equals the sum over the array on disk, for every disk and every
      earlier content of the buffer. */
  ghost predicate SumsTheTable(g: Geometry, diskLen: nat, staleLen: nat)
    requires Roomy(g, diskLen, staleLen)
  {
    forall disk: seq<byte>, stale: seq<byte> :: |disk| == diskLen && |stale| == staleLen ==>
      Crc32.Crc(0, ExposedAll(g, disk, stale, g.num)) == Crc32.Crc(0, Table(g, disk, g.num))
  }

  /** One straddling entry is enough for some disk and some earlier buffer content to be summed wrongly. */
  lemma StraddleMissed(g: Geometry, diskLen: nat, staleLen: nat, i: nat)
    requires Roomy(g, diskLen, staleLen) && i < g.num && !InOneSector(g, i)
    ensures !SumsTheTable(g, diskLen, staleLen)
  {
    var mark := Beyond(g, i);
    PositionOrder(g, 0, i); PositionOrder(g, i, g.num);
    var disk, stale := Zeros(diskLen)[mark := 1], Zeros(staleLen);
    MarkUnseen(g, disk, stale, i, g.num);
    var seen, table := ExposedAll(g, disk, stale, g.num), Table(g, disk, g.num);
    assert table[mark - Origin(g)] == 1;
    Crc32Burst.BurstDetected(0, seen, table, mark - Origin(g));
  }

  /** The code sums the on-disk array exactly for the geometries in which no entry straddles a sector
      boundary. */
  lemma SumsTheTableIffNoStraddle(g: Geometry, diskLen: nat, staleLen: nat)
    requires Roomy(g, diskLen, staleLen)
    ensures SumsTheTable(g, diskLen, staleLen) <==> NoStraddle(g)
  {
    if NoStraddle(g) {
      PositionOrder(g, 0, g.num);
      forall disk: seq<byte>, stale: seq<byte> | |disk| == diskLen && |stale| == staleLen
        ensures Crc32.Crc(0, ExposedAll(g, disk, stale, g.num)) == Crc32.Crc(0, Table(g, disk, g.num))
      {
        ExposedAllIsTable(g, disk, stale, g.num);
      }
    } else {
      var i: nat :| i < g.num && !InOneSector(g, i);
      StraddleMissed(g, diskLen, staleLen, i);
    }
  }

  /** Some number of entries fills a sector exactly. */
  predicate Divides(size: nat, lba: nat) { size > 0 && Rest(lba, size) == 0 }

  /** An entry size that divides the sector size never straddles, as for the sizes the UEFI
      Specification allows when sectors are at least that large. */
  lemma DividingSizes(g: Geometry)
    requires g.lba > 0 && Divides(g.size, g.lba)
    ensures NoStraddle(g)
  {
    forall i: nat | i < g.num ensures InOneSector(g, i) {
      DividingOffset(g, i);
    }
  }

  lemma {:induction false} RestOfMultiple(x: nat, m: nat, size: nat)
    requires m > 0 && Divides(size, m) && Rest(x, size) == 0
    ensures Rest(Rest(x, m), size) == 0
    decreases x
  {
    if x >= m {
      RestOfDifference(x, m, size);
      RestOfMultiple(x - m, m, size);
    }
  }

  lemma {:induction false} RestOfDifference(x: nat, y: nat, size: nat)
    requires size > 0 && y <= x && Rest(x, size) == 0 && Rest(y, size) == 0
    ensures Rest(x - y, size) == 0
    decreases y
  {
    if y > 0 { RestOfDifference(x - size, y - size, size); }
  }

  lemma {:induction false} RestOfPosition(g: Geometry, i: nat)
    requires g.size > 0
    ensures Position(g, i) >= Origin(g) && Rest(Position(g, i) - Origin(g), g.size) == 0
    decreases i
  {
    if i > 0 { RestOfPosition(g, i - 1); }
  }

  lemma DividingOffset(g: Geometry, i: nat)
    requires g.lba > 0 && Divides(g.size, g.lba)
    ensures InOneSector(g, i)
  {
    RestOfPosition(g, i);
    RestOfMultiple(Position(g, i) - Origin(g), g.lba, g.size);
    RestOfDifference(g.lba, Offset(g, i), g.size);
    assert g.lba - Offset(g, i) > 0;
  }

  // ---------------------------------------------------------------- entries larger than a sector

  /** Entries that do not fit in a sector straddle, all of them. */
  lemma LargeEntriesStraddle(g: Geometry, i: nat)
    requires 0 < g.lba < g.size
    ensures !InOneSector(g, i)
  {
  }

  /** 1024-byte entries, which the UEFI Specification allows, on 512-byte sectors: a header that gives
      them describes an array on the disk, and no buffer is left, yet the array is summed wrongly. */
  lemma LargeEntriesMissed(num: nat, diskLen: nat, staleLen: nat)
    requires num > 0 && staleLen >= 512 && diskLen >= Position(Geometry(512, 2, num, 1024), num)
    ensures Roomy(Geometry(512, 2, num, 1024), diskLen, staleLen)
    ensures !SumsTheTable(Geometry(512, 2, num, 1024), diskLen, staleLen)
  {
    var g := Geometry(512, 2, num, 1024);
    forall i: nat | i < num ensures Reachable(g, diskLen, staleLen, i) {
      PositionOrder(g, i, num);
      PositionIsProduct(g, i);
      OffsetFrom(g, i, 2 * i, 0);
    }
    LargeEntriesStraddle(g, 0);
    StraddleMissed(g, diskLen, staleLen, 0);
  }
}
