/** Reading a GUID partition table, services/boot/gpt.c (sections 5.3.2 and 5.3.3 of the UEFI
    Specification). The disk is a byte string; any of its sectors may be unreadable. */
module Gpt {
  import opened Words
  import opened Wrappers
  import opened GptLayout
  import opened Search
  import opened ShiftRegister
  import Crc32
  import Crc32Burst

  datatype Disk = Disk(bytes: seq<byte>, bad: set<nat>) {
    predicate Reads(at: nat, count: nat) { at + count <= |bytes| && at !in bad }
  }

  // ---------------------------------------------------------------- on-disk structures

  const SIGNATURE: seq<byte> := [0x45, 0x46, 0x49, 0x20, 0x50, 0x41, 0x52, 0x54]
  const REVISION := 0x0001_0000
  const HEADER_FIELDS := 92
  const ENTRY_FIELDS := 40 // both identifiers and firstLBA

  function LittleEndian(s: seq<byte>): nat { Pack(JoinByte, 0, s) }

  function JoinByte(b: byte, rest: nat): nat { Crc32.Slot(b) + 256 * rest }

  type HeaderBytes = h: seq<byte> | |h| >= HEADER_FIELDS witness seq(HEADER_FIELDS, _ => 0)

  function Revision(h: HeaderBytes): nat { LittleEndian(h[8..12]) }
  function HeaderSize(h: HeaderBytes): nat { LittleEndian(h[12..16]) }
  function HeaderCrc(h: HeaderBytes): bv32 { Crc32Burst.PackBytes(h[16..20]) }
  function CurrentLba(h: HeaderBytes): nat { LittleEndian(h[24..32]) }
  function EntriesLba(h: HeaderBytes): nat { LittleEndian(h[72..80]) }
  function EntriesCrc(h: HeaderBytes): bv32 { Crc32Burst.PackBytes(h[88..92]) }

  function Shape(h: HeaderBytes, lba: nat): Geometry {
    Geometry(lba, EntriesLba(h), LittleEndian(h[80..84]), LittleEndian(h[84..88]))
  }

  function Blanked(h: HeaderBytes): (b: HeaderBytes)
    ensures |b| == |h|
  {
    h[..16] + [0, 0, 0, 0] + h[20..]
  }

  predicate Recognised(h: HeaderBytes) { h[..8] == SIGNATURE && Revision(h) == REVISION }

  /** The header's own size field stays inside the buffer that holds it. */
  predicate SizeFits(h: HeaderBytes) { Recognised(h) ==> HeaderSize(h) <= |h| }

  /** What `GPT_ValidateHeader` demands. */
  predicate HeaderGood(h: HeaderBytes)
    requires SizeFits(h)
  {
    && Recognised(h)
    && Crc32.Crc(0, Blanked(h)[..HeaderSize(h)]) == HeaderCrc(h)
    && CurrentLba(h) == 1
    && EntriesLba(h) == 2
  }

  /** The 16 bytes of `HSS_GPT_GUID_t`; its four fields leave no padding, so comparing them all is
      comparing the bytes. */
  type Guid = s: seq<byte> | |s| == 16 witness seq(16, _ => 0)

  datatype Key = TypeId | UniqueId

  /** 21686148-6449-6E6F-4946456465654e74. */
  const BOOT_TYPE: Guid :=
    [0x48, 0x61, 0x68, 0x21, 0x49, 0x64, 0x6F, 0x6E, 0x74, 0x4E, 0x65, 0x65, 0x64, 0x45, 0x46, 0x49]

  /** `CheckIfTypeIdMatch_` and `CheckIfUniqueIdMatch_`. */
  predicate EntryMatches(e: seq<byte>, key: Key, guid: Guid)
    requires |e| >= ENTRY_FIELDS
  {
    match key
    case TypeId => e[0..16] == guid
    case UniqueId => e[16..32] == guid
  }

  function FirstLba(e: seq<byte>): nat
    requires |e| >= ENTRY_FIELDS
  {
    LittleEndian(e[32..40])
  }

  // ---------------------------------------------------------------- searching the array on disk

  /** Where entry `i` lies on the disk, its leading fields; the code looks at them whatever size the header
      gives to an entry. */
  function DiskFields(g: Geometry, disk: seq<byte>, i: nat): (e: seq<byte>)
    requires Position(g, i) + ENTRY_FIELDS <= |disk|
    ensures |e| == ENTRY_FIELDS
  {
    disk[Position(g, i)..Position(g, i) + ENTRY_FIELDS]
  }

  predicate MatchAt(g: Geometry, disk: seq<byte>, key: Key, guid: Guid, i: nat) {
    Position(g, i) + ENTRY_FIELDS <= |disk| && EntryMatches(DiskFields(g, disk, i), key, guid)
  }

  function Matcher(g: Geometry, disk: seq<byte>, key: Key, guid: Guid): nat -> bool {
    (i: nat) => MatchAt(g, disk, key, guid, i)
  }

  ghost predicate Showable(g: Geometry, diskLen: nat, staleLen: nat, i: nat) {
    g.lba > 0 && staleLen >= ENTRY_FIELDS && SectorPosition(g, i) + g.lba <= diskLen
  }

  /** What the code takes for those fields, with `stale` behind the sector. */
  ghost function ShownFields(g: Geometry, disk: seq<byte>, stale: seq<byte>, i: nat): (e: seq<byte>)
    requires Showable(g, |disk|, |stale|, i)
    ensures |e| == ENTRY_FIELDS
  {
    Window(disk[SectorPosition(g, i)..SectorPosition(g, i) + g.lba], stale, Offset(g, i), ENTRY_FIELDS)
  }

  /** The code's own view of whether entry `i` matches. */
  ghost predicate ShownMatch(g: Geometry, disk: seq<byte>, stale: seq<byte>, key: Key, guid: Guid, i: nat) {
    Showable(g, |disk|, |stale|, i) && EntryMatches(ShownFields(g, disk, stale, i), key, guid)
  }

  ghost function ShownMatcher(g: Geometry, disk: seq<byte>, stale: seq<byte>, key: Key, guid: Guid): nat -> bool {
    (i: nat) => ShownMatch(g, disk, stale, key, guid, i)
  }

  predicate FieldsInSector(g: Geometry, i: nat)
    requires g.lba > 0
  {
    Offset(g, i) + ENTRY_FIELDS <= g.lba
  }

  ghost predicate FieldsInside(g: Geometry)
    requires g.lba > 0
  {
    forall i: nat :: i < g.num ==> FieldsInSector(g, i)
  }

  /** Where these fields do not straddle, it is the view of the disk. */
  lemma ShownIsOnDisk(g: Geometry, disk: seq<byte>, stale: seq<byte>, i: nat)
    requires Showable(g, |disk|, |stale|, i) && FieldsInSector(g, i)
    ensures Position(g, i) + ENTRY_FIELDS <= |disk| && ShownFields(g, disk, stale, i) == DiskFields(g, disk, i)
  {
    forall j | 0 <= j < ENTRY_FIELDS ensures ShownFields(g, disk, stale, i)[j] == disk[Position(g, i) + j] {
      WindowByte(disk, SectorPosition(g, i), g.lba, stale, Offset(g, i), ENTRY_FIELDS, j);
    }
  }

  /** They do not where whole entries do not, of the sizes that the UEFI Specification allows. */
  lemma EntriesHoldFields(g: Geometry)
    requires g.lba > 0 && g.size >= 128 && NoStraddle(g)
    ensures FieldsInside(g)
  {
    forall i: nat | i < g.num ensures FieldsInSector(g, i) { assert InOneSector(g, i); }
  }

  // ---------------------------------------------------------------- what a good array is

  predicate Readable(disk: Disk, g: Geometry, i: nat)
    requires g.lba > 0
  {
    disk.Reads(SectorPosition(g, i), g.lba)
  }

  ghost predicate AllReadable(disk: Disk, g: Geometry)
    requires g.lba > 0
  {
    forall i: nat :: i < g.num ==> Readable(disk, g, i)
  }

  /** Every entry's sector can be read and the checksum over the contiguous array is the one that the
      header `h` states. */
  ghost predicate EntriesGood(disk: Disk, lba: nat, h: HeaderBytes)
    requires lba > 0
  {
    var g := Shape(h, lba);
    && AllReadable(disk, g)
    && Position(g, g.num) <= |disk.bytes|
    && Crc32.Crc(0, Table(g, disk.bytes, g.num)) == EntriesCrc(h)
  }

  /** The header describes an array that starts on the disk and in which no entry straddles. */
  ghost predicate Regular(disk: Disk, g: Geometry)
    requires g.lba > 0
  {
    Origin(g) <= |disk.bytes| && NoStraddle(g)
  }

  ghost predicate FlagSound(disk: Disk, lba: nat, h: HeaderBytes)
    requires lba > 0
  {
    Regular(disk, Shape(h, lba)) ==> EntriesGood(disk, lba, h)
  }

  /** Entries can be read up to the first that satisfies `p`, which is where a search stops. */
  ghost predicate ReadableToFirst(disk: Disk, g: Geometry, p: nat -> bool, from: nat)
    requires g.lba > 0
  {
    forall i: nat :: i < g.num && i <= First(p, from, g.num) ==> Readable(disk, g, i)
  }

  /** No entry window leaves a buffer of `len` bytes. */
  ghost predicate EntriesFit(g: Geometry, len: nat)
    requires g.lba > 0
  {
    forall i: nat :: i < g.num ==> Offset(g, i) + g.size <= len
  }

  /** The sum over the first `n` exposed entries. */
  ghost function Sum(g: Geometry, disk: seq<byte>, stale: seq<byte>, n: nat): bv32
    requires g.lba > 0 && ReachableTo(g, disk, stale, n)
  {
    Crc32.Crc(0, ExposedAll(g, disk, stale, n))
  }

  ghost predicate ReachableTo(g: Geometry, disk: seq<byte>, stale: seq<byte>, n: nat)
    requires g.lba > 0
  {
    forall k: nat :: k < n ==> Reachable(g, |disk|, |stale|, k)
  }

  /** The checksum over the shown entries is the one that the header states. */
  ghost predicate ShownGood(disk: Disk, lba: nat, h: HeaderBytes, stale: seq<byte>)
    requires lba > 0
  {
    var g := Shape(h, lba);
    AllReadable(disk, g) && ReachableTo(g, disk.bytes, stale, g.num)
      && Sum(g, disk.bytes, stale, g.num) == EntriesCrc(h)
  }

  lemma EmptySum(g: Geometry, disk: seq<byte>, stale: seq<byte>)
    requires g.lba > 0
    ensures Sum(g, disk, stale, 0) == 0
  {
    assert ExposedAll(g, disk, stale, 0) == [];
    Crc32.NotNot(0);
  }

  /** Carrying the sum over one more entry. */
  lemma SumStep(g: Geometry, disk: seq<byte>, stale: seq<byte>, i: nat)
    requires g.lba > 0 && ReachableTo(g, disk, stale, i) && Reachable(g, |disk|, |stale|, i)
    ensures ReachableTo(g, disk, stale, i + 1)
    ensures Crc32.Crc(Sum(g, disk, stale, i), Exposed(g, disk, stale, i)) == Sum(g, disk, stale, i + 1)
  {
    Crc32.CrcChains(0, ExposedAll(g, disk, stale, i), Exposed(g, disk, stale, i));
  }

  // ---------------------------------------------------------------- the reader

  class Reader {
    const disk: Disk
    const crc: Crc32.Unit
    const lbaSize: nat
    const header: array<byte>
    const lbaBuffer: array<byte>
    var headerValid: bool
    var partitionEntriesValid: bool

    /** `GPT_Init` on a buffer of the configured size. */
    constructor (disk: Disk, crc: Crc32.Unit, lbaSize: nat, maxLbaSize: nat)
      requires crc.Valid() && 0 < lbaSize <= maxLbaSize && maxLbaSize >= HEADER_FIELDS
      ensures this.disk == disk && this.lbaSize == lbaSize && this.crc == crc
      ensures Valid() && fresh(header) && fresh(lbaBuffer) && !headerValid && !partitionEntriesValid
      ensures header.Length == maxLbaSize && forall k :: 0 <= k < maxLbaSize ==> header[k] == 0
    {
      this.disk, this.crc, this.lbaSize := disk, crc, lbaSize;
      header := new byte[maxLbaSize](_ => 0);
      lbaBuffer := new byte[2 * maxLbaSize](_ => 0);
      headerValid, partitionEntriesValid := false, false;
    }

    ghost predicate Sized() {
      && header.Length >= HEADER_FIELDS
      && 0 < lbaSize <= header.Length
      && lbaBuffer.Length == 2 * header.Length
      && header != lbaBuffer
    }

    ghost function H(): HeaderBytes
      requires Sized()
      reads header
    {
      header[..]
    }

    ghost function G(): Geometry
      requires Sized()
      reads header
    {
      Shape(H(), lbaSize)
    }

    ghost predicate Valid()
      reads this, header, crc, crc.precalcTable
    {
      && Sized()
      && crc.Valid()
      && (partitionEntriesValid ==> AllReadable(disk, G()) && FlagSound(disk, lbaSize, H()))
    }

    ghost function Stale(): seq<byte>
      requires Sized()
      reads lbaBuffer
    {
      lbaBuffer[lbaSize..]
    }

    /** `readBlockFnPtr`. */
    method ReadBlock(dest: array<byte>, at: nat, srcOffset: nat) returns (ok: bool)
      requires at + lbaSize <= dest.Length
      modifies dest
      ensures ok == disk.Reads(srcOffset, lbaSize)
      ensures dest[..] == if ok
        then old(dest[..at]) + disk.bytes[srcOffset..srcOffset + lbaSize] + old(dest[at + lbaSize..])
        else old(dest[..])
    {
      ok := disk.Reads(srcOffset, lbaSize);
      if ok {
        forall k | 0 <= k < lbaSize { dest[at + k] := disk.bytes[srcOffset + k]; }
      }
    }

    /** The checksum of the header with its own checksum field blanked in place and put back. */
    method BlankedChecksum(size: nat) returns (checksum: bv32)
      requires Sized() && crc.Valid() && size <= header.Length
      modifies header, crc, crc.precalcTable
      ensures crc.Valid() && header[..] == old(header[..])
      ensures checksum == Crc32.Crc(0, Blanked(H())[..size])
    {
      ghost var h := H();
      var saved := header[16..20];
      PutCrcField([0, 0, 0, 0]);
      checksum := crc.Calculate(header[..][..size]);
      PutCrcField(saved);
      assert header[..] == h[..16] + h[16..20] + h[20..] == h;
    }

    method PutCrcField(v: seq<byte>)
      requires Sized() && |v| == 4
      modifies header
      ensures header[..] == old(header[..16]) + v + old(header[20..])
    {
      header[16], header[17], header[18], header[19] := v[0], v[1], v[2], v[3];
    }

    /** `GPT_ValidateHeader`. */
    method ValidateHeader() returns (result: bool)
      requires Sized() && crc.Valid() && SizeFits(H())
      modifies this`headerValid, header, crc, crc.precalcTable
      ensures Sized() && crc.Valid() && header[..] == old(header[..])
      ensures result == HeaderGood(H())
      ensures headerValid == (old(headerValid) || result)
    {
      var h: HeaderBytes := header[..];
      result := h[..8] == SIGNATURE;
      if result {
        result := Revision(h) == REVISION;
        if result {
          var checksum := BlankedChecksum(HeaderSize(h));
          result := checksum == HeaderCrc(h);
          if result {
            result := CurrentLba(h) == 1;
            if result {
              result := EntriesLba(h) == 2;
            }
          }
        }
      }
      if result {
        headerValid := true;
      }
      assert H() == h;
    }

    /** The flag is raised on a good header only. */
    ghost predicate HeaderSound()
      requires Sized()
      reads this, header
    {
      headerValid ==> SizeFits(H()) && HeaderGood(H())
    }

    /** The header buffer after its sector was read, or not. */
    ghost function HeaderRead(): HeaderBytes
      requires Sized()
      reads header
    {
      if disk.Reads(lbaSize, lbaSize) then disk.bytes[lbaSize..lbaSize + lbaSize] + header[lbaSize..] else header[..]
    }

    method ReadHeaderSector() returns (ok: bool)
      requires Sized()
      modifies header
      ensures ok == disk.Reads(lbaSize, lbaSize) && H() == old(HeaderRead())
    {
      ok := ReadBlock(header, 0, lbaSize);
    }

    /** `GPT_ReadHeader`. */
    method ReadHeader() returns (result: bool)
      requires Sized() && crc.Valid()
      requires disk.Reads(lbaSize, lbaSize) ==> SizeFits(HeaderRead())
      modifies this`headerValid, header, crc, crc.precalcTable
      ensures Sized() && crc.Valid() && H() == old(HeaderRead())
      ensures old(Valid()) && (partitionEntriesValid ==> H() == old(H())) ==> Valid()
      ensures result <==> disk.Reads(lbaSize, lbaSize) && SizeFits(H()) && HeaderGood(H())
      ensures headerValid == (old(headerValid) || result)
      ensures partitionEntriesValid == old(partitionEntriesValid)
    {
      result := ReadHeaderSector();
      if result {
        result := ValidateHeader();
      }
    }

    // -------------------------------------------------------------- entries, with the header's shape `g`

    predicate SectorReads(lba: nat) { disk.Reads(lba * lbaSize, lbaSize) }

    function Sector(lba: nat): seq<byte>
      requires SectorReads(lba)
    {
      disk.bytes[lba * lbaSize..lba * lbaSize + lbaSize]
    }

    /** `ReadPartitionEntryIntoBuffer_`: the offset of the entry in the buffer. */
    method ReadPartitionEntryIntoBuffer(g: Geometry, lbaIndex: nat, i: nat) returns (result: Option<nat>)
      requires Sized() && lbaIndex >= g.start && g.size * i >= (lbaIndex - g.start) * lbaSize
      modifies lbaBuffer
      ensures var offset := g.size * i - (lbaIndex - g.start) * lbaSize;
        && (result.Some? ==> result.value == offset)
        && (offset < lbaSize ==>
              && result.Some? == SectorReads(lbaIndex)
              && Stale() == old(Stale())
              && (result.Some? ==> lbaBuffer[..lbaSize] == Sector(lbaIndex)))
        && (offset >= lbaSize ==>
              && result.Some? == (SectorReads(lbaIndex) && SectorReads(lbaIndex + 1))
              && lbaBuffer[2 * lbaSize..] == old(lbaBuffer[2 * lbaSize..])
              && (result.Some? ==> lbaBuffer[..2 * lbaSize] == Sector(lbaIndex) + Sector(lbaIndex + 1)))
    {
      var offset := g.size * i - (lbaIndex - g.start) * lbaSize;
      var ok := ReadBlock(lbaBuffer, 0, lbaIndex * lbaSize);
      if ok {
        if offset >= lbaSize {
          ok := ReadBlock(lbaBuffer, lbaSize, (lbaIndex + 1) * lbaSize);
        }
      }
      result := if ok then Some(offset) else None;
    }

    /** The entry buffer shows what the code takes for entry `i`. */
    ghost predicate Shows(g: Geometry, at: nat, i: nat)
      requires Sized() && g.lba == lbaSize
      reads lbaBuffer
    {
      && at + g.size <= lbaBuffer.Length
      && Reachable(g, |disk.bytes|, |Stale()|, i)
      && lbaBuffer[at..at + g.size] == Exposed(g, disk.bytes, Stale(), i)
    }

    /** `GPT_ReadPartitionEntryByIndex`: on success the buffer holds the sector of entry `i`, and shows the
        entry where the result says. */
    method ReadPartitionEntryByIndex(g: Geometry, i: nat) returns (result: Option<nat>)
      requires Sized() && g.lba == lbaSize
      modifies lbaBuffer
      ensures result.Some? <==> Readable(disk, g, i)
      ensures Stale() == old(Stale())
      ensures result.Some? ==> result.value == Offset(g, i) && ShowsFields(g, result.value, i)
      ensures result.Some? && Offset(g, i) + g.size <= lbaBuffer.Length ==> Shows(g, result.value, i)
    {
      var lbaIndex := g.start + (i * g.size) / lbaSize;
      CodeAddress(g, i);
      result := ReadPartitionEntryIntoBuffer(g, lbaIndex, i);
      assert lbaBuffer[..] == lbaBuffer[..lbaSize] + Stale();
    }

    /** The buffer shows what the code takes for the leading fields of entry `i`. */
    ghost predicate ShowsFields(g: Geometry, at: nat, i: nat)
      requires Sized() && g.lba == lbaSize
      reads lbaBuffer
    {
      && at + ENTRY_FIELDS <= lbaBuffer.Length
      && Showable(g, |disk.bytes|, |Stale()|, i)
      && lbaBuffer[at..at + ENTRY_FIELDS] == ShownFields(g, disk.bytes, Stale(), i)
    }

    /** One round of the loop of `GPT_ValidatePartitionEntries`. */
    method SumEntry(g: Geometry, i: nat, rollingCrc: bv32) returns (ok: bool, sum: bv32)
      requires Sized() && g.lba == lbaSize && Offset(g, i) + g.size <= lbaBuffer.Length && crc.Valid()
      requires ReachableTo(g, disk.bytes, Stale(), i) && rollingCrc == Sum(g, disk.bytes, Stale(), i)
      modifies lbaBuffer, crc, crc.precalcTable
      ensures crc.Valid() && Stale() == old(Stale())
      ensures ok <==> Readable(disk, g, i)
      ensures ok ==> ReachableTo(g, disk.bytes, Stale(), i + 1) && sum == Sum(g, disk.bytes, Stale(), i + 1)
    {
      var entry := ReadPartitionEntryByIndex(g, i);
      ok, sum := entry.Some?, rollingCrc;
      if ok {
        SumStep(g, disk.bytes, Stale(), i);
        sum := crc.CalculateEx(rollingCrc, lbaBuffer[entry.value..entry.value + g.size]);
      }
    }

    /** The loop of `GPT_ValidatePartitionEntries`. */
    method SumEntries(g: Geometry) returns (ok: bool, rollingCrc: bv32)
      requires Sized() && g.lba == lbaSize && EntriesFit(g, lbaBuffer.Length) && crc.Valid()
      modifies lbaBuffer, crc, crc.precalcTable
      ensures crc.Valid() && Stale() == old(Stale())
      ensures ok <==> AllReadable(disk, g)
      ensures ok ==> ReachableTo(g, disk.bytes, Stale(), g.num) && rollingCrc == Sum(g, disk.bytes, Stale(), g.num)
    {
      rollingCrc := 0;
      ghost var stale := Stale();
      EmptySum(g, disk.bytes, stale);
      var i := 0;
      ok := true;
      while i < g.num
        invariant i <= g.num && crc.Valid() && Stale() == stale && ok
        invariant forall k: nat :: k < i ==> Readable(disk, g, k)
        invariant ReachableTo(g, disk.bytes, stale, i) && rollingCrc == Sum(g, disk.bytes, stale, i)
      {
        ok, rollingCrc := SumEntry(g, i, rollingCrc);
        if !ok {
          return;
        }
        i := i + 1;
      }
    }

    /** `GPT_ValidatePartitionEntries`. */
    method ValidatePartitionEntries() returns (result: bool)
      requires Valid() && EntriesFit(G(), lbaBuffer.Length)
      modifies this`partitionEntriesValid, lbaBuffer, crc, crc.precalcTable
      ensures Valid() && Stale() == old(Stale())
      ensures partitionEntriesValid == (old(partitionEntriesValid) || result)
      ensures result <==> ShownGood(disk, lbaSize, H(), Stale())
      ensures Regular(disk, G()) ==> (result <==> EntriesGood(disk, lbaSize, H()))
    {
      var h: HeaderBytes := header[..];
      var g := Shape(h, lbaSize);
      var rollingCrc;
      result, rollingCrc := SumEntries(g);
      if result {
        result := rollingCrc == EntriesCrc(h);
        if Regular(disk, g) { ExposedAllIsTable(g, disk.bytes, Stale(), g.num); }
        if result {
          partitionEntriesValid := true;
        }
      }
    }

    lemma AllReachable(g: Geometry)
      requires Sized() && g.lba == lbaSize && EntriesFit(g, lbaBuffer.Length) && AllReadable(disk, g)
      ensures ReachableTo(g, disk.bytes, Stale(), g.num)
    {
      forall i: nat | i < g.num ensures Reachable(g, |disk.bytes|, |Stale()|, i) { assert Readable(disk, g, i); }
    }

    /** Where the fields do not straddle, searching what is shown is searching the disk. */
    lemma SameFind(g: Geometry, key: Key, guid: Guid, from: nat)
      requires Sized() && g.lba == lbaSize && FieldsInside(g)
      requires ReadableToFirst(disk, g, ShownMatcher(g, disk.bytes, Stale(), key, guid), from)
      ensures First(ShownMatcher(g, disk.bytes, Stale(), key, guid), from, g.num)
        == First(Matcher(g, disk.bytes, key, guid), from, g.num)
    {
      var p, q := ShownMatcher(g, disk.bytes, Stale(), key, guid), Matcher(g, disk.bytes, key, guid);
      forall i: nat | i < g.num && i <= First(p, from, g.num) ensures p(i) == q(i) {
        assert Readable(disk, g, i) && FieldsInSector(g, i);
        ShownIsOnDisk(g, disk.bytes, Stale(), i);
      }
      FirstAgrees(p, q, from, g.num);
    }

    lemma SameFinds(g: Geometry, key: Key, guid: Guid)
      requires Sized() && g.lba == lbaSize && FieldsInside(g) && AllReadable(disk, g)
      ensures All(ShownMatcher(g, disk.bytes, Stale(), key, guid), 0, g.num)
        == All(Matcher(g, disk.bytes, key, guid), 0, g.num)
    {
      var p, q := ShownMatcher(g, disk.bytes, Stale(), key, guid), Matcher(g, disk.bytes, key, guid);
      forall i: nat | i < g.num ensures p(i) == q(i) {
        assert Readable(disk, g, i) && FieldsInSector(g, i);
        ShownIsOnDisk(g, disk.bytes, Stale(), i);
      }
      AllAgrees(p, q, 0, g.num);
    }

    /** One round of the loop of `FindPartitionById_`. */
    method EntryShowsMatch(g: Geometry, key: Key, guid: Guid, i: nat) returns (found: bool)
      requires Sized() && g.lba == lbaSize && i < g.num && Readable(disk, g, i)
      modifies lbaBuffer
      ensures Stale() == old(Stale())
      ensures found == ShownMatch(g, disk.bytes, Stale(), key, guid, i)
    {
      var entry := ReadPartitionEntryByIndex(g, i);
      found := EntryMatches(lbaBuffer[entry.value..entry.value + ENTRY_FIELDS], key, guid);
    }

    /** The loop of `FindPartitionById_`: `p` is what each round looks for. */
    method SearchEntries(g: Geometry, key: Key, guid: Guid, from: nat, ghost p: nat -> bool)
      returns (result: bool, index: nat)
      requires Sized() && g.lba == lbaSize && p == ShownMatcher(g, disk.bytes, Stale(), key, guid)
      requires ReadableToFirst(disk, g, p, from)
      modifies lbaBuffer
      ensures Stale() == old(Stale())
      ensures var first := First(p, from, g.num); result == (first < g.num) && index == if result then first else from
    {
      hide First, ShownMatch, Readable;
      ghost var stale := Stale();
      index := from;
      result := false;
      var i := 0;
      while i < g.num
        invariant i <= g.num && Stale() == stale
        invariant First(p, from, g.num) == First(p, if i < from then from else i, g.num)
      {
        var found := EntryShowsMatch(g, key, guid, i);
        assert p(i) == found;
        FirstStep(p, i, g.num);
        if i >= from && found {
          return true, i;
        }
        i := i + 1;
      }
    }

    /** `FindPartitionById_`, on an array that can be read up to the first match. */
    method FindPartitionById(g: Geometry, key: Key, guid: Guid, from: nat) returns (result: bool, index: nat)
      requires Sized() && g.lba == lbaSize
      requires ReadableToFirst(disk, g, ShownMatcher(g, disk.bytes, Stale(), key, guid), from)
      modifies lbaBuffer
      ensures Stale() == old(Stale())
      ensures var first := First(ShownMatcher(g, disk.bytes, Stale(), key, guid), from, g.num);
        && result == (first < g.num)
        && index == if result then first else from
      ensures FieldsInside(g) ==>
        var first := First(Matcher(g, disk.bytes, key, guid), from, g.num);
        && result == (first < g.num)
        && index == if result then first else from
    {
      if FieldsInside(g) { SameFind(g, key, guid, from); }
      hide First, FieldsInside, ShownMatch, Matcher, ReadableToFirst;
      result, index := SearchEntries(g, key, guid, from, ShownMatcher(g, disk.bytes, Stale(), key, guid));
    }

    /** The array has been found right, or is right by what the code sees of it. */
    ghost predicate Checked()
      requires Sized()
      reads this, header, lbaBuffer
    {
      partitionEntriesValid || ShownGood(disk, lbaSize, H(), Stale())
    }

    /** `GPT_FindBootSectorIndex`. The verdict on the header is not asked for: whether what is found is found
        under a good header shows in the flag, afterwards. */
    method FindBootSectorIndex(from: nat) returns (result: bool, index: nat)
      requires Valid() && SizeFits(H()) && EntriesFit(G(), lbaBuffer.Length)
      modifies this, header, lbaBuffer, crc, crc.precalcTable
      ensures Valid() && header[..] == old(header[..]) && Stale() == old(Stale()) && Checked() == old(Checked())
      ensures result ==> AllReadable(disk, G())
      ensures var first := First(ShownBootMatcher(), from, G().num);
        && (result <==> Checked() && first < G().num)
        && index == if result then first else from
      ensures partitionEntriesValid == Checked()
      ensures headerValid == (old(headerValid) || HeaderGood(H()))
      ensures old(HeaderSound()) ==> (headerValid <==> HeaderGood(H()))
    {
      var g := Shape(header[..], lbaSize);
      index := from;
      if !headerValid {
        var _ := ValidateHeader();
      }
      result := partitionEntriesValid;
      if !result {
        result := ValidatePartitionEntries();
      }
      if result {
        result, index := FindPartitionById(g, TypeId, BOOT_TYPE, from);
      }
    }

    ghost function ShownBootMatcher(): nat -> bool
      requires Sized()
      reads header, lbaBuffer
    {
      ShownMatcher(G(), disk.bytes, Stale(), TypeId, BOOT_TYPE)
    }

    ghost function BootMatcher(): nat -> bool
      requires Sized()
      reads header
    {
      Matcher(G(), disk.bytes, TypeId, BOOT_TYPE)
    }

    /** On an array without straddling, what is seen is what is on the disk. */
    lemma SeenIsOnDisk(from: nat)
      requires Valid() && Regular(disk, G()) && EntriesFit(G(), lbaBuffer.Length)
      ensures Checked() <==> EntriesGood(disk, lbaSize, H())
      ensures Checked() && FieldsInside(G()) ==>
        && First(ShownBootMatcher(), from, G().num) == First(BootMatcher(), from, G().num)
        && All(ShownBootMatcher(), 0, G().num) == All(BootMatcher(), 0, G().num)
    {
      var g := G();
      if AllReadable(disk, g) {
        AllReachable(g);
        ExposedAllIsTable(g, disk.bytes, Stale(), g.num);
        if FieldsInside(g) {
          SameFind(g, TypeId, BOOT_TYPE, from);
          SameFinds(g, TypeId, BOOT_TYPE);
        }
      }
    }

    /** `GPT_PartitionIdToLBAOffset`, when the sector of an existing entry can be read. */
    method PartitionIdToLBAOffset(g: Geometry, i: nat) returns (firstLba: Option<nat>)
      requires Sized() && g.lba == lbaSize
      requires i < g.num ==> Readable(disk, g, i)
      modifies lbaBuffer
      ensures Stale() == old(Stale())
      ensures firstLba.Some? <==> i < g.num
      ensures i < g.num ==> ShownAt(g, i, firstLba.value) && (FieldsInSector(g, i) ==> StartsAt(g, i, firstLba.value))
    {
      var entry := ReadPartitionEntryByIndex(g, i);
      firstLba := None;
      if i < g.num {
        if FieldsInSector(g, i) { ShownIsOnDisk(g, disk.bytes, Stale(), i); }
        firstLba := Some(FirstLba(lbaBuffer[entry.value..entry.value + ENTRY_FIELDS]));
      }
    }

    /** `lba` is the firstLBA field of entry `i` as the code sees it. */
    ghost predicate ShownAt(g: Geometry, i: nat, lba: nat)
      requires Sized()
      reads lbaBuffer
    {
      && g.lba == lbaSize && Showable(g, |disk.bytes|, |Stale()|, i)
      && lba == FirstLba(ShownFields(g, disk.bytes, Stale(), i))
    }

    /** `lba` is the firstLBA field of entry `i` on the disk. */
    ghost predicate StartsAt(g: Geometry, i: nat, lba: nat) {
      Position(g, i) + ENTRY_FIELDS <= |disk.bytes| && lba == FirstLba(DiskFields(g, disk.bytes, i))
    }

    /** The first boot partition at or after `from`, and where it starts: as the code sees the array, and
        on arrays without straddling as it is on the disk. */
    method NextBootPartition(from: nat) returns (next: Option<(nat, nat)>)
      requires Valid() && SizeFits(H()) && EntriesFit(G(), lbaBuffer.Length)
      modifies this, header, lbaBuffer, crc, crc.precalcTable
      ensures Valid() && header[..] == old(header[..]) && Stale() == old(Stale()) && Checked() == old(Checked())
      ensures var first := First(ShownBootMatcher(), from, G().num);
        && (next.Some? <==> Checked() && first < G().num)
        && (next.Some? ==> next.value.0 == first && ShownAt(G(), first, next.value.1))
      ensures Regular(disk, G()) && FieldsInside(G()) ==>
        var first := First(BootMatcher(), from, G().num);
        && (next.Some? <==> EntriesGood(disk, lbaSize, H()) && first < G().num)
        && (next.Some? ==> next.value.0 == first && StartsAt(G(), first, next.value.1))
    {
      hide ShownGood, EntriesGood, First, FlagSound, SizeFits, ShownFields, DiskFields, ShownMatch;
      var g := Shape(header[..], lbaSize);
      next := None;
      var result, index := FindBootSectorIndex(from);
      if result {
        if FieldsInside(g) { assert FieldsInSector(g, index); }
        var firstLba := PartitionIdToLBAOffset(g, index);
        next := Some((index, firstLba.value));
      }
      if Regular(disk, g) { SeenIsOnDisk(from); }
    }

    /** Every boot partition, by searching again after each find, as the command line does
        (services/tinycli/tinycli_api.c). */
    method ListBootPartitions() returns (found: seq<nat>)
      requires Valid() && SizeFits(H()) && EntriesFit(G(), lbaBuffer.Length)
      modifies this, header, lbaBuffer, crc, crc.precalcTable
      ensures Valid() && header[..] == old(header[..]) && Stale() == old(Stale()) && Checked() == old(Checked())
      ensures found == if Checked() then All(ShownBootMatcher(), 0, G().num) else []
      ensures Regular(disk, G()) && FieldsInside(G()) ==>
        found == if EntriesGood(disk, lbaSize, H()) then All(BootMatcher(), 0, G().num) else []
    {
      hide ShownGood, EntriesGood, First, All, FlagSound, SizeFits, ShownFields, DiskFields, ShownMatch, NoStraddle;
      ghost var h, stale, n, p := H(), Stale(), G().num, ShownBootMatcher();
      ghost var good := Checked();
      found := [];
      var next := NextBootPartition(0);
      ghost var sofar := Progress([], 0, First(p, 0, n));
      SofarStart(p, n);
      while next.Some?
        invariant Valid() && H() == h && Stale() == stale && Checked() == good
        invariant Sofar(p, n, sofar)
        invariant next.Some? <==> good && sofar.next < n
        invariant next.Some? ==> next.value.0 == sofar.next
        invariant found == if good then sofar.found else []
        decreases next.Some?, n - sofar.from
      {
        SofarStep(p, n, sofar);
        found := found + [next.value.0];
        sofar := Progress(sofar.found + [sofar.next], sofar.next + 1, First(p, sofar.next + 1, n));
        next := NextBootPartition(next.value.0 + 1);
      }
      if good { SofarDone(p, n, sofar); }
      if Regular(disk, G()) { SeenIsOnDisk(0); }
    }
  }

  // ---------------------------------------------------------------- searches under a bad header

  lemma {:induction false} ZeroFields(s: seq<byte>)
    requires AllZero(s)
    ensures LittleEndian(s) == 0 && Crc32Burst.PackBytes(s) == 0
    decreases s
  {
    if s != [] { ZeroFields(s[1..]); }
  }

  lemma ZeroHeader(h: HeaderBytes, lba: nat)
    requires AllZero(h)
    ensures !Recognised(h) && Shape(h, lba).num == 0 && EntriesCrc(h) == 0
  {
    assert h[0] != SIGNATURE[0];
    ZeroFields(h[80..84]);
    ZeroFields(h[88..92]);
  }

  /** A search before any header is read, on any disk: the header of zeros is not good, and yet its array of
      no entries is found valid and stays so. */
  method SearchUnread(disk: Disk, crc: Crc32.Unit, lbaSize: nat, maxLbaSize: nat) returns (reader: Reader, found: bool)
    requires crc.Valid() && 0 < lbaSize <= maxLbaSize && maxLbaSize >= HEADER_FIELDS
    modifies crc, crc.precalcTable
    ensures reader.Valid() && !found && reader.partitionEntriesValid
    ensures !reader.headerValid && SizeFits(reader.H()) && !HeaderGood(reader.H())
  {
    reader := new Reader(disk, crc, lbaSize, maxLbaSize);
    ZeroHeader(reader.H(), lbaSize);
    EmptySum(reader.G(), disk.bytes, reader.Stale());
    var index;
    found, index := reader.FindBootSectorIndex(0);
  }

  /** A header without signature, and with one entry of 128 bytes. */
  function Unsigned(sum: bv32): (h: HeaderBytes)
    ensures |h| == 512
  {
    Zeros(72) + [2, 0, 0, 0, 0, 0, 0, 0] + [1, 0, 0, 0] + [128, 0, 0, 0] + Crc32Burst.Unpack(sum) + Zeros(420)
  }

  function BootEntry(): (e: seq<byte>)
    ensures |e| == 128
  {
    BOOT_TYPE + Zeros(112)
  }

  /** A disk of three sectors of 512 bytes with that header and a boot partition. */
  function UnsignedDisk(): (d: Disk)
    ensures |d.bytes| == 1536
  {
    Disk(Zeros(512) + Unsigned(Crc32.Crc(0, BootEntry())) + (BootEntry() + Zeros(384)), {})
  }

  lemma UnsignedFields(sum: bv32)
    ensures var h := Unsigned(sum);
      !Recognised(h) && Shape(h, 512) == Geometry(512, 2, 1, 128) && EntriesCrc(h) == sum
  {
    var h := Unsigned(sum);
    assert h[0] != SIGNATURE[0];
    assert h[72..80] == [2, 0, 0, 0, 0, 0, 0, 0] && h[80..84] == [1, 0, 0, 0] && h[84..88] == [128, 0, 0, 0];
    assert h[88..92] == Crc32Burst.Unpack(sum);
    Crc32Burst.PackUnpack(sum);
    SmallField(h[72..80], 2);
    SmallField(h[80..84], 1);
    SmallField(h[84..88], 128);
  }

  lemma SmallField(s: seq<byte>, b: byte)
    requires s != [] && s[0] == b && AllZero(s[1..])
    ensures LittleEndian(s) == Crc32.Slot(b)
  {
    ZeroFields(s[1..]);
  }

  lemma UnsignedSectors()
    ensures UnsignedDisk().bytes[512..1024] == Unsigned(Crc32.Crc(0, BootEntry()))
    ensures UnsignedDisk().bytes[1024..1536] == BootEntry() + Zeros(384) && UnsignedDisk().bad == {}
  {
    hide Unsigned, BootEntry, Crc32.Crc;
  }

  const ONE_ENTRY := Geometry(512, 2, 1, 128)

  lemma OneEntryAt()
    ensures Offset(ONE_ENTRY, 0) == 0 && SectorPosition(ONE_ENTRY, 0) == 1024
  {
  }

  lemma OneEntryShown(disk: seq<byte>, stale: seq<byte>, e: seq<byte>, rest: seq<byte>)
    requires |disk| == 1536 && |stale| >= 512 && |e| == 128 && disk[1024..1536] == e + rest
    ensures Reachable(ONE_ENTRY, |disk|, |stale|, 0) && Showable(ONE_ENTRY, |disk|, |stale|, 0)
    ensures ExposedAll(ONE_ENTRY, disk, stale, 1) == e
    ensures ShownFields(ONE_ENTRY, disk, stale, 0) == e[..ENTRY_FIELDS]
  {
    OneEntryAt();
    hide Offset, SectorPosition;
    var shown := disk[1024..1536] + stale;
    assert shown[..128] == e && shown[..ENTRY_FIELDS] == e[..ENTRY_FIELDS];
    assert Exposed(ONE_ENTRY, disk, stale, 0) == e;
    assert ExposedAll(ONE_ENTRY, disk, stale, 0) == [];
  }

  /** What the code sees of it: the array is right, and its entry is a boot partition. */
  lemma UnsignedShown(h: HeaderBytes, stale: seq<byte>)
    requires h == Unsigned(Crc32.Crc(0, BootEntry())) && |stale| >= 512
    ensures !Recognised(h) && Shape(h, 512) == ONE_ENTRY
    ensures ShownGood(UnsignedDisk(), 512, h, stale)
    ensures ShownMatch(Shape(h, 512), UnsignedDisk().bytes, stale, TypeId, BOOT_TYPE, 0)
  {
    hide UnsignedDisk, Unsigned, Recognised, Shape, EntriesCrc, Crc32.Crc, ShownFields, ExposedAll, Offset;
    hide SectorPosition, Showable, Reachable;
    var d := UnsignedDisk();
    UnsignedFields(Crc32.Crc(0, BootEntry()));
    UnsignedSectors();
    OneEntryShown(d.bytes, stale, BootEntry(), Zeros(384));
    OneEntryAt();
    assert BootEntry()[..ENTRY_FIELDS][0..16] == BOOT_TYPE;
  }

  lemma OneEntryFits()
    ensures EntriesFit(ONE_ENTRY, 1024)
  {
    OneEntryAt();
  }

  /** A header that is refused when it is read, and a boot partition that is found all the same. */
  method SearchUnsigned(crc: Crc32.Unit) returns (reader: Reader, good: bool, found: bool, index: nat)
    requires crc.Valid()
    modifies crc, crc.precalcTable
    ensures reader.Valid() && !good && found && index == 0
    ensures !reader.headerValid && SizeFits(reader.H()) && !HeaderGood(reader.H())
  {
    hide Unsigned, ShownGood, ShownMatch, Recognised, Shape, EntriesFit, FlagSound, AllReadable, Crc32.Crc;
    var disk := UnsignedDisk();
    reader := new Reader(disk, crc, 512, 512);
    ghost var h, stale := Unsigned(Crc32.Crc(0, BootEntry())), reader.Stale();
    UnsignedSectors();
    UnsignedShown(h, stale);
    OneEntryFits();
    hide UnsignedDisk, BootEntry, First;
    assert reader.HeaderRead() == h;
    good := reader.ReadHeader();
    assert reader.H() == h && reader.G() == ONE_ENTRY;
    found, index := reader.FindBootSectorIndex(0);
    FoundAtZero(disk, stale);
  }

  lemma FoundAtZero(disk: Disk, stale: seq<byte>)
    requires ShownMatch(ONE_ENTRY, disk.bytes, stale, TypeId, BOOT_TYPE, 0)
    ensures First(ShownMatcher(ONE_ENTRY, disk.bytes, stale, TypeId, BOOT_TYPE), 0, ONE_ENTRY.num) == 0
  {
    var p := ShownMatcher(ONE_ENTRY, disk.bytes, stale, TypeId, BOOT_TYPE);
    hide ShownMatch;
    assert p(0);
  }
}
