/** The on-disk structures of a GUID partition table, written out field by field in the order that sections
    5.3.2 and 5.3.3 of the UEFI Specification give them, and read back (services/boot/gpt.h). */
module GptFormat {
  import opened Words
  import opened Gpt
  import Crc32
  import Crc32Burst
  import GptLayout

  // ---------------------------------------------------------------- numbers, least significant byte first

  function Limit(n: nat): nat { if n == 0 then 1 else 256 * Limit(n - 1) }

  function Bytes(v: nat, n: nat): (s: seq<byte>)
    ensures |s| == n
  {
    if n == 0 then [] else [ByteOf(v % 256)] + Bytes(v / 256, n - 1)
  }

  function ByteOf(k: nat): (b: byte)
    requires k < 256
    ensures Crc32.Slot(b) == k
  {
    if k == 0 then 0 else
    var before := ByteOf(k - 1);
    LastByte(before);
    Crc32.SlotStep(before);
    before + 1
  }

  lemma LastByte(b: byte)
    requires Crc32.Slot(b) < 255
    ensures b != 255
  {
  }

  lemma ByteIs(k: nat, b: byte)
    requires k < 256 && Crc32.Slot(b) == k
    ensures ByteOf(k) == b
  {
    assert Crc32.FromSlot(k) == ByteOf(k);
  }

  lemma {:induction false} BytesReadBack(v: nat, n: nat)
    requires v < Limit(n)
    ensures LittleEndian(Bytes(v, n)) == v
    decreases n
  {
    if n > 0 {
      var s, rest := Bytes(v, n), Bytes(v / 256, n - 1);
      BytesReadBack(v / 256, n - 1);
      hide Crc32.Slot, Crc32.FromSlot, ByteOf;
      assert s[0] == ByteOf(v % 256) && s[1..] == rest;
      assert LittleEndian(s) == Crc32.Slot(s[0]) + 256 * LittleEndian(rest);
    }
  }

  lemma Limits()
    ensures Limit(2) == 0x1_0000 && Limit(4) == 0x1_0000_0000 && Limit(8) == 0x1_0000_0000_0000_0000
  {
    assert Limit(2) == 0x1_0000;
    assert Limit(4) == 0x1_0000 * Limit(2);
    assert Limit(6) == 0x1_0000 * Limit(4);
  }

  const U32 := 0x1_0000_0000
  const U64 := 0x1_0000_0000_0000_0000

  /** The four fields of `HSS_GPT_GUID_t`. */
  function GuidBytes(data1: nat, data2: nat, data3: nat, data4: nat): (g: Guid) {
    Bytes(data1, 4) + Bytes(data2, 2) + Bytes(data3, 2) + Bytes(data4, 8)
  }

  /** The boot partition type is the one that `GPT_FindBootSectorIndex` spells out. */
  lemma BootTypeIs()
    ensures BOOT_TYPE == GuidBytes(0x2168_6148, 0x6449, 0x6E6F, 0x4946_4564_6565_4E74)
  {
    FirstField();
    MiddleFields();
    LastField();
    hide Bytes;
  }

  lemma FirstField()
    ensures Bytes(0x2168_6148, 4) == [0x48, 0x61, 0x68, 0x21]
  {
    ByteIs(0x48, 0x48); ByteIs(0x61, 0x61); ByteIs(0x68, 0x68); ByteIs(0x21, 0x21);
    hide Bytes, ByteOf;
    OneMoreByte(0x21, 1); OneMoreByte(0x2168, 2); OneMoreByte(0x21_6861, 3); OneMoreByte(0x2168_6148, 4);
  }

  lemma MiddleFields()
    ensures Bytes(0x6449, 2) == [0x49, 0x64] && Bytes(0x6E6F, 2) == [0x6F, 0x6E]
  {
    ByteIs(0x49, 0x49); ByteIs(0x64, 0x64); ByteIs(0x6F, 0x6F); ByteIs(0x6E, 0x6E);
    hide Bytes, ByteOf;
    OneMoreByte(0x64, 1); OneMoreByte(0x6449, 2); OneMoreByte(0x6E, 1); OneMoreByte(0x6E6F, 2);
  }

  lemma LastField()
    ensures Bytes(0x4946_4564_6565_4E74, 8) == [0x74, 0x4E, 0x65, 0x65, 0x64, 0x45, 0x46, 0x49]
  {
    ByteIs(0x74, 0x74); ByteIs(0x4E, 0x4E); ByteIs(0x65, 0x65); ByteIs(0x64, 0x64); ByteIs(0x45, 0x45);
    ByteIs(0x46, 0x46); ByteIs(0x49, 0x49);
    hide Bytes, ByteOf;
    OneMoreByte(0x49, 1); OneMoreByte(0x4946, 2); OneMoreByte(0x49_4645, 3); OneMoreByte(0x4946_4564, 4);
    OneMoreByte(0x49_4645_6465, 5); OneMoreByte(0x4946_4564_6565, 6); OneMoreByte(0x49_4645_6465_654E, 7);
    OneMoreByte(0x4946_4564_6565_4E74, 8);
  }

  lemma OneMoreByte(v: nat, n: nat)
    requires n > 0
    ensures Bytes(v, n) == [ByteOf(v % 256)] + Bytes(v / 256, n - 1) && Bytes(v / 256, 0) == []
  {
  }

  // ---------------------------------------------------------------- partition entries

  /** `rest` holds the last LBA, the attributes, the name and whatever else an entry has room for. */
  function EntryBytes(typeId: Guid, uniqueId: Guid, firstLba: nat, rest: seq<byte>): (e: seq<byte>)
    ensures |e| >= ENTRY_FIELDS
  {
    typeId + uniqueId + Bytes(firstLba, 8) + rest
  }

  lemma EntryReadBack(typeId: Guid, uniqueId: Guid, firstLba: nat, rest: seq<byte>, guid: Guid)
    requires firstLba < U64
    ensures var e := EntryBytes(typeId, uniqueId, firstLba, rest);
      && FirstLba(e) == firstLba
      && (EntryMatches(e, TypeId, guid) <==> typeId == guid)
      && (EntryMatches(e, UniqueId, guid) <==> uniqueId == guid)
  {
    var e := EntryBytes(typeId, uniqueId, firstLba, rest);
    Limits();
    BytesReadBack(firstLba, 8);
    assert e[32..40] == Bytes(firstLba, 8) && e[0..16] == typeId && e[16..32] == uniqueId;
  }

  /** So an entry that was written to the disk is found under its own identifiers, and starts where it says. */
  lemma StoredEntry(g: GptLayout.Geometry, disk: seq<byte>, i: nat, typeId: Guid, uniqueId: Guid, firstLba: nat,
      rest: seq<byte>, guid: Guid)
    requires firstLba < U64
    requires GptLayout.Position(g, i) <= |disk|
    requires EntryBytes(typeId, uniqueId, firstLba, rest) <= disk[GptLayout.Position(g, i)..]
    ensures MatchAt(g, disk, TypeId, guid, i) <==> typeId == guid
    ensures MatchAt(g, disk, UniqueId, guid, i) <==> uniqueId == guid
    ensures FirstLba(DiskFields(g, disk, i)) == firstLba
  {
    var e, at := EntryBytes(typeId, uniqueId, firstLba, rest), GptLayout.Position(g, i);
    EntryReadBack(typeId, uniqueId, firstLba, rest, guid);
    assert e[..ENTRY_FIELDS] == disk[at..][..ENTRY_FIELDS] == DiskFields(g, disk, i);
    EntryReadBack(typeId, uniqueId, firstLba, rest[..0], guid);
    assert EntryBytes(typeId, uniqueId, firstLba, rest[..0]) == e[..ENTRY_FIELDS];
  }

  // ---------------------------------------------------------------- the header

  datatype Header = Header(signature: seq<byte>, revision: nat, size: nat, crc: bv32, reserved: seq<byte>,
      currentLba: nat, backupLba: nat, firstUsable: nat, lastUsable: nat, diskId: Guid, entriesLba: nat, num: nat,
      entrySize: nat, entriesCrc: bv32, rest: seq<byte>)

  predicate InRange(f: Header) {
    && |f.signature| == 8 && |f.reserved| == 4 && f.revision < U32 && f.size < U32
    && f.currentLba < U64 && f.entriesLba < U64 && f.num < U32 && f.entrySize < U32
  }

  function FirstPart(f: Header): seq<byte> {
    f.signature + Bytes(f.revision, 4) + Bytes(f.size, 4) + Crc32Burst.Unpack(f.crc) + f.reserved
  }

  function MiddlePart(f: Header): seq<byte> {
    Bytes(f.currentLba, 8) + Bytes(f.backupLba, 8) + Bytes(f.firstUsable, 8) + Bytes(f.lastUsable, 8) + f.diskId
  }

  function LastPart(f: Header): seq<byte> {
    Bytes(f.entriesLba, 8) + Bytes(f.num, 4) + Bytes(f.entrySize, 4) + Crc32Burst.Unpack(f.entriesCrc)
  }

  function Encode(f: Header): (h: HeaderBytes)
    requires InRange(f)
    ensures |h| == HEADER_FIELDS + |f.rest|
  {
    FirstPart(f) + MiddlePart(f) + LastPart(f) + f.rest
  }

  lemma Parts(f: Header)
    requires InRange(f)
    ensures var h := Encode(f); h[..24] == FirstPart(f) && h[24..72] == MiddlePart(f) && h[72..92] == LastPart(f)
  {
    hide Bytes, Crc32Burst.Unpack;
    Slices(FirstPart(f), MiddlePart(f), LastPart(f), f.rest);
  }

  lemma Slices(a: seq<byte>, b: seq<byte>, c: seq<byte>, d: seq<byte>)
    ensures var h := a + b + c + d;
      && h[..|a|] == a && h[|a|..|a| + |b|] == b && h[|a| + |b|..|a| + |b| + |c|] == c && h[|a| + |b| + |c|..] == d
  {
  }

  /** Every field that is used is read back as it was written. */
  lemma HeaderReadBack(f: Header, lba: nat)
    requires InRange(f)
    ensures var h := Encode(f);
      && h[..8] == f.signature && Revision(h) == f.revision && HeaderSize(h) == f.size && HeaderCrc(h) == f.crc
      && CurrentLba(h) == f.currentLba && EntriesLba(h) == f.entriesLba && EntriesCrc(h) == f.entriesCrc
      && Shape(h, lba).num == f.num && Shape(h, lba).size == f.entrySize
  {
    var h := Encode(f);
    FirstReadBack(f);
    MiddleReadBack(f);
    LastReadBack(f);
    Parts(f);
    hide Encode, FirstPart, MiddlePart, LastPart, LittleEndian, Crc32Burst.PackBytes;
    SubSlices(h);
  }

  lemma SubSlices(h: HeaderBytes)
    ensures h[..24][..8] == h[..8] && h[..24][8..12] == h[8..12] && h[..24][12..16] == h[12..16]
    ensures h[..24][16..20] == h[16..20] && h[24..72][..8] == h[24..32]
    ensures h[72..92][..8] == h[72..80] && h[72..92][8..12] == h[80..84] && h[72..92][12..16] == h[84..88]
    ensures h[72..92][16..20] == h[88..92]
  {
    SubSlice(h, 0, 24, 0, 8); SubSlice(h, 0, 24, 8, 12); SubSlice(h, 0, 24, 12, 16); SubSlice(h, 0, 24, 16, 20);
    SubSlice(h, 24, 72, 0, 8);
    SubSlice(h, 72, 92, 0, 8); SubSlice(h, 72, 92, 8, 12); SubSlice(h, 72, 92, 12, 16); SubSlice(h, 72, 92, 16, 20);
  }

  lemma SubSlice(s: seq<byte>, a: nat, b: nat, c: nat, d: nat)
    requires a <= b <= |s| && c <= d <= b - a
    ensures s[a..b][c..d] == s[a + c..a + d]
  {
    assert forall i :: 0 <= i < d - c ==> s[a..b][c..d][i] == s[a + c..a + d][i];
  }

  lemma FourParts(a: seq<byte>, b: seq<byte>, c: seq<byte>, d: seq<byte>)
    requires |a| == 8 && |b| == 4 && |c| == 4 && |d| == 4
    ensures var p := a + b + c + d; |p| == 20 && p[..8] == a && p[8..12] == b && p[12..16] == c && p[16..20] == d
  {
  }

  lemma FirstReadBack(f: Header)
    requires InRange(f)
    ensures var p := FirstPart(f);
      && |p| == 24 && p[..8] == f.signature && LittleEndian(p[8..12]) == f.revision
      && LittleEndian(p[12..16]) == f.size && Crc32Burst.PackBytes(p[16..20]) == f.crc
  {
    Limits();
    BytesReadBack(f.revision, 4);
    BytesReadBack(f.size, 4);
    Crc32Burst.PackUnpack(f.crc);
    hide Bytes, LittleEndian, Crc32Burst.Unpack, Crc32Burst.PackBytes, Limit;
    FourParts(f.signature, Bytes(f.revision, 4), Bytes(f.size, 4), Crc32Burst.Unpack(f.crc));
    var p, q := FirstPart(f), f.signature + Bytes(f.revision, 4) + Bytes(f.size, 4) + Crc32Burst.Unpack(f.crc);
    assert p[..20] == q;
    assert p[8..12] == q[8..12] && p[12..16] == q[12..16] && p[16..20] == q[16..20] && p[..8] == q[..8];
  }

  lemma MiddleReadBack(f: Header)
    requires InRange(f)
    ensures |MiddlePart(f)| == 48 && LittleEndian(MiddlePart(f)[..8]) == f.currentLba
  {
    Limits();
    BytesReadBack(f.currentLba, 8);
    hide Bytes, LittleEndian;
    assert MiddlePart(f)[..8] == Bytes(f.currentLba, 8);
  }

  lemma LastReadBack(f: Header)
    requires InRange(f)
    ensures var p := LastPart(f);
      && |p| == 20 && LittleEndian(p[..8]) == f.entriesLba && LittleEndian(p[8..12]) == f.num
      && LittleEndian(p[12..16]) == f.entrySize && Crc32Burst.PackBytes(p[16..20]) == f.entriesCrc
  {
    Limits();
    BytesReadBack(f.entriesLba, 8);
    BytesReadBack(f.num, 4);
    BytesReadBack(f.entrySize, 4);
    Crc32Burst.PackUnpack(f.entriesCrc);
    hide Bytes, LittleEndian, Crc32Burst.Unpack, Crc32Burst.PackBytes, Limit;
    FourParts(Bytes(f.entriesLba, 8), Bytes(f.num, 4), Bytes(f.entrySize, 4), Crc32Burst.Unpack(f.entriesCrc));
  }

  /** The header with its checksum field blanked. */
  lemma BlankedIs(f: Header)
    requires InRange(f)
    ensures Blanked(Encode(f)) == Encode(f.(crc := 0))
  {
    ZeroUnpacks();
    hide Bytes, Crc32Burst.Unpack;
    var h, z := Encode(f), Encode(f.(crc := 0));
    assert h[..16] == z[..16] && h[20..] == z[20..] && z[16..20] == [0, 0, 0, 0];
    assert z == z[..16] + z[16..20] + z[20..];
  }

  lemma ZeroUnpacks()
    ensures Crc32Burst.Unpack(0) == [0, 0, 0, 0]
  {
  }

  /** The characters of an ASCII text. */
  function Text(s: string): seq<byte>
    requires forall i :: 0 <= i < |s| ==> s[i] as int < 256
  {
    seq(|s|, i requires 0 <= i < |s| => ByteOf(s[i] as int))
  }

  lemma SignatureIs()
    ensures SIGNATURE == Text("EFI PART")
  {
    var t := Text("EFI PART");
    assert t[0] == 0x45 && t[1] == 0x46 && t[2] == 0x49 && t[3] == 0x20;
    assert t[4] == 0x50 && t[5] == 0x41 && t[6] == 0x52 && t[7] == 0x54;
  }

  /** The checksum is that of the first `size` bytes, with its own field blank. */
  predicate SumsUp(f: Header)
    requires InRange(f)
  {
    f.size <= |Encode(f)| && f.crc == Crc32.Crc(0, Encode(f.(crc := 0))[..f.size])
  }

  /** Which headers are accepted, field by field. */
  lemma HeaderGoodIs(f: Header)
    requires InRange(f) && SizeFits(Encode(f))
    ensures HeaderGood(Encode(f)) <==>
      && f.signature == Text("EFI PART") && f.revision == 0x0001_0000
      && f.currentLba == 1 && f.entriesLba == 2 && SumsUp(f)
  {
    HeaderReadBack(f, 1);
    BlankedIs(f);
    SignatureIs();
    hide Encode, Text, Blanked, Crc32.Crc;
  }
}
