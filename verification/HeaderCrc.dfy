/** The boot image header check, `validateCrc_` in services/boot/hss_boot_service.c.

    A header is the bytes of `struct HSS_BootImage` (include/hss_types.h) as laid out for the
    64-bit target: 4-byte version at 4, 4-byte headerCrc at 16, 144-byte signature at the end.
    The older structure stops 80 bytes earlier. */
module HeaderCrc {
  import opened Crc32
  import opened Words
  import Crc32Burst

  const HEADER_SIZE := 1632
  const HEADER_SIZE_V0 := 1552
  const VERSION_OFFSET := 4
  const CRC_OFFSET := 16
  const SIGNATURE_OFFSET := 1488

  type Header = h: seq<byte> | |h| == HEADER_SIZE witness seq(HEADER_SIZE, _ => 0)

  predicate IsSignature(i: int) { SIGNATURE_OFFSET <= i < HEADER_SIZE }

  predicate IsCrcField(i: int) { CRC_OFFSET <= i < CRC_OFFSET + 4 }

  predicate IsVersionField(i: int) { VERSION_OFFSET <= i < VERSION_OFFSET + 4 }

  /** The copy that is summed: checksum and signature blanked. */
  function Shadow(h: Header): Header {
    seq(HEADER_SIZE, i requires 0 <= i < HEADER_SIZE => if IsCrcField(i) || IsSignature(i) then 0 else h[i])
  }

  function Field(h: Header, offset: nat): bv32
    requires offset + 4 <= HEADER_SIZE
  {
    Crc32Burst.PackBytes(h[offset..offset + 4])
  }

  function CrcLength(h: Header): nat {
    if Field(h, VERSION_OFFSET) == 0 then HEADER_SIZE_V0 else HEADER_SIZE
  }

  predicate Accepts(h: Header) {
    Crc(0, Shadow(h)[..CrcLength(h)]) == Field(h, CRC_OFFSET)
  }

  method ValidateCrc(crc: Unit, header: Header) returns (result: bool)
    requires crc.Valid()
    modifies crc, crc.precalcTable
    ensures crc.Valid()
    ensures result == Accepts(header)
  {
    var shadow := new byte[HEADER_SIZE](i requires 0 <= i < HEADER_SIZE => header[i]);
    var i := 0;
    while i < 4
      modifies shadow
      invariant i <= 4
      invariant forall k :: 0 <= k < HEADER_SIZE ==> shadow[k] == if CRC_OFFSET <= k < CRC_OFFSET + i then 0
        else header[k]
    {
      shadow[CRC_OFFSET + i] := 0;
      i := i + 1;
    }
    i := SIGNATURE_OFFSET;
    while i < HEADER_SIZE
      modifies shadow
      invariant SIGNATURE_OFFSET <= i <= HEADER_SIZE
      invariant forall k :: 0 <= k < HEADER_SIZE ==>
        shadow[k] == if IsCrcField(k) || SIGNATURE_OFFSET <= k < i then 0 else header[k]
    {
      shadow[i] := 0;
      i := i + 1;
    }
    var crcLen := if Field(header, VERSION_OFFSET) == 0 then HEADER_SIZE_V0 else HEADER_SIZE;
    assert shadow[..] == Shadow(header);
    assert shadow[..crcLen] == Shadow(header)[..crcLen];
    var headerCrc := crc.Calculate(shadow[..crcLen]);
    result := headerCrc == Field(header, CRC_OFFSET);
  }

  // ---------------------------------------------------------------- the header, field by field

  /** Four harts with their entry point, privilege mode, flags, three counts and name, and what aligns them. */
  const HARTS_SIZE := 4 * (8 + 1 + 1 + 6 + 3 * 8 + 256)

  /** Between checksum and signature: what aligns the first table offset, both offsets, the harts, the name of
      the set, and the length of the image. */
  const MIDDLE_SIZE := 4 + 2 * 8 + HARTS_SIZE + 256 + 8

  const DIGEST_SIZE := 48
  const ECDSA_SIZE := 96
  const PADS_SIZE := 32 + 32

  function Encode(magic: seq<byte>, version: bv32, length: seq<byte>, crc: bv32, middle: seq<byte>,
      signature: seq<byte>): (h: Header)
    requires |magic| == 4 && |length| == 8 && |middle| == MIDDLE_SIZE && |signature| == DIGEST_SIZE + ECDSA_SIZE
  {
    magic + Crc32Burst.Unpack(version) + length + Crc32Burst.Unpack(crc) + middle + signature
  }

  /** Its fields up to the signature, the checksum blank, followed by zeros: as many as the two pads of the older
      structure have bytes if the version is zero, as many as the signature otherwise. */
  function Summed(magic: seq<byte>, version: bv32, length: seq<byte>, middle: seq<byte>): seq<byte> {
    magic + Crc32Burst.Unpack(version) + length + [0, 0, 0, 0] + middle
      + Zeros(if version == 0 then PADS_SIZE else DIGEST_SIZE + ECDSA_SIZE)
  }

  /** A header is accepted exactly if its checksum is that of those bytes. */
  lemma AcceptsIs(magic: seq<byte>, version: bv32, length: seq<byte>, crc: bv32, middle: seq<byte>,
      signature: seq<byte>)
    requires |magic| == 4 && |length| == 8 && |middle| == MIDDLE_SIZE && |signature| == DIGEST_SIZE + ECDSA_SIZE
    ensures Accepts(Encode(magic, version, length, crc, middle, signature)) <==>
      crc == Crc(0, Summed(magic, version, length, middle))
  {
    var h := Encode(magic, version, length, crc, middle, signature);
    var v, c := Crc32Burst.Unpack(version), Crc32Burst.Unpack(crc);
    Crc32Burst.PackUnpack(version);
    Crc32Burst.PackUnpack(crc);
    hide Crc32Burst.Unpack, Crc32Burst.PackBytes, Crc;
    assert h[4..8] == v && h[16..20] == c;
    assert CrcLength(h) == |Summed(magic, version, length, middle)|;
    assert Shadow(h)[..CrcLength(h)] == Summed(magic, version, length, middle);
  }

  // ---------------------------------------------------------------- what the check detects

  /** Take an accepted header and change it inside four consecutive bytes, leaving the version and
      the stored checksum alone: it is still accepted exactly when only signature bytes changed. */
  lemma WindowChange(a: Header, b: Header, p: nat)
    requires Accepts(a)
    requires forall i :: 0 <= i < HEADER_SIZE && a[i] != b[i] ==> p <= i < p + 4 && !IsVersionField(i) && !IsCrcField(i)
    ensures Accepts(b) <==> forall i :: 0 <= i < HEADER_SIZE && a[i] != b[i] ==> IsSignature(i)
  {
    assert a[VERSION_OFFSET..VERSION_OFFSET + 4] == b[VERSION_OFFSET..VERSION_OFFSET + 4];
    assert a[CRC_OFFSET..CRC_OFFSET + 4] == b[CRC_OFFSET..CRC_OFFSET + 4];
    var n := CrcLength(a);
    var s, t := Shadow(a)[..n], Shadow(b)[..n];
    if i :| 0 <= i < HEADER_SIZE && a[i] != b[i] && !IsSignature(i) {
      assert s[i] != t[i];
      Crc32Burst.BurstDetected(0, s, t, p);
    } else {
      assert s == t;
    }
  }
}
