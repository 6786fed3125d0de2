/**
 What each sector of a fresh volume holds.
 Line numbers are those of mkfs_msdos.c.
 */
module Sector {
  import opened Machine
  import opened Fat
  import opened Wrappers
  import Reader

  /** The bytes of an integer, least significant first. */
  function Byte0(x: nat): U8 { x % 0x100 }
  function Byte1(x: nat): U8 { x / 0x100 % 0x100 }
  function Byte2(x: nat): U8 { Byte0(x / 0x1_0000) }
  function Byte3(x: nat): U8 { Byte1(x / 0x1_0000) }

  function Le2(x: nat): Bytes {
    [Byte0(x), Byte1(x)]
  }

  function Le4(x: nat): Bytes {
    [Byte0(x), Byte1(x), Byte2(x), Byte3(x)]
  }

  function Zeros(n: nat): (s: Bytes)
    ensures |s| == n && forall i :: 0 <= i < n ==> s[i] == 0
  {
    seq(n, i => 0)
  }

  const SPACE: U8 := 0x20
  const VOLUME_ATTRIBUTE: U8 := 0x28

  /** Copy a string into a field of n bytes, padding with spaces (setstr). */
  function Padded(s: Bytes, n: nat): (r: Bytes)
    ensures |r| == n
  {
    seq(n, i requires 0 <= i => if i < |s| then s[i] else SPACE)
  }

  function Upper(c: U8): U8 {
    if 0x61 <= c <= 0x7a then c - 0x20 else c
  }

  /** A volume label as a directory name (mklabel): upper case, and a leading 0xe5 becomes 5. */
  function LabelBytes(s: Bytes): (r: Bytes)
    ensures |r| == 11
  {
    seq(11, i requires 0 <= i =>
      var c := if i < |s| then Upper(s[i]) else SPACE;
      if i == 0 && c == 0xe5 then 5 else c)
  }

  const NO_NAME: Bytes := [0x4e, 0x4f, 0x20, 0x4e, 0x41, 0x4d, 0x45]
  const DEFAULT_OEM: Bytes := [0x42, 0x53, 0x44, 0x34, 0x2e, 0x34, 0x20, 0x20]
  /** The boot code: it prints the message that follows it, waits for a key, and starts the disk again. */
  const LOADER: Bytes := [
    0xfa, 0x31, 0xc0, 0x8e, 0xd0, 0xbc, 0x00, 0x7c, 0xfb, 0x8e, 0xd8, 0xe8, 0x00, 0x00, 0x5e, 0x83,
    0xc6, 0x19, 0xbb, 0x07, 0x00, 0xfc, 0xac, 0x84, 0xc0, 0x74, 0x06, 0xb4, 0x0e, 0xcd, 0x10, 0xeb,
    0xf5, 0x30, 0xe4, 0xcd, 0x16, 0xcd, 0x19
  ]
  const MESSAGE: Bytes := Reader.Chars("\r\nNon-system disk\r\nPress any key to reboot\r\n\0")
  const BOOTCODE: Bytes := LOADER + MESSAGE

  /** A volume about to be written; `bpb` is sealed. */
  datatype Volume = Volume(
    bpb: Bpb,
    fat: nat,
    rootSectors: nat,
    id: U32,
    volumeLabel: Option<Bytes>,
    oem: Option<Bytes>,
    time: U16,
    date: U16)
  {
    /** Where the root directory (on FAT32, its cluster) starts: the source's `dir`. */
    function Dir(): nat {
      bpb.resSectors + bpb.fats * Reader.FatSize(bpb)
    }

    /** Number of sectors that are written. */
    function Sectors(): nat {
      Dir() + (if fat == 32 then bpb.secPerClust else rootSectors)
    }

    /**
     Every field but the reserved sectors, which alignment can push past 16 bits, fits its place
     on the disk; the fields of the other FAT types are zero.
     */
    predicate Valid() {
      && IsBps(bpb.bytesPerSec)
      && IsFat(fat)
      && IsSpc(bpb.secPerClust)
      && 1 <= bpb.resSectors
      && 1 <= bpb.fats <= MAXNFT
      && bpb.rootDirEnts <= MAXU16
      && rootSectors == HowMany(bpb.rootDirEnts, bpb.bytesPerSec / DIRENT)
      && bpb.sectors <= MAXU16
      && 0xf0 <= bpb.media <= 0xff
      && bpb.fatSecs <= MAXU16
      && bpb.secPerTrack <= MAXU16
      && bpb.heads <= MAXU16
      && bpb.hiddenSecs < TWO32
      && bpb.hugeSectors < TWO32
      && bpb.bigFatSecs < TWO32
      && 1 <= Reader.FatSize(bpb)
      && (if fat == 32 then
            && bpb.fatSecs == 0 && bpb.rootDirEnts == 0 && bpb.rootClust == RESFTE
            && 1 <= bpb.fsInfo <= MAXU16 && 1 <= bpb.backup <= MAXU16
            && (bpb.fsInfo != MAXU16 ==> bpb.fsInfo < bpb.resSectors && bpb.fsInfo != bpb.backup)
            && (bpb.backup != MAXU16 ==> bpb.backup < bpb.resSectors)
          else
            bpb.fatSecs != 0 && bpb.bigFatSecs == bpb.rootClust == bpb.fsInfo == bpb.backup == 0)
    }
  }

  /** struct bsbpb */
  function BpbBytes(b: Bpb): (s: Bytes)
    ensures |s| == 25
  {
    SizeBytes(b) + DriveBytes(b)
  }

  /** Its fields up to the media byte ... */
  function SizeBytes(b: Bpb): (s: Bytes)
    ensures |s| == 11
  {
    Le2(b.bytesPerSec) + [Byte0(b.secPerClust)] + Le2(b.resSectors) + [Byte0(b.fats)]
    + Le2(b.rootDirEnts) + Le2(b.sectors) + [Byte0(b.media)]
  }

  /** ... and from the FAT size on. */
  function DriveBytes(b: Bpb): (s: Bytes)
    ensures |s| == 14
  {
    Le2(b.fatSecs) + Le2(b.secPerTrack) + Le2(b.heads) + Le4(b.hiddenSecs) + Le4(b.hugeSectors)
  }

  /** struct bsxbpb, on FAT32 only */
  function BigBpbBytes(b: Bpb): (s: Bytes)
    ensures |s| == 28
  {
    Le4(b.bigFatSecs) + Le2(0) + Le2(0) + Le4(b.rootClust) + Le2(b.fsInfo) + Le2(b.backup) + Zeros(12)
  }

  /** struct bsx: drive number, signature and volume id, then the names. */
  function ExtendedBytes(v: Volume): (s: Bytes)
    ensures |s| == 26
  {
    [0, 0] + IdBytes(v) + NameBytes(v)
  }

  function IdBytes(v: Volume): (s: Bytes)
    ensures |s| == 5
  {
    [Byte0(0x29)] + Le4(v.id)
  }

  function NameBytes(v: Volume): (s: Bytes)
    ensures |s| == 19
  {
    LabelBytes(if v.volumeLabel.Some? then v.volumeLabel.value else NO_NAME) + TypeName(v.fat)
  }

  /** "FAT12", "FAT16" or "FAT32" in a field of eight. */
  function TypeName(fat: nat): (s: Bytes)
    ensures |s| == 8
  {
    Padded([0x46, 0x41, 0x54, 0x30 + fat / 10 % 10, 0x30 + fat % 10], 8)
  }

  /** Length of the headers in front of the boot code. */
  function HeaderLength(fat: nat): nat {
    if fat == 32 then 90 else 62
  }

  /** The parameter block and what follows it, up to the boot code. */
  function Parameters(v: Volume): (s: Bytes)
    ensures |s| == HeaderLength(v.fat) - 11
  {
    BpbBytes(v.bpb) + (if v.fat == 32 then BigBpbBytes(v.bpb) else []) + ExtendedBytes(v)
  }

  /** struct bs */
  function JumpBytes(v: Volume): (s: Bytes)
    ensures |s| == 11
  {
    [0xeb, HeaderLength(v.fat) - 2, 0x90] + Padded(if v.oem.Some? then v.oem.value else DEFAULT_OEM, 8)
  }

  function BootSector(v: Volume): (s: Bytes)
    requires v.Valid()
    ensures |s| == v.bpb.bytesPerSec
  {
    JumpBytes(v) + Parameters(v) + BOOTCODE + Zeros(510 - HeaderLength(v.fat) - |BOOTCODE|)
    + [0x55, 0xaa] + Zeros(v.bpb.bytesPerSec - MINBPS)
  }

  function InfoSector(bps: nat): (s: Bytes)
    requires IsBps(bps)
    ensures |s| == bps
  {
    Le4(0x41615252) + Zeros(480) + (Le4(0x61417272) + Le4(0xffff_ffff) + Le4(0xffff_ffff)) + Zeros(14)
    + [0x55, 0xaa] + Zeros(bps - MINBPS)
  }

  /** The reserved entries at the start of each FAT. */
  function FatHead(fat: nat, media: U8): (s: Bytes)
    requires IsFat(fat)
    ensures |s| == if fat == 12 then 3 else if fat == 16 then 4 else 12
  {
    seq(fat * (if fat == 32 then 3 else 2) / 8, x =>
      if x == 0 then media else if fat == 32 && x % 4 == 3 then 0x0f else 0xff)
  }

  function FatStart(v: Volume): (s: Bytes)
    requires v.Valid()
    ensures |s| == v.bpb.bytesPerSec
  {
    FatHead(v.fat, v.bpb.media) + Zeros(v.bpb.bytesPerSec - |FatHead(v.fat, v.bpb.media)|)
  }

  /** A directory sector whose only entry is the volume label. */
  function LabelSector(v: Volume): (s: Bytes)
    requires v.Valid() && v.volumeLabel.Some?
    ensures |s| == v.bpb.bytesPerSec
  {
    LabelBytes(v.volumeLabel.value) + [VOLUME_ATTRIBUTE] + Zeros(10) + (Le2(v.time) + Le2(v.date))
    + Zeros(v.bpb.bytesPerSec - 26)
  }

  predicate IsBoot(v: Volume, lsn: nat) {
    lsn == 0 || (v.fat == 32 && v.bpb.backup != MAXU16 && lsn == v.bpb.backup)
  }

  predicate IsInfo(v: Volume, lsn: nat) {
    && v.fat == 32 && v.bpb.fsInfo != MAXU16
    && (lsn == v.bpb.fsInfo || (v.bpb.backup != MAXU16 && lsn == v.bpb.backup + v.bpb.fsInfo))
  }

  predicate IsFatStart(v: Volume, lsn: nat)
    requires v.Valid()
  {
    v.bpb.resSectors <= lsn < v.Dir() && (lsn - v.bpb.resSectors) % Reader.FatSize(v.bpb) == 0
  }

  /** Lines 676-760 without a bootstrap file: the sector written at `lsn`. */
  function Contents(v: Volume, lsn: nat): (s: Bytes)
    requires v.Valid()
    ensures |s| == v.bpb.bytesPerSec
  {
    if IsBoot(v, lsn) then BootSector(v)
    else if IsInfo(v, lsn) then InfoSector(v.bpb.bytesPerSec)
    else if IsFatStart(v, lsn) then FatStart(v)
    else if lsn == v.Dir() && v.volumeLabel.Some? then LabelSector(v)
    else Zeros(v.bpb.bytesPerSec)
  }

  /** The first n sectors of the volume. */
  function Image(v: Volume, n: nat): (s: Bytes)
    requires v.Valid()
    ensures |s| == n * v.bpb.bytesPerSec
  {
    if n == 0 then [] else Image(v, n - 1) + Contents(v, n - 1)
  }
}
