/**
 A FAT driver's view of a volume: what sections 3.1 to 3.5, 4.1, 4.2 and 6.1 of the Microsoft
 FAT Specification (August 2005) derive from the bytes on the disk, and from nothing else.
 */
module Reader {
  import opened Machine
  import opened Fat

  /** FATSz */
  function FatSize(b: Bpb): nat {
    if b.fatSecs != 0 then b.fatSecs else b.bigFatSecs
  }

  /** TotSec */
  function Total(b: Bpb): nat {
    if b.sectors != 0 then b.sectors else b.hugeSectors
  }

  /** RootDirSectors */
  function RootDirSectors(b: Bpb): nat
    requires b.bytesPerSec > 0
  {
    (b.rootDirEnts * 32 + (b.bytesPerSec - 1)) / b.bytesPerSec
  }

  /** FirstDataSector: where cluster 2 begins. */
  function FirstData(b: Bpb): nat
    requires b.bytesPerSec > 0
  {
    b.resSectors + b.fats * FatSize(b) + RootDirSectors(b)
  }

  /** CountofClusters */
  function Clusters(b: Bpb): int
    requires b.bytesPerSec > 0 && b.secPerClust > 0
  {
    (Total(b) - FirstData(b)) / b.secPerClust
  }

  /** The FAT type is decided by the cluster count and by nothing else (section 3.5). */
  function FatType(b: Bpb): nat
    requires b.bytesPerSec > 0 && b.secPerClust > 0
  {
    if Clusters(b) < 4085 then 12 else if Clusters(b) < 65525 then 16 else 32
  }

  /** First sector of a data cluster. */
  function ClusterSector(b: Bpb, n: nat): nat
    requires b.bytesPerSec > 0 && n >= 2
  {
    FirstData(b) + (n - 2) * b.secPerClust
  }

  function Read2(s: Bytes, o: nat): nat
    requires o + 2 <= |s|
  {
    s[o] as int + 0x100 * s[o + 1] as int
  }

  function Read4(s: Bytes, o: nat): nat
    requires o + 4 <= |s|
  {
    Read2(s, o) + 0x1_0000 * Read2(s, o + 2)
  }

  /** The fields of a boot sector at their standard offsets; FAT32's are read when the 16-bit FAT size is zero. */
  function Parse(s: Bytes): Bpb
    requires |s| >= 512
  {
    var fatSecs := Read2(s, 22);
    Bpb(Read2(s, 11), s[13], Read2(s, 14), s[16], Read2(s, 17), Read2(s, 19), s[21], fatSecs,
        Read2(s, 24), Read2(s, 26), Read4(s, 28), Read4(s, 32),
        if fatSecs == 0 then Read4(s, 36) else 0,
        if fatSecs == 0 then Read4(s, 44) else 0,
        if fatSecs == 0 then Read2(s, 48) else 0,
        if fatSecs == 0 then Read2(s, 50) else 0)
  }

  /** The FAT entry of cluster n (sections 4.1 and 4.2): 12, 16 or 28 bits. */
  function Entry(fat: nat, table: Bytes, n: nat): nat
    requires IsFat(fat) && (n + 1) * (fat / BPN) <= |table| * NPB
  {
    if fat == 12 then
      var w := Read2(table, n + n / 2);
      if n % 2 == 1 then w / 0x10 else w % 0x1000
    else if fat == 16 then Read2(table, n * 2)
    else Read4(table, n * 4) % 0x1000_0000
  }

  /** The text in a field that is filled up with spaces. */
  function Text(field: Bytes): Bytes {
    if field != [] && field[|field| - 1] == 0x20 then Text(field[..|field| - 1]) else field
  }

  /** The text of a directory name, where 5 in front stands for the byte 0xe5 (section 6.1). */
  function NameText(field: Bytes): Bytes {
    if field != [] && field[0] == 0x05 then Text([0xe5] + field[1..]) else Text(field)
  }

  /** Year, month and day of a directory date, and hour, minute and second of a directory time. */
  function Date(x: nat): (nat, nat, nat) {
    (1980 + x / 0x200, x / 0x20 % 0x10, x % 0x20)
  }

  function Time(x: nat): (nat, nat, nat) {
    (x / 0x800, x / 0x20 % 0x40, x % 0x20 * 2)
  }

  /** A byte that a short name may hold (section 6.1). */
  predicate LegalInName(c: U8) {
    c >= 0x20 && c !in Chars("\"*+,./:;<=>?[\\]|")
  }

  /** ASCII text as bytes. */
  function Chars(s: string): Bytes {
    seq(|s|, i requires 0 <= i < |s| => if s[i] as int < 0x80 then s[i] as int else 0)
  }

  /** The bytes of sector lsn of an image. */
  function SectorAt(img: Bytes, bps: nat, lsn: nat): (s: Bytes)
    requires (lsn + 1) * bps <= |img|
    ensures |s| == bps
  {
    assert (lsn + 1) * bps == lsn * bps + bps;
    img[lsn * bps..lsn * bps + bps]
  }

  /** The image reaches past its last FAT. */
  predicate HoldsFats(img: Bytes, b: Bpb) {
    (b.resSectors + b.fats * FatSize(b)) * b.bytesPerSec <= |img|
  }

  /** First sector of the i-th FAT. */
  function FatSector(b: Bpb, i: nat): nat {
    b.resSectors + i * FatSize(b)
  }

  /** The i-th copy of the FAT. */
  function FatCopy(img: Bytes, b: Bpb, i: nat): (s: Bytes)
    requires i < b.fats && HoldsFats(img, b)
    ensures |s| == FatSize(b) * b.bytesPerSec
  {
    FatCopyInside(img, b, i);
    var at := FatSector(b, i) * b.bytesPerSec;
    img[at..at + FatSize(b) * b.bytesPerSec]
  }

  lemma FatCopyInside(img: Bytes, b: Bpb, i: nat)
    requires i < b.fats && HoldsFats(img, b)
    ensures FatSector(b, i) + FatSize(b) <= b.resSectors + b.fats * FatSize(b)
    ensures FatSector(b, i) * b.bytesPerSec + FatSize(b) * b.bytesPerSec <= |img|
  {
    MulMono(i + 1, b.fats, FatSize(b));
    MulMono(FatSector(b, i) + FatSize(b), b.resSectors + b.fats * FatSize(b), b.bytesPerSec);
  }
}
