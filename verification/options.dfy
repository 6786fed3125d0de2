/**
 From the command's options and the disk's geometry to a checked parameter block (lines 265-455).
 Line numbers are those of mkfs_msdos.c.
 */
module OptionChecks {
  import opened Machine
  import opened Fat
  import opened Wrappers
  import opened Sector

  /** struct msdos_options, in its own widths; the fields that only name files are left out. */
  datatype Options = Options(
    offset: nat,
    align: bool,
    bootstrap: Option<nat>,
    fatType: U8,
    volumeId: Option<U32>,
    volumeLabel: Option<Bytes>,
    oem: Option<Bytes>,
    bytesPerSector: U16,
    sectorsPerFat: U32,
    blockSize: U32,
    sectorsPerCluster: U8,
    directoryEntries: U16,
    floppy: Option<nat>,
    heads: U16,
    infoSector: U16,
    backupSector: U16,
    media: Option<U8>,
    fats: U8,
    hiddenSectors: Option<U32>,
    reservedSectors: U16,
    size: U32,
    sectorsPerTrack: U16)

  /** What probing the device reports. */
  datatype Geometry = Geometry(secSize: U32, sectorsPerTrack: U32, heads: U32, total: U32, hidden: U32)

  /** What the option checks hand on; a FAT type of 0 is still to be chosen. */
  datatype Params = Params(bpb: Bpb, fat: nat, bss: nat)

  /** The standard floppy formats, by their size in KB. */
  function StandardFormat(kb: nat): Option<Bpb> {
    if kb == 160 then Some(Floppy(512, 1, 64, 320, 0xfe, 1, 8, 1))
    else if kb == 180 then Some(Floppy(512, 1, 64, 360, 0xfc, 2, 9, 1))
    else if kb == 320 then Some(Floppy(512, 2, 112, 640, 0xff, 1, 8, 2))
    else if kb == 360 then Some(Floppy(512, 2, 112, 720, 0xfd, 2, 9, 2))
    else if kb == 640 then Some(Floppy(512, 2, 112, 1280, 0xfb, 2, 8, 2))
    else if kb == 720 then Some(Floppy(512, 2, 112, 1440, 0xf9, 3, 9, 2))
    else if kb == 1200 then Some(Floppy(512, 1, 224, 2400, 0xf9, 7, 15, 2))
    else if kb == 1232 then Some(Floppy(1024, 1, 192, 1232, 0xfe, 2, 8, 2))
    else if kb == 1440 then Some(Floppy(512, 1, 224, 2880, 0xf0, 9, 18, 2))
    else if kb == 2880 then Some(Floppy(512, 2, 240, 5760, 0xf0, 9, 36, 2))
    else None
  }

  /** One reserved sector and two FATs, with the totals moved to the 32-bit fields (lines 319-322). */
  function Floppy(bps: nat, spc: nat, rde: nat, total: nat, media: nat, spf: nat, spt: nat, heads: nat): Bpb {
    ZERO_BPB.(bytesPerSec := bps, secPerClust := spc, resSectors := 1, fats := 2, rootDirEnts := rde,
              hugeSectors := total, media := media, bigFatSecs := spf, secPerTrack := spt, heads := heads)
  }

  function Pick(given: nat, default: nat): nat {
    if given != 0 then given else default
  }

  /** The characters and lengths a volume label may have (oklabel). */
  predicate OkLabel(s: Bytes) {
    && 1 <= |s| <= 11
    && s[0] > SPACE
    && forall i :: 0 <= i < |s| ==> s[i] >= SPACE && s[i] !in FORBIDDEN
  }

  const FORBIDDEN: Bytes := [
    0x22, 0x2a, 0x2b, 0x2c, 0x2e, 0x2f, 0x3a, 0x3b, 0x3c, 0x3d, 0x3e, 0x3f, 0x5b, 0x5c, 0x5d, 0x7c
  ]

  predicate FullGeometryGiven(o: Options) {
    o.floppy.Some? ||
    (o.heads != 0 && o.sectorsPerTrack != 0 && o.bytesPerSector != 0 && o.size != 0 && o.hiddenSectors.Some?)
  }

  /** Nothing is asked for; a floppy format and an offset may still be given. */
  predicate NothingAsked(o: Options) {
    && !o.align && o.bootstrap.None? && o.volumeLabel.None? && o.oem.None? && o.media.None? && o.hiddenSectors.None?
    && o.fatType == 0 && o.bytesPerSector == 0 && o.sectorsPerFat == 0 && o.blockSize == 0 && o.sectorsPerCluster == 0
    && o.directoryEntries == 0 && o.heads == 0 && o.infoSector == 0 && o.backupSector == 0 && o.fats == 0
    && o.reservedSectors == 0 && o.size == 0 && o.sectorsPerTrack == 0
  }

  /** Lines 315-333: a standard format, overridden by the geometry options. */
  function StartingBlock(o: Options): Result<Bpb, Error> {
    if o.floppy.Some? && StandardFormat(o.floppy.value).None? then Err(UnknownFloppy)
    else
      var b := if o.floppy.Some? then StandardFormat(o.floppy.value).value else ZERO_BPB;
      Ok(b.(heads := Pick(o.heads, b.heads),
            secPerTrack := Pick(o.sectorsPerTrack, b.secPerTrack),
            bytesPerSec := Pick(o.bytesPerSector, b.bytesPerSec),
            hugeSectors := Pick(o.size, b.hugeSectors),
            hiddenSecs := if o.hiddenSectors.Some? then o.hiddenSectors.value else b.hiddenSecs))
  }

  /** ckgeom: a value the device reports must be a non-zero 16-bit quantity. */
  predicate OkGeometry(val: nat) {
    1 <= val <= MAXU16
  }

  /** Lines 334-351: the device fills in what was not given, and its size suggests a cluster size. */
  function Probed(o: Options, g: Geometry, b: Bpb): Result<Bpb, Error> {
    if FullGeometryGiven(o) then Ok(b)
    else if (b.bytesPerSec == 0 && !OkGeometry(g.secSize)) || (b.secPerTrack == 0 && !OkGeometry(g.sectorsPerTrack))
            || (b.heads == 0 && !OkGeometry(g.heads)) then Err(BadGeometry)
    else
      var bps := Pick(b.bytesPerSec, g.secSize);
      var huge := Wrap32(Pick(b.hugeSectors, g.total) - o.offset / bps);
      Ok(b.(bytesPerSec := bps,
            secPerTrack := Pick(b.secPerTrack, g.sectorsPerTrack),
            heads := Pick(b.heads, g.heads),
            hiddenSecs := Pick(b.hiddenSecs, g.hidden),
            hugeSectors := huge,
            secPerClust := Pick(b.secPerClust, SuggestedCluster(huge))))
  }

  function SuggestedCluster(huge: nat): (spc: nat)
    ensures IsSpc(spc)
  {
    if huge <= 6000 then 1
    else if huge <= 0x2_0000 then 8
    else if huge <= 0x8_0000 then 16
    else if huge <= 0x20_0000 then 32
    else 64
  }

  /** Lines 364-380: the FAT type asked for, or 0. */
  function RequestedFat(o: Options): Result<nat, Error> {
    var fat := if o.fatType != 0 then o.fatType as int
               else if o.floppy.Some? then 12
               else if o.directoryEntries == 0 && (o.infoSector != 0 || o.backupSector != 0) then 32
               else 0;
    if (fat == 32 && o.directoryEntries != 0) || (fat != 32 && (o.infoSector != 0 || o.backupSector != 0)) then
      Err(IllegalFatOption)
    else if fat != 0 && !IsFat(fat) then Err(BadFatType)
    else Ok(fat)
  }

  /** Lines 383-407: the cluster size asked for, in sectors, or the one there was. */
  function RequestedCluster(o: Options, b: Bpb): Result<nat, Error>
    requires b.bytesPerSec > 0
  {
    if o.blockSize != 0 &&
       (!PowerOf2(o.blockSize) || o.blockSize < b.bytesPerSec || o.blockSize > b.bytesPerSec * MAXSPC) then
      Err(BadBlockSize)
    else if o.sectorsPerCluster != 0 && !PowerOf2(o.sectorsPerCluster) then Err(BadClusterSize)
    else if o.sectorsPerCluster != 0 then Ok(o.sectorsPerCluster)
    else if o.blockSize != 0 then Ok(o.blockSize / b.bytesPerSec)
    else Ok(b.secPerClust)
  }

  /** Lines 433-453: sectors in front of the info sector, from the size of the bootstrap file. */
  function BootSectors(o: Options, bps: nat): Result<nat, Error>
    requires bps > 0
  {
    if o.bootstrap.None? then Ok(1)
    else if o.bootstrap.value % bps != 0 || o.bootstrap.value < bps || o.bootstrap.value > bps * MAXU16 then
      Err(BadBootstrap)
    else Ok(o.bootstrap.value / bps)
  }

  /** Lines 408-432: everything asked for, merged into the block. */
  function Merged(o: Options, b: Bpb, fat: nat, spc: nat): Bpb {
    b.(secPerClust := spc,
       resSectors := Pick(o.reservedSectors, b.resSectors),
       fats := Pick(Pick(o.fats, b.fats), 2),
       rootDirEnts := Pick(o.directoryEntries, if o.floppy.Some? && fat == 32 then 0 else b.rootDirEnts),
       media := if o.media.Some? then o.media.value else b.media,
       bigFatSecs := Pick(o.sectorsPerFat, b.bigFatSecs),
       fsInfo := o.infoSector,
       backup := o.backupSector)
  }

  /** Lines 352-455: the checks that follow the geometry. */
  function Checked(o: Options, b: Bpb): Result<Params, Error> {
    if b.bytesPerSec < MINBPS || b.bytesPerSec > MAXBPS || !PowerOf2(b.bytesPerSec) then Err(BadSectorSize)
    else if o.volumeLabel.Some? && !OkLabel(o.volumeLabel.value) then Err(BadLabel)
    else
      var fat :- RequestedFat(o);
      var spc :- RequestedCluster(o, b);
      if o.fats > MAXNFT then Err(TooManyFats)
      else if o.media.Some? && o.media.value < 0xf0 then Err(BadMedia)
      else
        var bss :- BootSectors(o, b.bytesPerSec);
        Ok(Params(Merged(o, b, fat, spc), fat, bss))
  }

  /** Lines 265-455. */
  function Configure(o: Options, g: Geometry): Result<Params, Error> {
    if o.blockSize != 0 && o.sectorsPerCluster != 0 then Err(BothBlockAndCluster)
    else if o.oem.Some? && |o.oem.value| > 8 then Err(BadOem)
    else
      var start :- StartingBlock(o);
      var b :- Probed(o, g, start);
      Checked(o, b)
  }

  /** What the layout relies on. */
  predicate ValidParams(p: Params) {
    && ValidBpb(p.bpb)
    && (p.fat == 0 || IsFat(p.fat))
    && 1 <= p.bss <= MAXU16
    && (p.fat == 32 ==> p.bpb.rootDirEnts == 0)
    && (p.fat != 32 ==> p.bpb.fsInfo == p.bpb.backup == 0)
  }

  lemma {:induction false} SmallPower(x: nat)
    requires 1 <= x <= MAXSPC && PowerOf2(x)
    ensures IsSpc(x)
  {
    if x > 1 {
      SmallPower(x / 2);
    }
  }

  lemma SectorSizes(bps: nat)
    requires MINBPS <= bps <= MAXBPS && PowerOf2(bps)
    ensures IsBps(bps)
  {
    assert PowerOf2(512);
    PowerOf2Divides(512, bps);
    SmallPower(bps / 512);
  }

  lemma ClusterSizes(o: Options, b: Bpb, spc: nat)
    requires IsBps(b.bytesPerSec) && (b.secPerClust == 0 || IsSpc(b.secPerClust))
    requires RequestedCluster(o, b) == Ok(spc)
    ensures spc == 0 || IsSpc(spc)
  {
    if o.sectorsPerCluster != 0 {
      SmallPowerByte(o.sectorsPerCluster);
    } else if o.blockSize != 0 {
      assert PowerOf2(512) && PowerOf2(1024) && PowerOf2(2048) && PowerOf2(4096);
      PowerOf2Divides(b.bytesPerSec, o.blockSize);
      DivAtLeast(o.blockSize, b.bytesPerSec, 1);
      SmallPower(o.blockSize / b.bytesPerSec);
    }
  }

  /** A power of two in a byte is at most 128. */
  lemma SmallPowerByte(x: nat)
    requires 1 <= x < 0x100 && PowerOf2(x)
    ensures IsSpc(x)
  {
    if x > 1 {
      SmallPower(x / 2);
    }
  }

  lemma BootSectorsBound(o: Options, bps: nat, bss: nat)
    requires bps > 0 && BootSectors(o, bps) == Ok(bss)
    ensures 1 <= bss <= MAXU16
  {
    if o.bootstrap.Some? {
      DivAtLeast(o.bootstrap.value, bps, 1);
      DivBelow(o.bootstrap.value, bps, MAXU16 + 1);
    }
  }

  /** The ranges a parameter block keeps while the options are merged into it. */
  predicate Partial(b: Bpb) {
    && (b.secPerClust == 0 || IsSpc(b.secPerClust))
    && b.resSectors <= MAXU16 && b.fats <= MAXNFT && b.rootDirEnts <= MAXU16
    && (b.media == 0 || 0xf0 <= b.media <= 0xff)
    && b.secPerTrack <= MAXU16 && b.heads <= MAXU16
    && b.hiddenSecs < TWO32 && b.hugeSectors < TWO32 && b.bigFatSecs < TWO32
    && b.sectors == b.fatSecs == b.rootClust == 0
  }

  lemma StartingBlockPartial(o: Options, b: Bpb)
    requires StartingBlock(o) == Ok(b)
    ensures Partial(b)
    ensures o.floppy.None? ==> b.rootDirEnts == 0
  {
  }

  lemma ProbedPartial(o: Options, g: Geometry, b: Bpb, c: Bpb)
    requires Partial(b) && Probed(o, g, b) == Ok(c)
    ensures Partial(c) && c.rootDirEnts == b.rootDirEnts
  {
  }

  lemma CheckedIsValid(o: Options, b: Bpb, p: Params)
    requires Partial(b) && (o.floppy.None? ==> b.rootDirEnts == 0)
    requires Checked(o, b) == Ok(p)
    ensures ValidParams(p)
  {
    SectorSizes(p.bpb.bytesPerSec);
    ClusterSizes(o, b, p.bpb.secPerClust);
    BootSectorsBound(o, p.bpb.bytesPerSec, p.bss);
  }

  /** Every combination of options and geometry that passes the checks is one the layout is defined for. */
  lemma ConfigureIsValid(o: Options, g: Geometry, p: Params)
    requires Configure(o, g) == Ok(p)
    ensures ValidParams(p)
  {
    var a := StartingBlock(o).value;
    var b := Probed(o, g, a).value;
    StartingBlockPartial(o, a);
    ProbedPartial(o, g, a, b);
    CheckedIsValid(o, b, p);
  }

  lemma GeometryIsHonoured(o: Options, g: Geometry, a: Bpb, b: Bpb)
    requires StartingBlock(o) == Ok(a) && Probed(o, g, a) == Ok(b)
    ensures o.bytesPerSector != 0 ==> b.bytesPerSec == o.bytesPerSector
    ensures o.heads != 0 ==> b.heads == o.heads
    ensures o.sectorsPerTrack != 0 ==> b.secPerTrack == o.sectorsPerTrack
    ensures o.hiddenSectors.Some? && o.hiddenSectors.value != 0 ==> b.hiddenSecs == o.hiddenSectors.value
    ensures o.size != 0 && FullGeometryGiven(o) ==> b.hugeSectors == o.size
  {
  }

  lemma RequestsAreHonoured(o: Options, b: Bpb, p: Params)
    requires Checked(o, b) == Ok(p)
    ensures o.fatType != 0 ==> p.fat == o.fatType
    ensures o.reservedSectors != 0 ==> p.bpb.resSectors == o.reservedSectors
    ensures o.fats != 0 ==> p.bpb.fats == o.fats
    ensures o.directoryEntries != 0 ==> p.bpb.rootDirEnts == o.directoryEntries
    ensures o.sectorsPerCluster != 0 ==> p.bpb.secPerClust == o.sectorsPerCluster
    ensures o.sectorsPerCluster == 0 && o.blockSize != 0 ==> p.bpb.secPerClust * p.bpb.bytesPerSec == o.blockSize
    ensures o.sectorsPerFat != 0 ==> p.bpb.bigFatSecs == o.sectorsPerFat
    ensures p.bpb.fsInfo == o.infoSector && p.bpb.backup == o.backupSector
    ensures o.media.Some? ==> p.bpb.media == o.media.value
    ensures p.bpb.bytesPerSec == b.bytesPerSec && p.bpb.heads == b.heads && p.bpb.secPerTrack == b.secPerTrack
    ensures p.bpb.hugeSectors == b.hugeSectors && p.bpb.hiddenSecs == b.hiddenSecs
  {
    SectorSizes(p.bpb.bytesPerSec);
    if o.blockSize != 0 {
      assert PowerOf2(512) && PowerOf2(1024) && PowerOf2(2048) && PowerOf2(4096);
      PowerOf2Divides(p.bpb.bytesPerSec, o.blockSize);
    }
  }

  lemma PlainBlock(o: Options, g: Geometry, a: Bpb, b: Bpb)
    requires o.floppy.None? && StartingBlock(o) == Ok(a) && Probed(o, g, a) == Ok(b)
    ensures b.bigFatSecs == b.resSectors == 0
  {
  }

  lemma PlainChecks(o: Options, b: Bpb, p: Params)
    requires Checked(o, b) == Ok(p)
    ensures o.sectorsPerFat == 0 ==> p.bpb.bigFatSecs == b.bigFatSecs
    ensures o.reservedSectors == 0 ==> p.bpb.resSectors == b.resSectors
    ensures o.bootstrap.None? ==> p.bss == 1
  {
  }

  /** What is not asked for is left open, unless a floppy format settles it. */
  lemma DefaultsAreOpen(o: Options, g: Geometry, p: Params)
    requires o.floppy.None? && Configure(o, g) == Ok(p)
    ensures o.sectorsPerFat == 0 ==> p.bpb.bigFatSecs == 0
    ensures o.reservedSectors == 0 ==> p.bpb.resSectors == 0
    ensures o.bootstrap.None? ==> p.bss == 1
  {
    var a := StartingBlock(o).value;
    var b := Probed(o, g, a).value;
    PlainBlock(o, g, a, b);
    PlainChecks(o, b, p);
  }

  /** Of all that can be asked for, what the layout is given is what was asked for. */
  lemma OptionsAreHonoured(o: Options, g: Geometry, p: Params)
    requires Configure(o, g) == Ok(p)
    ensures o.fatType != 0 ==> p.fat == o.fatType
    ensures o.reservedSectors != 0 ==> p.bpb.resSectors == o.reservedSectors
    ensures o.fats != 0 ==> p.bpb.fats == o.fats
    ensures o.directoryEntries != 0 ==> p.bpb.rootDirEnts == o.directoryEntries
    ensures o.sectorsPerCluster != 0 ==> p.bpb.secPerClust == o.sectorsPerCluster
    ensures o.blockSize != 0 ==> p.bpb.secPerClust * p.bpb.bytesPerSec == o.blockSize
    ensures o.sectorsPerFat != 0 ==> p.bpb.bigFatSecs == o.sectorsPerFat
    ensures p.bpb.fsInfo == o.infoSector && p.bpb.backup == o.backupSector
    ensures o.media.Some? ==> p.bpb.media == o.media.value
    ensures o.bytesPerSector != 0 ==> p.bpb.bytesPerSec == o.bytesPerSector
    ensures o.heads != 0 ==> p.bpb.heads == o.heads
    ensures o.sectorsPerTrack != 0 ==> p.bpb.secPerTrack == o.sectorsPerTrack
    ensures o.hiddenSectors.Some? && o.hiddenSectors.value != 0 ==> p.bpb.hiddenSecs == o.hiddenSectors.value
    ensures o.size != 0 && FullGeometryGiven(o) ==> p.bpb.hugeSectors == o.size
  {
    var a := StartingBlock(o).value;
    var b := Probed(o, g, a).value;
    GeometryIsHonoured(o, g, a, b);
    RequestsAreHonoured(o, b, p);
  }

  lemma SpcIsPower(spc: nat)
    requires IsSpc(spc)
    ensures PowerOf2(spc)
  {
    assert PowerOf2(1) && PowerOf2(2) && PowerOf2(4) && PowerOf2(8);
    assert PowerOf2(16) && PowerOf2(32) && PowerOf2(64) && PowerOf2(128);
  }

  lemma BpsIsPower(bps: nat)
    requires IsBps(bps)
    ensures PowerOf2(bps)
  {
    assert PowerOf2(512) && PowerOf2(1024) && PowerOf2(2048) && PowerOf2(4096);
  }

  /** The checks let requests pass that are in order one by one. */
  lemma ChecksFrom(o: Options, b: Bpb, fat: nat, spc: nat, bss: nat)
    requires (o.volumeLabel.Some? ==> OkLabel(o.volumeLabel.value)) && (o.media.Some? ==> o.media.value >= 0xf0)
    requires MINBPS <= b.bytesPerSec <= MAXBPS && PowerOf2(b.bytesPerSec) && o.fats <= MAXNFT
    requires RequestedFat(o) == Ok(fat) && RequestedCluster(o, b) == Ok(spc) && BootSectors(o, b.bytesPerSec) == Ok(bss)
    ensures Checked(o, b) == Ok(Params(Merged(o, b, fat, spc), fat, bss))
  {
  }

  lemma ChecksAgain(o: Options, s: Bpb, fat: nat, spc: nat, bss: nat, b: Bpb)
    requires (o.volumeLabel.Some? ==> OkLabel(o.volumeLabel.value)) && o.fats <= MAXNFT
    requires (o.media.Some? ==> o.media.value >= 0xf0) && IsBps(s.bytesPerSec)
    requires RequestedFat(o) == Ok(fat) && RequestedCluster(o, s) == Ok(spc)
    requires BootSectors(o, s.bytesPerSec) == Ok(bss) && Merged(o, s, fat, spc) == b
    ensures Checked(o, s) == Ok(Params(b, fat, bss))
  {
    BpsIsPower(s.bytesPerSec);
    ChecksFrom(o, s, fat, spc, bss);
  }

  lemma ConfiguredFrom(o: Options, g: Geometry, a: Bpb, b: Bpb, p: Params)
    requires o.blockSize == 0 && (o.oem.Some? ==> |o.oem.value| <= 8)
    requires StartingBlock(o) == Ok(a) && Probed(o, g, a) == Ok(b) && Checked(o, b) == Ok(p)
    ensures Configure(o, g) == Ok(p)
  {
  }
}
