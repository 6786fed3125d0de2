/**
 What the options and the device come to: which requests are legal, and where each value that was
 not asked for is taken from.
 Line numbers are those of mkfs_msdos.c.
 */
module Requests {
  import opened Machine
  import opened Fat
  import opened Wrappers
  import opened OptionChecks

  /**
   Without a full geometry the device fills in what is missing. The volume is as large as was asked
   for or as the device, less the offset, exactly if the offset does not lie behind that; beyond, the
   subtraction wraps.
   */
  lemma DeviceIsHonoured(o: Options, g: Geometry, p: Params)
    requires Configure(o, g) == Ok(p) && !FullGeometryGiven(o)
    ensures o.bytesPerSector == 0 ==> p.bpb.bytesPerSec == g.secSize
    ensures o.heads == 0 ==> p.bpb.heads == g.heads
    ensures o.sectorsPerTrack == 0 ==> p.bpb.secPerTrack == g.sectorsPerTrack
    ensures o.hiddenSectors.None? || o.hiddenSectors.value == 0 ==> p.bpb.hiddenSecs == g.hidden
    ensures p.bpb.bytesPerSec > 0
    ensures var size := if o.size != 0 then o.size else g.total;
            p.bpb.hugeSectors + o.offset / p.bpb.bytesPerSec == size <==> o.offset / p.bpb.bytesPerSec <= size
    ensures o.blockSize == o.sectorsPerCluster == 0 ==> p.bpb.secPerClust == SuggestedCluster(p.bpb.hugeSectors)
  {
    var a := StartingBlock(o).value;
    var b := Probed(o, g, a).value;
    DeviceFillsIn(o, g, a, b);
    RequestsAreHonoured(o, b, p);
    ClusterKept(o, b, p);
    SizeLeft(o, g, b);
  }

  lemma SizeLeft(o: Options, g: Geometry, b: Bpb)
    requires b.bytesPerSec > 0
    requires TakenOff(if o.size != 0 then o.size else g.total, o.offset / b.bytesPerSec, b.hugeSectors)
    ensures var size := if o.size != 0 then o.size else g.total;
            b.hugeSectors + o.offset / b.bytesPerSec == size <==> o.offset / b.bytesPerSec <= size
  {
    DifferenceExactly(if o.size != 0 then o.size else g.total, o.offset / b.bytesPerSec, b.hugeSectors);
  }

  lemma DeviceFillsIn(o: Options, g: Geometry, a: Bpb, b: Bpb)
    requires !FullGeometryGiven(o) && StartingBlock(o) == Ok(a) && Probed(o, g, a) == Ok(b)
    ensures o.bytesPerSector == 0 ==> b.bytesPerSec == g.secSize
    ensures o.heads == 0 ==> b.heads == g.heads
    ensures o.sectorsPerTrack == 0 ==> b.secPerTrack == g.sectorsPerTrack
    ensures o.hiddenSectors.None? || o.hiddenSectors.value == 0 ==> b.hiddenSecs == g.hidden
    ensures b.bytesPerSec > 0
    ensures TakenOff(if o.size != 0 then o.size else g.total, o.offset / b.bytesPerSec, b.hugeSectors)
    ensures b.secPerClust == SuggestedCluster(b.hugeSectors)
  {
  }

  /** Subtracting the offset from a size leaves this; it is the difference exactly if there is one. */
  predicate TakenOff(size: nat, offset: nat, huge: nat) {
    huge == Wrap32(size - offset)
  }

  lemma DifferenceExactly(size: nat, offset: nat, huge: nat)
    requires TakenOff(size, offset, huge) && size < TWO32
    ensures huge + offset == size <==> offset <= size
  {
  }

  /** Probing goes wrong exactly if a missing part of the geometry is zero or too large on the device. */
  lemma ProbedExactly(o: Options, g: Geometry, b: Bpb)
    ensures Probed(o, g, b).Ok? <==>
              || FullGeometryGiven(o)
              || (&& (b.bytesPerSec == 0 ==> 1 <= g.secSize <= MAXU16)
                  && (b.secPerTrack == 0 ==> 1 <= g.sectorsPerTrack <= MAXU16)
                  && (b.heads == 0 ==> 1 <= g.heads <= MAXU16))
  {
  }

  lemma ClusterKept(o: Options, b: Bpb, p: Params)
    requires Checked(o, b) == Ok(p)
    ensures o.blockSize == o.sectorsPerCluster == 0 ==> p.bpb.secPerClust == b.secPerClust
  {
  }

  /** With a full geometry the device is not looked at, the offset is not taken off, and the cluster size stays open. */
  lemma GeometryIsTaken(o: Options, g: Geometry, p: Params)
    requires Configure(o, g) == Ok(p) && FullGeometryGiven(o) && o.floppy.None?
    ensures p.bpb.bytesPerSec == o.bytesPerSector && p.bpb.heads == o.heads
    ensures p.bpb.secPerTrack == o.sectorsPerTrack && p.bpb.hiddenSecs == o.hiddenSectors.value
    ensures p.bpb.hugeSectors == o.size
    ensures o.blockSize == o.sectorsPerCluster == 0 ==> p.bpb.secPerClust == 0
  {
    var a := StartingBlock(o).value;
    RequestsAreHonoured(o, a, p);
    ClusterKept(o, a, p);
  }

  /** Of a floppy format everything is kept that is not asked for otherwise; only FAT32 has no root entries. */
  lemma FloppyIsKept(o: Options, g: Geometry, p: Params, f: Bpb)
    requires Configure(o, g) == Ok(p) && o.floppy.Some? && StandardFormat(o.floppy.value) == Some(f)
    ensures o.bytesPerSector == 0 ==> p.bpb.bytesPerSec == f.bytesPerSec
    ensures o.heads == 0 ==> p.bpb.heads == f.heads
    ensures o.sectorsPerTrack == 0 ==> p.bpb.secPerTrack == f.secPerTrack
    ensures p.bpb.hugeSectors == if o.size != 0 then o.size else f.hugeSectors
    ensures p.bpb.hiddenSecs == if o.hiddenSectors.Some? then o.hiddenSectors.value else 0
    ensures o.blockSize == o.sectorsPerCluster == 0 ==> p.bpb.secPerClust == f.secPerClust
    ensures o.reservedSectors == 0 ==> p.bpb.resSectors == 1
    ensures o.fats == 0 ==> p.bpb.fats == 2
    ensures o.directoryEntries == 0 ==> p.bpb.rootDirEnts == if o.fatType == 32 then 0 else f.rootDirEnts
    ensures o.sectorsPerFat == 0 ==> p.bpb.bigFatSecs == f.bigFatSecs
    ensures o.media.None? ==> p.bpb.media == f.media
    ensures o.fatType == 0 ==> p.fat == 12
  {
    var a := StartingBlock(o).value;
    FloppyStart(o, f, a);
    FloppyChecks(o, a, p);
    FormatParts(o.floppy.value, f);
  }

  lemma FloppyStart(o: Options, f: Bpb, a: Bpb)
    requires o.floppy.Some? && StandardFormat(o.floppy.value) == Some(f) && StartingBlock(o) == Ok(a)
    ensures a == f.(bytesPerSec := a.bytesPerSec, heads := a.heads, secPerTrack := a.secPerTrack,
                    hugeSectors := a.hugeSectors, hiddenSecs := a.hiddenSecs)
    ensures a.bytesPerSec == if o.bytesPerSector != 0 then o.bytesPerSector else f.bytesPerSec
    ensures a.heads == if o.heads != 0 then o.heads else f.heads
    ensures a.secPerTrack == if o.sectorsPerTrack != 0 then o.sectorsPerTrack else f.secPerTrack
    ensures a.hugeSectors == if o.size != 0 then o.size else f.hugeSectors
    ensures a.hiddenSecs == if o.hiddenSectors.Some? then o.hiddenSectors.value else f.hiddenSecs
  {
  }

  lemma FloppyChecks(o: Options, a: Bpb, p: Params)
    requires o.floppy.Some? && Checked(o, a) == Ok(p)
    ensures p.bpb == a.(secPerClust := p.bpb.secPerClust, resSectors := p.bpb.resSectors, fats := p.bpb.fats,
                        rootDirEnts := p.bpb.rootDirEnts, media := p.bpb.media, bigFatSecs := p.bpb.bigFatSecs,
                        fsInfo := o.infoSector, backup := o.backupSector)
    ensures o.blockSize == o.sectorsPerCluster == 0 ==> p.bpb.secPerClust == a.secPerClust
    ensures o.reservedSectors == 0 ==> p.bpb.resSectors == a.resSectors
    ensures o.fats == 0 ==> p.bpb.fats == if a.fats != 0 then a.fats else 2
    ensures o.directoryEntries == 0 ==> p.bpb.rootDirEnts == if p.fat == 32 then 0 else a.rootDirEnts
    ensures o.sectorsPerFat == 0 ==> p.bpb.bigFatSecs == a.bigFatSecs
    ensures o.media.None? ==> p.bpb.media == a.media
    ensures p.fat == if o.fatType != 0 then o.fatType else 12
  {
  }

  lemma FormatParts(kb: nat, f: Bpb)
    requires StandardFormat(kb) == Some(f)
    ensures f.resSectors == 1 && f.fats == 2 && f.hiddenSecs == 0
  {
  }

  /** A suggested cluster is one sector up to 6000 sectors; s sectors do up to 2048 * s * s of them. */
  lemma SuggestedExactly(huge: nat, s: nat)
    requires s == 8 || s == 16 || s == 32
    ensures SuggestedCluster(huge) == 1 <==> huge <= 6000
    ensures SuggestedCluster(huge) <= s <==> huge <= 2048 * s * s
    ensures SuggestedCluster(huge) in {1, 8, 16, 32, 64}
  {
  }

  /** The FAT type that the options settle on, or 0 if it is left to the size of the volume. */
  lemma FatExactly(o: Options, fat: nat)
    requires RequestedFat(o) == Ok(fat)
    ensures o.fatType != 0 ==> fat == o.fatType
    ensures o.fatType == 0 ==>
              fat == if o.floppy.Some? then 12 else if o.infoSector != 0 || o.backupSector != 0 then 32 else 0
  {
  }

  /** It is legal if it exists, and has the root directory or the info and backup sectors that are asked for. */
  lemma FatLegalExactly(o: Options)
    ensures RequestedFat(o).Ok? <==>
              && (o.fatType == 0 || IsFat(o.fatType))
              && (o.directoryEntries != 0 ==> o.fatType != 32 && o.infoSector == o.backupSector == 0)
              && (o.infoSector != 0 || o.backupSector != 0 ==> o.fatType == 32 || (o.fatType == 0 && o.floppy.None?))
  {
  }

  /** A size that is so many units, and a legal number of them. */
  predicate Units(size: nat, unit: nat, n: nat) {
    size == n * unit
  }

  lemma {:induction false} DoublePower(x: nat)
    requires x >= 1 && PowerOf2(x)
    ensures PowerOf2(2 * x)
  {
  }

  lemma ProductPower(spc: nat, bps: nat)
    requires IsSpc(spc) && IsBps(bps)
    ensures PowerOf2(spc * bps) && bps <= spc * bps <= bps * MAXSPC
  {
    BpsIsPower(bps);
    DoublePower(bps);
    DoublePower(2 * bps);
    DoublePower(4 * bps);
    DoublePower(8 * bps);
    DoublePower(16 * bps);
    DoublePower(32 * bps);
    DoublePower(64 * bps);
  }

  /** A cluster size is legal exactly if it is a block size of a legal number of sectors, or such a number. */
  lemma ClusterLegalExactly(o: Options, b: Bpb)
    requires IsBps(b.bytesPerSec)
    ensures RequestedCluster(o, b).Ok? <==>
              && (o.blockSize != 0 ==> exists spc: nat :: IsSpc(spc) && Units(o.blockSize, b.bytesPerSec, spc))
              && (o.sectorsPerCluster != 0 ==> IsSpc(o.sectorsPerCluster))
  {
    if o.blockSize != 0 {
      BlockLegalExactly(o.blockSize, b.bytesPerSec);
    }
    if o.sectorsPerCluster != 0 {
      if PowerOf2(o.sectorsPerCluster) {
        SmallPowerByte(o.sectorsPerCluster);
      }
      if IsSpc(o.sectorsPerCluster) {
        SpcIsPower(o.sectorsPerCluster);
      }
    }
  }

  lemma BlockLegalExactly(size: nat, bps: nat)
    requires IsBps(bps) && size > 0
    ensures PowerOf2(size) && bps <= size <= bps * MAXSPC <==> exists spc: nat :: IsSpc(spc) && Units(size, bps, spc)
  {
    if PowerOf2(size) && bps <= size <= bps * MAXSPC {
      BlockUnits(size, bps);
    }
    if spc: nat :| IsSpc(spc) && Units(size, bps, spc) {
      ProductPower(spc, bps);
    }
  }

  lemma BlockUnits(size: nat, bps: nat)
    requires IsBps(bps) && PowerOf2(size) && bps <= size <= bps * MAXSPC
    ensures IsSpc(size / bps) && Units(size, bps, size / bps)
  {
    BpsIsPower(bps);
    PowerOf2Divides(bps, size);
    WholeUnits(size, bps);
    SmallPower(size / bps);
  }

  lemma WholeUnits(size: nat, bps: nat)
    requires bps > 0 && size % bps == 0 && bps <= size <= bps * MAXSPC
    ensures 1 <= size / bps <= MAXSPC && Units(size, bps, size / bps)
  {
    DivAtLeast(size, bps, 1);
    DivBelow(size, bps, MAXSPC + 1);
  }

  /** A bootstrap file is legal exactly if it is between one and 65535 whole sectors long. */
  lemma BootLegalExactly(o: Options, bps: nat)
    requires bps > 0
    ensures BootSectors(o, bps).Ok? && o.bootstrap.Some? <==>
              o.bootstrap.Some? && exists n: nat :: 1 <= n <= MAXU16 && Units(o.bootstrap.value, bps, n)
    ensures BootSectors(o, bps).Ok? && o.bootstrap.Some? ==> Units(o.bootstrap.value, bps, BootSectors(o, bps).value)
    ensures o.bootstrap.None? ==> BootSectors(o, bps) == Ok(1)
  {
    if o.bootstrap.Some? {
      BootUnits(o.bootstrap.value, bps);
    }
  }

  lemma BootUnits(size: nat, bps: nat)
    requires bps > 0
    ensures size % bps == 0 && bps <= size <= bps * MAXU16 <==> exists n: nat :: 1 <= n <= MAXU16 && Units(size, bps, n)
    ensures size % bps == 0 ==> Units(size, bps, size / bps)
  {
    if size % bps == 0 && bps <= size <= bps * MAXU16 {
      DivAtLeast(size, bps, 1);
      DivBelow(size, bps, MAXU16 + 1);
      assert Units(size, bps, size / bps);
    }
    if n: nat :| 1 <= n <= MAXU16 && Units(size, bps, n) {
      DivUnique(size, bps, n);
      MulMono(1, n, bps);
      MulMono(n, MAXU16, bps);
    }
  }

  /** The checks that follow the geometry pass exactly if every single request is legal. */
  lemma CheckedExactly(o: Options, b: Bpb)
    ensures Checked(o, b).Ok? <==>
              && IsBps(b.bytesPerSec)
              && (o.volumeLabel.Some? ==> OkLabel(o.volumeLabel.value))
              && RequestedFat(o).Ok? && RequestedCluster(o, b).Ok?
              && o.fats <= 16 && (o.media.Some? ==> o.media.value >= 0xf0)
              && BootSectors(o, b.bytesPerSec).Ok?
  {
    if MINBPS <= b.bytesPerSec <= MAXBPS && PowerOf2(b.bytesPerSec) {
      SectorSizes(b.bytesPerSec);
    }
    if IsBps(b.bytesPerSec) {
      BpsIsPower(b.bytesPerSec);
    }
  }

  /** There are ten floppy formats. */
  lemma FormatsExactly(o: Options)
    ensures StartingBlock(o).Ok? <==>
              o.floppy.None? || o.floppy.value in {160, 180, 320, 360, 640, 720, 1200, 1232, 1440, 2880}
  {
  }

  /** All in all, a command passes its checks exactly if every part of it does. */
  lemma ConfiguredExactly(o: Options, g: Geometry)
    ensures Configure(o, g).Ok? <==>
              && (o.blockSize == 0 || o.sectorsPerCluster == 0)
              && (o.oem.Some? ==> |o.oem.value| <= 8)
              && StartingBlock(o).Ok?
              && Probed(o, g, StartingBlock(o).value).Ok?
              && Checked(o, Probed(o, g, StartingBlock(o).value).value).Ok?
  {
  }

  /** What is neither asked for nor part of a floppy format is left open, but for the two FATs. */
  lemma OpenRequests(o: Options, g: Geometry, p: Params)
    requires Configure(o, g) == Ok(p) && o.floppy.None?
    ensures o.fats == 0 ==> p.bpb.fats == 2
    ensures o.directoryEntries == 0 ==> p.bpb.rootDirEnts == 0
    ensures o.media.None? ==> p.bpb.media == 0
    ensures o.fatType == 0 ==> p.fat == if o.infoSector != 0 || o.backupSector != 0 then 32 else 0
  {
    var a := StartingBlock(o).value;
    var b := Probed(o, g, a).value;
    BlankBlock(o, g, a, b);
    OpenChecks(o, b, p);
    FatExactly(o, p.fat);
  }

  lemma BlankBlock(o: Options, g: Geometry, a: Bpb, b: Bpb)
    requires o.floppy.None? && StartingBlock(o) == Ok(a) && Probed(o, g, a) == Ok(b)
    ensures b.fats == b.rootDirEnts == b.media == 0
  {
  }

  lemma OpenChecks(o: Options, b: Bpb, p: Params)
    requires Checked(o, b) == Ok(p)
    ensures o.fats == 0 ==> p.bpb.fats == if b.fats != 0 then b.fats else 2
    ensures o.floppy.None? && o.directoryEntries == 0 ==> p.bpb.rootDirEnts == b.rootDirEnts
    ensures o.media.None? ==> p.bpb.media == b.media
    ensures RequestedFat(o) == Ok(p.fat)
  {
  }
}
